/** Replay protection of signed requests (`_prune_nonce_cache` and `_verify_openclaw_hmac`
    in backend/auth.py). The handler awaits the request body between testing and recording
    the nonce, so the two are separate steps here. */
module NonceCache {
  import opened Basics

  const NONCE_MAX: nat := 16384
  const NONCE_TTL: real := 300.0
  const REQUEST_MAX_AGE: int := 60
  const STARTUP_GRACE: real := 120.0
  const GRACE_MAX_AGE: int := 10
  const MIN_NONCE: nat := 16

  /** `genuine` is the outcome of the signature comparison over body, path, time and nonce. */
  datatype Request = Request(nonce: string, timestamp: int, genuine: bool)

  type Cache = map<string, real>

  function MaxAge(now: real, started: real): int {
    if now - started < STARTUP_GRACE then GRACE_MAX_AGE else REQUEST_MAX_AGE
  }

  predicate Fresh(r: Request, now: real, started: real) {
    && |r.nonce| >= MIN_NONCE
    && -MaxAge(now, started) <= now.Floor - r.timestamp <= MaxAge(now, started)
  }

  function Live(cache: Cache, now: real): Cache {
    map k | k in cache && now - cache[k] <= NONCE_TTL :: cache[k]
  }

  /** What pruning may leave: all live entries if they fit, otherwise as many as fit, none
      of them older than a dropped one. */
  ghost predicate Pruned(before: Cache, after: Cache, now: real) {
    var live := Live(before, now);
    && (forall k :: k in after ==> k in live && after[k] == live[k])
    && (|live| <= NONCE_MAX ==> after == live)
    && (|live| > NONCE_MAX ==> |after| == NONCE_MAX)
    && (forall d, k :: d in live && d !in after && k in after ==> live[d] <= after[k])
  }

  class NonceStore {
    var entries: Cache

    constructor ()
      ensures entries == map[]
    {
      entries := map[];
    }

    method Prune(now: real)
      modifies this
      ensures Pruned(old(entries), entries, now)
    {
      entries := Live(entries, now);
      if |entries| > NONCE_MAX {
        var sortedKeys := KeysByTime(entries);
        entries := DropFirst(entries, sortedKeys, |entries| - NONCE_MAX);
      }
    }

    /** First half of the verification, up to the await. */
    method Check(r: Request, now: real, started: real) returns (passed: bool)
      modifies this
      ensures if Fresh(r, now, started) then Pruned(old(entries), entries, now) && (passed <==> r.nonce !in entries)
              else !passed && entries == old(entries)
    {
      if !Fresh(r, now, started) {
        return false;
      }
      Prune(now);
      return r.nonce !in entries;
    }

    /** Second half: the signature decides, and an accepted nonce is recorded. */
    method Record(r: Request, now: real) returns (accepted: bool)
      modifies this
      ensures accepted == r.genuine
      ensures entries == if accepted then old(entries)[r.nonce := now] else old(entries)
    {
      if !r.genuine {
        return false;
      }
      entries := entries[r.nonce := now];
      return true;
    }
  }

  ghost predicate InOrder(cache: Cache, keys: seq<string>) {
    && |keys| == |cache|
    && (forall k :: k in keys <==> k in cache)
    && (forall i, j :: 0 <= i < j < |keys| ==> keys[i] != keys[j] && cache[keys[i]] <= cache[keys[j]])
  }

  /** Pops the first `excess` keys. */
  method DropFirst(cache: Cache, keys: seq<string>, excess: nat) returns (left: Cache)
    requires InOrder(cache, keys) && excess <= |keys|
    ensures |left| == |cache| - excess
    ensures forall k :: k in left ==> k in cache && left[k] == cache[k]
    ensures forall d, k :: d in cache && d !in left && k in left ==> cache[d] <= left[k]
  {
    left := cache;
    for i := 0 to excess
      invariant forall j :: 0 <= j < |keys| ==> (keys[j] in left <==> j >= i)
      invariant forall k :: k in left ==> k in cache && left[k] == cache[k]
      invariant |left| == |cache| - i
    {
      RemoveOne(left, keys[i]);
      left := left - {keys[i]};
    }
    DroppedAreOlder(cache, keys, left, excess);
  }

  lemma DroppedAreOlder(cache: Cache, keys: seq<string>, left: Cache, excess: nat)
    requires InOrder(cache, keys)
    requires forall j :: 0 <= j < |keys| ==> (keys[j] in left <==> j >= excess)
    requires forall k :: k in left ==> k in cache && left[k] == cache[k]
    ensures forall d, k :: d in cache && d !in left && k in left ==> cache[d] <= left[k]
  {
    forall d, k | d in cache && d !in left && k in left
      ensures cache[d] <= left[k]
    {
      assert d in keys && k in keys;
      var a :| 0 <= a < |keys| && keys[a] == d;
      var b :| 0 <= b < |keys| && keys[b] == k;
      assert a < excess <= b;
    }
  }

  method KeysByTime(cache: Cache) returns (keys: seq<string>)
    ensures InOrder(cache, keys)
  {
    keys := [];
    var rest := cache;
    while rest != map[]
      invariant |keys| + |rest| == |cache|
      invariant forall k :: k in cache <==> k in keys || k in rest
      invariant forall k :: k in rest ==> k !in keys && k in cache && rest[k] == cache[k]
      invariant forall k :: k in keys ==> k in cache
      invariant forall i, j :: 0 <= i < j < |keys| ==> keys[i] != keys[j] && cache[keys[i]] <= cache[keys[j]]
      invariant forall i, k :: 0 <= i < |keys| && k in rest ==> cache[keys[i]] <= rest[k]
      decreases |rest|
    {
      ghost var oldest := OldestExists(rest);
      var k: string :| k in rest && forall x :: x in rest ==> rest[k] <= rest[x];
      RemoveOne(rest, k);
      rest := rest - {k};
      keys := keys + [k];
    }
  }

  lemma {:induction false} OldestExists(cache: Cache) returns (k: string)
    requires cache != map[]
    ensures k in cache && forall x :: x in cache ==> cache[k] <= cache[x]
    decreases |cache|
  {
    k :| k in cache;
    var rest := cache - {k};
    RemoveOne(cache, k);
    assert forall x :: x in cache ==> x == k || x in rest;
    if rest == map[] {
    } else {
      var m := OldestExists(rest);
      if cache[m] < cache[k] {
        k := m;
      }
    }
  }

  // ---------------------------------------------------------------- pruning, exactly

  function Newer(cache: Cache, time: real): set<string> {
    set k | k in cache && cache[k] > time
  }

  /** With distinct times an entry survives exactly when it is live and fewer than 16384
      live entries are newer. */
  lemma SurvivesPruneExactlyWhen(before: Cache, after: Cache, now: real, k: string)
    requires Pruned(before, after, now) && k in before
    requires forall a, b :: a in before && b in before && a != b ==> before[a] != before[b]
    ensures k in after <==> now - before[k] <= 300.0 && |Newer(Live(before, now), before[k])| < 16384
  {
    var live := Live(before, now);
    if k in live {
      var newer := Newer(live, live[k]);
      if |live| <= NONCE_MAX {
        assert newer <= live.Keys - {k};
        Smaller(newer, live.Keys - {k});
        assert |live.Keys - {k}| == |live.Keys| - 1;
      } else if k in after {
        assert newer <= after.Keys - {k};
        Smaller(newer, after.Keys - {k});
        assert |after.Keys - {k}| == NONCE_MAX - 1;
      } else {
        assert after.Keys <= newer;
        Smaller(after.Keys, newer);
      }
    }
  }

  // ---------------------------------------------------------------- runs

  /** A run interleaves the two halves of any number of requests. */
  datatype Action =
    | Check(request: Request, now: real, passed: bool)
    | Record(request: Request, now: real)

  ghost predicate Next(s: Cache, a: Action, t: Cache, started: real) {
    match a
    case Check(r, now, passed) =>
      if Fresh(r, now, started) then Pruned(s, t, now) && (passed <==> r.nonce !in t) else !passed && t == s
    case Record(r, now) => t == s[r.nonce := now]
  }

  datatype Trace = Trace(states: seq<Cache>, actions: seq<Action>)

  ghost predicate StepAt(tr: Trace, i: nat, started: real)
    requires i < |tr.actions| && |tr.states| == |tr.actions| + 1
  {
    Next(tr.states[i], tr.actions[i], tr.states[i + 1], started)
  }

  /** A run of one process: it starts with an empty cache and its clock never goes back. */
  ghost predicate Valid(tr: Trace, started: real) {
    && |tr.states| == |tr.actions| + 1
    && tr.states[0] == map[]
    && (forall i :: 0 <= i < |tr.actions| ==> StepAt(tr, i, started))
    && (forall i, j :: 0 <= i <= j < |tr.actions| ==> tr.actions[i].now <= tr.actions[j].now)
  }

  ghost predicate RecordedAt(tr: Trace, i: nat, nonce: string, time: real) {
    i < |tr.actions| && tr.actions[i].Record? && tr.actions[i].request.nonce == nonce && tr.actions[i].now == time
  }

  /** Every entry of a reachable cache was recorded, at its time. */
  lemma {:induction false} EntriesWereRecorded(tr: Trace, started: real, n: nat, nonce: string) returns (i: nat)
    requires Valid(tr, started) && n < |tr.states| && nonce in tr.states[n]
    ensures i < n && RecordedAt(tr, i, nonce, tr.states[n][nonce])
  {
    assert n > 0;
    assert StepAt(tr, n - 1, started);
    var a := tr.actions[n - 1];
    if a.Record? && a.request.nonce == nonce {
      i := n - 1;
    } else {
      assert nonce in tr.states[n - 1] && tr.states[n - 1][nonce] == tr.states[n][nonce];
      i := EntriesWereRecorded(tr, started, n - 1, nonce);
    }
  }

  /** The other nonces recorded before action `n` at a time not before `since`. */
  ghost function Rivals(tr: Trace, n: nat, nonce: string, since: real): set<string>
    requires n <= |tr.actions|
  {
    set i | 0 <= i < n && tr.actions[i].Record? && tr.actions[i].now >= since && tr.actions[i].request.nonce != nonce
      :: tr.actions[i].request.nonce
  }

  lemma PruneKeepsNonce(tr: Trace, started: real, n: nat, nonce: string, since: real)
    requires Valid(tr, started) && n < |tr.actions| && tr.actions[n].Check?
    requires Fresh(tr.actions[n].request, tr.actions[n].now, started)
    requires nonce in tr.states[n] && tr.states[n][nonce] >= since
    requires tr.actions[n].now - since <= NONCE_TTL
    requires |Rivals(tr, n, nonce, since)| < NONCE_MAX
    ensures nonce in tr.states[n + 1] && tr.states[n + 1][nonce] == tr.states[n][nonce]
  {
    var before, after := tr.states[n], tr.states[n + 1];
    assert StepAt(tr, n, started);
    assert nonce in Live(before, tr.actions[n].now);
    if nonce !in after {
      forall k | k in after.Keys
        ensures k in Rivals(tr, n, nonce, since)
      {
        assert after[k] == before[k] >= since;
        var i := EntriesWereRecorded(tr, started, n, k);
      }
      Smaller(after.Keys, Rivals(tr, n, nonce, since));
    }
  }

  lemma RivalsGrow(tr: Trace, m: nat, n: nat, nonce: string, since: real)
    requires m <= n <= |tr.actions|
    ensures |Rivals(tr, m, nonce, since)| <= |Rivals(tr, n, nonce, since)|
  {
    Smaller(Rivals(tr, m, nonce, since), Rivals(tr, n, nonce, since));
  }

  /** Once recorded, a nonce stays for as long as neither time nor rivals push it out. */
  lemma {:induction false} NonceStays(tr: Trace, started: real, j: nat, n: nat, nonce: string)
    requires Valid(tr, started) && j < n <= |tr.actions|
    requires RecordedAt(tr, j, nonce, tr.actions[j].now)
    requires tr.actions[n - 1].now - tr.actions[j].now <= 300.0
    requires |Rivals(tr, n, nonce, tr.actions[j].now)| < 16384
    ensures nonce in tr.states[n] && tr.states[n][nonce] >= tr.actions[j].now
  {
    assert StepAt(tr, n - 1, started);
    if n - 1 > j {
      var since := tr.actions[j].now;
      assert tr.actions[n - 2].now <= tr.actions[n - 1].now;
      RivalsGrow(tr, n - 1, n, nonce, since);
      NonceStays(tr, started, j, n - 1, nonce);
      var a := tr.actions[n - 1];
      if a.Check? && Fresh(a.request, a.now, started) {
        PruneKeepsNonce(tr, started, n - 1, nonce, since);
      }
    }
  }

  /** When a request is fresh: its nonce has sixteen characters, and its date lies within
      sixty whole seconds of the clock in both directions, or within ten during the first two
      minutes of the process. */
  lemma FreshExactlyWhen(r: Request, now: real, started: real)
    ensures Fresh(r, now, started) <==>
      && |r.nonce| >= 16
      && (now - started < 120.0 ==> r.timestamp - 10 <= now.Floor <= r.timestamp + 10)
      && (now - started >= 120.0 ==> r.timestamp - 60 <= now.Floor <= r.timestamp + 60)
  {
  }

  /** A restart lets nothing through that was dated more than ten seconds before: during the
      grace period older requests are refused, whether or not they were seen. */
  lemma GraceRefusesOlderRequests(r: Request, restart: real, now: real)
    requires restart <= now < restart + 120.0 && now.Floor > r.timestamp + 10
    ensures !Fresh(r, now, restart)
  {
  }

  /** Two windows of sixty seconds, each cut to whole seconds, span less than 121. */
  lemma WindowsAreShort(r1: Request, r2: Request, t1: real, t2: real, started: real)
    requires Fresh(r1, t1, started) && Fresh(r2, t2, started) && r1.timestamp == r2.timestamp
    ensures t2 - t1 < 121.0
  {}

  /** No double acceptance, over every interleaving of the halves of all requests: if a
      request was recorded before an equal one is checked, the check fails, unless 16384
      other nonces were recorded in the meantime. */
  lemma NoDoubleAcceptance(tr: Trace, started: real, i1: nat, j1: nat, i2: nat)
    requires Valid(tr, started) && i1 < j1 < i2 < |tr.actions|
    requires tr.actions[i1].Check? && tr.actions[i1].passed
    requires tr.actions[j1] == Record(tr.actions[i1].request, tr.actions[j1].now)
    requires tr.actions[i2].Check?
    requires tr.actions[i2].request.nonce == tr.actions[i1].request.nonce
    requires tr.actions[i2].request.timestamp == tr.actions[i1].request.timestamp
    requires |Rivals(tr, i2 + 1, tr.actions[i1].request.nonce, tr.actions[j1].now)| < 16384
    ensures !tr.actions[i2].passed
  {
    var a1, a2 := tr.actions[i1], tr.actions[i2];
    assert StepAt(tr, i1, started) && StepAt(tr, i2, started);
    if Fresh(a2.request, a2.now, started) {
      WindowsAreShort(a1.request, a2.request, a1.now, a2.now, started);
      assert a1.now <= tr.actions[j1].now;
      NonceStays(tr, started, j1, i2 + 1, a1.request.nonce);
    }
  }

  /** The nonce was recorded at `j`, before action `n`, and has not expired when `n` happens. */
  ghost predicate RecordedLately(tr: Trace, j: nat, n: nat, nonce: string)
    requires n < |tr.actions|
  {
    && j < n && RecordedAt(tr, j, nonce, tr.actions[j].now)
    && tr.actions[n].now - tr.actions[j].now <= 300.0
  }

  /** When a check refuses a fresh request: exactly when its nonce was recorded within the
      last 300 seconds, provided no such record has seen 16384 other nonces since. */
  lemma CheckFailsExactlyWhen(tr: Trace, started: real, n: nat)
    requires Valid(tr, started) && n < |tr.actions| && tr.actions[n].Check?
    requires Fresh(tr.actions[n].request, tr.actions[n].now, started)
    requires forall j: nat :: RecordedLately(tr, j, n, tr.actions[n].request.nonce) ==>
      |Rivals(tr, n, tr.actions[n].request.nonce, tr.actions[j].now)| < 16384
    ensures !tr.actions[n].passed <==> exists j: nat :: RecordedLately(tr, j, n, tr.actions[n].request.nonce)
  {
    var nonce := tr.actions[n].request.nonce;
    assert StepAt(tr, n, started);
    if j: nat :| RecordedLately(tr, j, n, nonce) {
      CheckAddsNoRival(tr, n, nonce, tr.actions[j].now);
      NonceStays(tr, started, j, n + 1, nonce);
    } else if !tr.actions[n].passed {
      var j := EntriesWereRecorded(tr, started, n, nonce);
      assert RecordedLately(tr, j, n, nonce);
    }
  }

  lemma CheckAddsNoRival(tr: Trace, n: nat, nonce: string, since: real)
    requires n < |tr.actions| && tr.actions[n].Check?
    ensures Rivals(tr, n + 1, nonce, since) == Rivals(tr, n, nonce, since)
  {
  }

  /** No two records at the same time. */
  ghost predicate DistinctTimes(tr: Trace) {
    forall i, j :: 0 <= i < j < |tr.actions| && tr.actions[i].Record? && tr.actions[j].Record? ==>
      tr.actions[i].now != tr.actions[j].now
  }

  /** The other nonces recorded before action `n` at a time after `since`. */
  ghost function LaterRivals(tr: Trace, n: nat, nonce: string, since: real): set<string>
    requires n <= |tr.actions|
  {
    set i | 0 <= i < n && tr.actions[i].Record? && tr.actions[i].now > since && tr.actions[i].request.nonce != nonce
      :: tr.actions[i].request.nonce
  }

  /** While a nonce is in the cache, so is every nonce recorded at a later time. */
  lemma {:induction false} RivalsOutliveNonce(tr: Trace, started: real, n: nat, nonce: string, k: string)
    requires Valid(tr, started) && n <= |tr.actions| && nonce in tr.states[n]
    requires k in LaterRivals(tr, n, nonce, tr.states[n][nonce])
    requires n > 0 ==> tr.actions[n - 1].now - tr.states[n][nonce] <= NONCE_TTL
    ensures k in tr.states[n] && tr.states[n][k] > tr.states[n][nonce]
  {
    assert n > 0;
    var before, a, since := tr.states[n - 1], tr.actions[n - 1], tr.states[n][nonce];
    assert StepAt(tr, n - 1, started);
    var i :| 0 <= i < n && tr.actions[i].Record? && tr.actions[i].now > since && tr.actions[i].request.nonce == k;
    if i < n - 1 && !(a.Record? && a.request.nonce == k) {
      assert tr.actions[i].now <= tr.actions[n - 1].now;
      assert nonce in before && before[nonce] == since;
      assert k in LaterRivals(tr, n - 1, nonce, since);
      RivalsOutliveNonce(tr, started, n - 1, nonce, k);
    }
  }

  /** A nonce that a pruning keeps has fewer later rivals than the cap. */
  lemma RivalsOfKept(tr: Trace, started: real, n: nat, nonce: string)
    requires Valid(tr, started) && n < |tr.actions| && tr.actions[n].Check?
    requires Fresh(tr.actions[n].request, tr.actions[n].now, started)
    requires nonce in tr.states[n + 1]
    ensures |LaterRivals(tr, n, nonce, tr.states[n + 1][nonce])| < NONCE_MAX
  {
    assert StepAt(tr, n, started);
    var after := tr.states[n + 1];
    var rivals := LaterRivals(tr, n, nonce, after[nonce]);
    assert LaterRivals(tr, n + 1, nonce, after[nonce]) == rivals;
    forall k | k in rivals
      ensures k in after.Keys - {nonce}
    {
      RivalsOutliveNonce(tr, started, n + 1, nonce, k);
    }
    Smaller(rivals, after.Keys - {nonce});
    assert |after.Keys - {nonce}| == |after| - 1;
  }

  /** What decides about a fresh request, over every trace: it passes if each record of its
      nonce within the last 300 seconds was followed by later records of 16384 other nonces,
      and it fails if some such record was followed, at the same time or later, by fewer.
      Between the two lie only traces in which records fall on the same instant. */
  lemma CheckDecidedByRivals(tr: Trace, started: real, n: nat)
    requires Valid(tr, started) && n < |tr.actions| && tr.actions[n].Check?
    requires Fresh(tr.actions[n].request, tr.actions[n].now, started)
    ensures (forall j: nat :: RecordedLately(tr, j, n, tr.actions[n].request.nonce) ==>
               |LaterRivals(tr, n, tr.actions[n].request.nonce, tr.actions[j].now)| >= 16384) ==>
      tr.actions[n].passed
    ensures (exists j: nat :: RecordedLately(tr, j, n, tr.actions[n].request.nonce) &&
               |Rivals(tr, n, tr.actions[n].request.nonce, tr.actions[j].now)| < 16384) ==>
      !tr.actions[n].passed
  {
    var nonce := tr.actions[n].request.nonce;
    assert StepAt(tr, n, started);
    if j: nat :| RecordedLately(tr, j, n, nonce) && |Rivals(tr, n, nonce, tr.actions[j].now)| < NONCE_MAX {
      CheckAddsNoRival(tr, n, nonce, tr.actions[j].now);
      NonceStays(tr, started, j, n + 1, nonce);
    }
    if nonce in tr.states[n + 1] {
      var j := EntriesWereRecorded(tr, started, n, nonce);
      assert RecordedLately(tr, j, n, nonce);
      RivalsOfKept(tr, started, n, nonce);
    }
  }

  /** The exact rule for every trace with distinct record times, with nothing assumed about
      the number of rivals: a check passes a fresh request exactly when each record of its
      nonce within the last 300 seconds was followed by records of 16384 other nonces. */
  lemma CheckPassesExactlyWhen(tr: Trace, started: real, n: nat)
    requires Valid(tr, started) && DistinctTimes(tr) && n < |tr.actions| && tr.actions[n].Check?
    requires Fresh(tr.actions[n].request, tr.actions[n].now, started)
    ensures tr.actions[n].passed <==>
      forall j: nat :: RecordedLately(tr, j, n, tr.actions[n].request.nonce) ==>
        |Rivals(tr, n, tr.actions[n].request.nonce, tr.actions[j].now)| >= 16384
  {
    var nonce := tr.actions[n].request.nonce;
    CheckDecidedByRivals(tr, started, n);
    forall j: nat | RecordedLately(tr, j, n, nonce)
      ensures LaterRivals(tr, n, nonce, tr.actions[j].now) == Rivals(tr, n, nonce, tr.actions[j].now)
    {
      RivalsAreLater(tr, n, nonce, j);
    }
  }

  lemma RivalsAreLater(tr: Trace, n: nat, nonce: string, j: nat)
    requires DistinctTimes(tr) && j < n <= |tr.actions| && RecordedAt(tr, j, nonce, tr.actions[j].now)
    ensures LaterRivals(tr, n, nonce, tr.actions[j].now) == Rivals(tr, n, nonce, tr.actions[j].now)
  {
  }

  /** Non-overlap is needed: two equal requests whose checks both precede the first record
      are both accepted. */
  lemma OverlapAcceptsTwice(r: Request, now: real, started: real)
    requires Fresh(r, now, started)
    ensures var one: Cache := map[r.nonce := now];
      var actions := [Check(r, now, true), Check(r, now, true), Record(r, now), Record(r, now)];
      Valid(Trace([map[], map[], map[], one, one], actions), started)
  {
  }

  // ---------------------------------------------------------------- size

  function RecordsSinceCheck(actions: seq<Action>, started: real): nat {
    if actions == [] then 0
    else
      var a := actions[|actions| - 1];
      if a.Record? then 1 + RecordsSinceCheck(actions[..|actions| - 1], started)
      else if Fresh(a.request, a.now, started) then 0
      else RecordsSinceCheck(actions[..|actions| - 1], started)
  }

  /** The cache exceeds its cap by at most the requests in flight since the last pruning. */
  lemma {:induction false} CacheIsBounded(tr: Trace, started: real, n: nat)
    requires Valid(tr, started) && n < |tr.states|
    ensures |tr.states[n]| <= 16384 + RecordsSinceCheck(tr.actions[..n], started)
  {
    if n == 0 {
    } else {
      CacheIsBounded(tr, started, n - 1);
      assert StepAt(tr, n - 1, started);
      assert tr.actions[..n][..n - 1] == tr.actions[..n - 1];
      var a := tr.actions[n - 1];
      if a.Record? {
        var s, t := tr.states[n - 1], tr.states[n];
        assert t.Keys == s.Keys + {a.request.nonce};
      }
    }
  }

  /** One request at a time: every record directly follows the check it belongs to. */
  ghost predicate Sequential(actions: seq<Action>, started: real) {
    forall i :: 0 <= i < |actions| && actions[i].Record? ==>
      i > 0 && actions[i - 1].Check? && Fresh(actions[i - 1].request, actions[i - 1].now, started)
  }

  /** Without overlap the cache never holds more than 16385 nonces. */
  lemma SequentialBound(tr: Trace, started: real, n: nat)
    requires Valid(tr, started) && n < |tr.states| && Sequential(tr.actions, started)
    ensures |tr.states[n]| <= 16384 + 1
  {
    CacheIsBounded(tr, started, n);
    SequentialRecords(tr.actions, started, n);
  }

  lemma {:induction false} SequentialRecords(actions: seq<Action>, started: real, n: nat)
    requires Sequential(actions, started) && n <= |actions|
    ensures RecordsSinceCheck(actions[..n], started) <= 1
  {
    if n == 0 {
    } else {
      SequentialRecords(actions, started, n - 1);
      assert actions[..n][..n - 1] == actions[..n - 1];
      if actions[n - 1].Record? {
        assert actions[..n - 1][..n - 2] == actions[..n - 2];
        assert RecordsSinceCheck(actions[..n - 1], started) == 0;
      }
    }
  }

  // ---------------------------------------------------------------- restart

  /** A restart forgets the nonces; the grace period is meant to cover for them. A request
      accepted before the restart can pass the freshness test after the grace period only
      in one corner: it was dated a full minute ahead, and not a second is to spare. */
  lemma GraceCoversAllButOneCorner(r: Request, t1: real, started1: real, restart: real, t2: real)
    requires Fresh(r, t1, started1) && t1 <= restart <= t2
    requires t2 - restart >= 120.0
    ensures Fresh(r, t2, restart) <==> r.timestamp == t1.Floor + 60 && t2.Floor == t1.Floor + 120
  {}

  /** That corner exists, and during the grace period replays are possible up to ten
      seconds after the date on the request. */
  lemma RestartReplays(nonce: string)
    requires |nonce| >= 16
    ensures var r := Request(nonce, 1060, true); Fresh(r, 1000.2, 0.0) && Fresh(r, 1120.5, 1000.5)
    ensures var r := Request(nonce, 1000, true); Fresh(r, 1000.2, 0.0) && Fresh(r, 1010.9, 1000.5)
  {
  }
}
