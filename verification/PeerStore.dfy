/** The peer store (backend/services/mesh/mesh_peer_store.py): records keyed by bucket and
    URL, and the merge that upserting an existing record performs. */
module PeerStore {

  datatype Bucket = Bootstrap | Sync | Push
  datatype Source = Bundle | Operator | BootstrapPromoted | Runtime | Swarm
  datatype Transport = NoTransport | Clearnet | Onion | Rns
  datatype Role = Participant | Relay | Seed

  /** A normalized URL; `rest` is the port and the path. */
  datatype Url = Url(scheme: string, host: string, rest: string)

  datatype Key = Key(bucket: Bucket, url: Url)

  datatype Record = Record(
    bucket: Bucket, source: Source, url: Url, transport: Transport, role: Role,
    name: string, signerId: string, enabled: bool,
    addedAt: int, updatedAt: int, lastSeenAt: int, lastSyncOkAt: int, lastPushOkAt: int,
    lastError: string, failureCount: int, cooldownUntil: int, metadata: map<string, string>)
  {
    function RecordKey(): Key {
      Key(bucket, url)
    }
  }

  type Records = map<Key, Record>

  predicate IsOnionHost(host: string) {
    |host| >= 6 && host[|host| - 6..] == ".onion"
  }

  function TransportKind(url: Url): Transport {
    if url.scheme == "http" && IsOnionHost(url.host) then Onion
    else if url.scheme == "https" && url.host != "" then Clearnet
    else if url.scheme == "http" && url.host != "" then Clearnet
    else NoTransport
  }

  /** What a record must satisfy to be made or loaded at all. */
  predicate Accepted(r: Record) {
    match r.transport
    case Clearnet => r.url.scheme in ["https", "http"] && !IsOnionHost(r.url.host)
    case Onion => r.url.scheme == "http" && IsOnionHost(r.url.host)
    case _ => false
  }

  predicate AllAccepted(rs: seq<Record>) {
    forall i :: 0 <= i < |rs| ==> Accepted(rs[i])
  }

  /** An accepted record's transport is a function of its URL. */
  lemma TransportFollowsUrl(r: Record, s: Record)
    requires Accepted(r) && Accepted(s) && r.url == s.url
    ensures r.transport == s.transport
  {
  }

  // ---------------------------------------------------------------- merging

  function Max(a: int, b: int): int {
    if a >= b then a else b
  }

  function Or(a: string, b: string): string {
    if a != "" then a else b
  }

  /** A seed listed again by the bundle or the manifest starts over without its backoff. */
  predicate ClearsBackoff(r: Record) {
    r.bucket == Sync && r.role == Seed && r.source in {Bundle, BootstrapPromoted}
  }

  function Merge(existing: Record, r: Record): Record {
    r.(name := Or(r.name, existing.name),
       signerId := Or(r.signerId, existing.signerId),
       addedAt := if existing.addedAt != 0 then existing.addedAt else r.addedAt,
       updatedAt := Max(existing.updatedAt, r.updatedAt),
       lastSeenAt := Max(existing.lastSeenAt, r.lastSeenAt),
       lastSyncOkAt := Max(existing.lastSyncOkAt, r.lastSyncOkAt),
       lastPushOkAt := Max(existing.lastPushOkAt, r.lastPushOkAt),
       lastError := if ClearsBackoff(r) then "" else Or(r.lastError, existing.lastError),
       failureCount := if ClearsBackoff(r) then 0 else Max(existing.failureCount, r.failureCount),
       cooldownUntil := if ClearsBackoff(r) then 0 else Max(existing.cooldownUntil, r.cooldownUntil),
       metadata := existing.metadata + r.metadata)
  }

  /** The merge of any two records in fields: the new record says who the peer is, names and
      errors it leaves out stay, the first date stays, every other date and count is the
      larger one; but a sync seed of the bundle or the manifest starts over. */
  lemma MergeInFields(existing: Record, r: Record)
    ensures var t := Merge(existing, r);
      && (t.bucket, t.source, t.url) == (r.bucket, r.source, r.url)
      && (t.transport, t.role, t.enabled) == (r.transport, r.role, r.enabled)
      && t.name == (if r.name == "" then existing.name else r.name)
      && t.signerId == (if r.signerId == "" then existing.signerId else r.signerId)
      && t.addedAt == (if existing.addedAt == 0 then r.addedAt else existing.addedAt)
      && (t.updatedAt == existing.updatedAt || t.updatedAt == r.updatedAt)
      && existing.updatedAt <= t.updatedAt && r.updatedAt <= t.updatedAt
      && (t.lastSeenAt == existing.lastSeenAt || t.lastSeenAt == r.lastSeenAt)
      && existing.lastSeenAt <= t.lastSeenAt && r.lastSeenAt <= t.lastSeenAt
      && (t.lastSyncOkAt == existing.lastSyncOkAt || t.lastSyncOkAt == r.lastSyncOkAt)
      && existing.lastSyncOkAt <= t.lastSyncOkAt && r.lastSyncOkAt <= t.lastSyncOkAt
      && (t.lastPushOkAt == existing.lastPushOkAt || t.lastPushOkAt == r.lastPushOkAt)
      && existing.lastPushOkAt <= t.lastPushOkAt && r.lastPushOkAt <= t.lastPushOkAt
      && (forall k :: k in r.metadata ==> k in t.metadata && t.metadata[k] == r.metadata[k])
      && (forall k :: k in existing.metadata && k !in r.metadata ==>
            k in t.metadata && t.metadata[k] == existing.metadata[k])
  {
  }

  lemma MergedBackoffInFields(existing: Record, r: Record)
    ensures var t := Merge(existing, r);
      if r.bucket == Sync && r.role == Seed && (r.source == Bundle || r.source == BootstrapPromoted) then
        (t.lastError, t.failureCount, t.cooldownUntil) == ("", 0, 0)
      else
        && t.lastError == (if r.lastError == "" then existing.lastError else r.lastError)
        && (t.failureCount == existing.failureCount || t.failureCount == r.failureCount)
        && existing.failureCount <= t.failureCount && r.failureCount <= t.failureCount
        && (t.cooldownUntil == existing.cooldownUntil || t.cooldownUntil == r.cooldownUntil)
        && existing.cooldownUntil <= t.cooldownUntil && r.cooldownUntil <= t.cooldownUntil
  {
  }

  function Upserted(m: Records, r: Record): Records {
    m[r.RecordKey() := if r.RecordKey() in m then Merge(m[r.RecordKey()], r) else r]
  }

  function UpsertAll(m: Records, rs: seq<Record>): Records {
    if rs == [] then m else Upserted(UpsertAll(m, rs[..|rs| - 1]), rs[|rs| - 1])
  }

  lemma {:induction false} UpsertAllAppend(m: Records, rs: seq<Record>, more: seq<Record>)
    ensures UpsertAll(m, rs + more) == UpsertAll(UpsertAll(m, rs), more)
  {
    if more == [] {
      assert rs + more == rs;
    } else {
      UpsertAllAppend(m, rs, more[..|more| - 1]);
      assert (rs + more)[..|rs + more| - 1] == rs + more[..|more| - 1];
    }
  }

  lemma UpsertOneMore(m: Records, rs: seq<Record>, r: Record)
    ensures UpsertAll(m, rs + [r]) == Upserted(UpsertAll(m, rs), r)
  {
  }

  function KeysOf(rs: seq<Record>): set<Key> {
    set i | 0 <= i < |rs| :: rs[i].RecordKey()
  }

  lemma KeysOfOneMore(rs: seq<Record>, r: Record)
    ensures KeysOf(rs + [r]) == KeysOf(rs) + {r.RecordKey()}
  {
    var all := rs + [r];
    assert all[|rs|] == r;
    forall k | k in KeysOf(rs)
      ensures k in KeysOf(all)
    {
      var i :| 0 <= i < |rs| && rs[i].RecordKey() == k;
      assert all[i].RecordKey() == k;
    }
  }

  lemma {:induction false} UpsertedKeys(m: Records, rs: seq<Record>)
    ensures UpsertAll(m, rs).Keys == m.Keys + KeysOf(rs)
    ensures forall k :: k in m && k !in KeysOf(rs) ==> UpsertAll(m, rs)[k] == m[k]
  {
    if rs == [] {
    } else {
      var n := |rs| - 1;
      UpsertedKeys(m, rs[..n]);
      KeysOfOneMore(rs[..n], rs[n]);
      assert rs == rs[..n] + [rs[n]];
    }
  }

  /** Every record is accepted and stored under its own key. */
  ghost predicate Sound(m: Records) {
    forall k :: k in m ==> Accepted(m[k]) && m[k].RecordKey() == k
  }

  lemma {:induction false} UpsertsStaySound(m: Records, rs: seq<Record>)
    requires Sound(m) && AllAccepted(rs)
    ensures Sound(UpsertAll(m, rs))
  {
    if rs == [] {
    } else {
      UpsertsStaySound(m, rs[..|rs| - 1]);
    }
  }

  // ---------------------------------------------------------------- repeated upserts

  /** Upserting `r` into `f` can only change what a later record decides again. */
  ghost predicate Settled(f: Record, r: Record) {
    && (f.addedAt != 0 || r.addedAt == 0)
    && f.updatedAt >= r.updatedAt && f.lastSeenAt >= r.lastSeenAt && f.lastSyncOkAt >= r.lastSyncOkAt
    && f.lastPushOkAt >= r.lastPushOkAt && f.failureCount >= 0 && f.cooldownUntil >= 0
  }

  /** `r` carries no history of its own, as every record made by a refresh. */
  predicate NoHistory(r: Record) {
    r.lastError == "" && r.failureCount == 0 && r.cooldownUntil == 0 && r.metadata == map[]
  }

  lemma {:induction false} UpsertsSettle(m: Records, rs: seq<Record>, i: nat)
    requires i < |rs| && forall j :: 0 <= j < |rs| ==> NoHistory(rs[j])
    ensures rs[i].RecordKey() in UpsertAll(m, rs) && Settled(UpsertAll(m, rs)[rs[i].RecordKey()], rs[i])
  {
    var n := |rs| - 1;
    if i < n {
      UpsertsSettle(m, rs[..n], i);
    }
  }

  /** `f` is `e` up to fields that either already have their final value. */
  ghost predicate Between(f: Record, e: Record, final: Record) {
    && (f.bucket, f.source, f.url) == (e.bucket, e.source, e.url)
    && (f.transport, f.role, f.enabled) == (e.transport, e.role, e.enabled)
    && (f.name == e.name || f.name == final.name)
    && (f.signerId == e.signerId || f.signerId == final.signerId)
    && (f.lastError == e.lastError || f.lastError == final.lastError)
    && (f.failureCount == e.failureCount || f.failureCount == final.failureCount)
    && (f.cooldownUntil == e.cooldownUntil || f.cooldownUntil == final.cooldownUntil)
    && (f.addedAt, f.updatedAt, f.lastSeenAt) == (final.addedAt, final.updatedAt, final.lastSeenAt)
    && (f.lastSyncOkAt, f.lastPushOkAt, f.metadata) == (final.lastSyncOkAt, final.lastPushOkAt, final.metadata)
  }

  lemma MergeStaysBetween(f: Record, m: Records, r: Record, final: Record)
    requires NoHistory(r) && Settled(final, r)
    requires f == final || (r.RecordKey() in m && Between(f, m[r.RecordKey()], final))
    ensures Between(Merge(f, r), Upserted(m, r)[r.RecordKey()], final)
  {
    assert final.metadata + r.metadata == final.metadata;
  }

  /** A second pass over some records against the first pass, once both have gone through the
      records with the keys `touched`. */
  ghost predicate SecondPass(first: Records, second: Records, final: Records, touched: set<Key>) {
    && second.Keys == final.Keys
    && forall k :: k in final ==>
      if k in touched then k in first && Between(second[k], first[k], final[k]) else second[k] == final[k]
  }

  lemma SecondPassStep(first: Records, second: Records, final: Records, touched: set<Key>, r: Record)
    requires SecondPass(first, second, final, touched)
    requires NoHistory(r) && r.RecordKey() in final && Settled(final[r.RecordKey()], r)
    ensures SecondPass(Upserted(first, r), Upserted(second, r), final, touched + {r.RecordKey()})
  {
    var key := r.RecordKey();
    MergeStaysBetween(second[key], first, r, final[key]);
    hide Merge, Between, Settled;
  }

  lemma {:induction false} SecondPassHolds(m: Records, rs: seq<Record>, n: nat)
    requires n <= |rs| && forall j :: 0 <= j < |rs| ==> NoHistory(rs[j])
    ensures SecondPass(UpsertAll(m, rs[..n]), UpsertAll(UpsertAll(m, rs), rs[..n]), UpsertAll(m, rs), KeysOf(rs[..n]))
  {
    hide SecondPass, Settled, NoHistory, Upserted, KeysOf;
    if n == 0 {
      NothingTouched(m, UpsertAll(m, rs));
    } else {
      hide UpsertAll;
      var before, r := rs[..n - 1], rs[n - 1];
      var final := UpsertAll(m, rs);
      SecondPassHolds(m, rs, n - 1);
      UpsertsSettle(m, rs, n - 1);
      SecondPassStep(UpsertAll(m, before), UpsertAll(final, before), final, KeysOf(before), r);
      assert rs[..n] == before + [r];
      UpsertOneMore(m, before, r);
      UpsertOneMore(final, before, r);
      KeysOfOneMore(before, r);
    }
  }

  lemma NothingTouched(m: Records, final: Records)
    ensures SecondPass(m, final, final, KeysOf([]))
  {
  }

  /** Upserting the same records a second time changes nothing. */
  lemma UpsertAllTwice(m: Records, rs: seq<Record>)
    requires forall j :: 0 <= j < |rs| ==> NoHistory(rs[j])
    ensures UpsertAll(UpsertAll(m, rs), rs) == UpsertAll(m, rs)
  {
    var final := UpsertAll(m, rs);
    SecondPassHolds(m, rs, |rs|);
    assert rs[..|rs|] == rs;
    assert forall k :: k in final ==> UpsertAll(final, rs)[k] == final[k];
  }

  // ---------------------------------------------------------------- the store

  function Loaded(entries: seq<Record>): Records {
    if entries == [] then map[]
    else Loaded(entries[..|entries| - 1])[entries[|entries| - 1].RecordKey() := entries[|entries| - 1]]
  }

  /** One bad entry and the whole file is dropped. */
  function Start(entries: seq<Record>): Records {
    if AllAccepted(entries) then Loaded(entries) else map[]
  }

  /** What a file loads as: of each key the last entry, and nothing at all if any entry is not
      accepted. */
  lemma {:induction false} LastEntryWins(entries: seq<Record>, i: nat)
    requires i < |entries| && forall j :: i < j < |entries| ==> entries[j].RecordKey() != entries[i].RecordKey()
    ensures AllAccepted(entries) ==>
      entries[i].RecordKey() in Start(entries) && Start(entries)[entries[i].RecordKey()] == entries[i]
    ensures !AllAccepted(entries) ==> Start(entries) == map[]
  {
    var n := |entries| - 1;
    if i < n {
      assert entries[..n][i] == entries[i];
      LastEntryWins(entries[..n], i);
      assert AllAccepted(entries) ==> AllAccepted(entries[..n]);
    } else {
      assert Loaded(entries)[entries[n].RecordKey()] == entries[n];
    }
  }

  lemma {:induction false} LoadedKeys(entries: seq<Record>, k: Key)
    ensures k in Loaded(entries) <==> k in KeysOf(entries)
  {
    if entries == [] {
      assert KeysOf(entries) == {};
    } else {
      var n := |entries| - 1;
      LoadedKeys(entries[..n], k);
      assert entries == entries[..n] + [entries[n]];
      KeysOfOneMore(entries[..n], entries[n]);
    }
  }

  lemma {:induction false} LoadedIsSound(entries: seq<Record>)
    requires AllAccepted(entries)
    ensures Sound(Loaded(entries))
  {
    if entries == [] {
    } else {
      LoadedIsSound(entries[..|entries| - 1]);
    }
  }

  class Store {
    var records: Records

    constructor ()
      ensures records == map[]
    {
      records := map[];
    }

    method Load(entries: seq<Record>) returns (ok: bool)
      modifies this
      ensures ok == AllAccepted(entries)
      ensures records == if ok then Loaded(entries) else old(records)
    {
      var loaded: Records := map[];
      for i := 0 to |entries|
        invariant loaded == Loaded(entries[..i])
        invariant AllAccepted(entries[..i])
        invariant records == old(records)
      {
        if !Accepted(entries[i]) {
          return false;
        }
        assert entries[..i + 1][..i] == entries[..i];
        loaded := loaded[entries[i].RecordKey() := entries[i]];
      }
      assert entries[..|entries|] == entries;
      records := loaded;
      return true;
    }

    /** Make a record and upsert it; a record that is not accepted raises. */
    method Upsert(r: Record) returns (ok: bool)
      modifies this
      ensures ok == Accepted(r)
      ensures records == if ok then Upserted(old(records), r) else old(records)
    {
      if !Accepted(r) {
        return false;
      }
      if r.RecordKey() !in records {
        records := records[r.RecordKey() := r];
      } else {
        records := records[r.RecordKey() := Merge(records[r.RecordKey()], r)];
      }
      return true;
    }

    function RecordsForBucket(bucket: Bucket): Records
      reads this
    {
      InBucket(records, bucket)
    }
  }

  function InBucket(m: Records, bucket: Bucket): Records {
    map k | k in m && k.bucket == bucket :: m[k]
  }
}
