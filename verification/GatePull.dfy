/** Pulling gate logs from a peer by count: `_http_gate_pull_loop` against
    `gate_peer_pull` (backend/main.py). */
module GatePull {
  import opened Basics
  import opened GateLog

  const BATCH: nat := 50

  /** The server: up to fifty events after the caller's count. */
  function ServePull(log: seq<GateEvent>, after: nat): seq<GateEvent> {
    if after >= |log| then [] else log[after..Least(after + BATCH, |log|)]
  }

  /** The puller's view of one gate: its own log, the indexes of its store, and how much of
      the peer's log it believes to know. */
  datatype View = View(log: seq<GateEvent>, seen: Seen, known: nat)

  function Cursor(v: View): nat {
    Most(v.known, |v.log|)
  }

  /** One gate's turn; `total` is the count announced by the discovery request. */
  function PullOnce(v: View, gate: string, total: nat, remote: seq<GateEvent>, ck: Checks): View {
    if Cursor(v) >= total then v
    else
      var events := ServePull(remote, Cursor(v));
      if events == [] then v.(known := total)
      else
        var r := IngestGate(v.log, v.seen, gate, events, ck);
        View(r.log, r.seen, Cursor(v) + |events|)
  }

  class GatePuller {
    var counts: map<string, nat>
    var gates: map<string, seq<GateEvent>>
    var seen: Seen

    constructor ()
      ensures counts == map[] && gates == map[] && seen == Seen({}, {})
    {
      counts, gates, seen := map[], map[], Seen({}, {});
    }

    function ViewOf(gate: string): View
      reads this
    {
      View(if gate in gates then gates[gate] else [], seen, if gate in counts then counts[gate] else 0)
    }

    method PullGate(gate: string, total: nat, remote: seq<GateEvent>, ck: Checks)
      modifies this
      ensures ViewOf(gate) == PullOnce(old(ViewOf(gate)), gate, total, remote, ck)
      ensures forall g :: g != gate ==> ViewOf(g) == old(ViewOf(g)).(seen := seen)
    {
      var localKnown := if gate in counts then counts[gate] else 0;
      var local := if gate in gates then gates[gate] else [];
      var effectiveCursor := Most(localKnown, |local|);
      if effectiveCursor >= total {
        return;
      }
      var events := ServePull(remote, effectiveCursor);
      if events == [] {
        counts := counts[gate := total];
        return;
      }
      var r := IngestGate(local, seen, gate, events, ck);
      gates := gates[gate := r.log];
      seen := r.seen;
      counts := counts[gate := effectiveCursor + |events|];
    }

    /** One round with one peer: `totals` is its discovery answer, `remote` what it holds
        when the gates are then pulled in the given order. Although the gates share their
        indexes, each is pulled as if it were alone. */
    method PullRound(gateIds: seq<string>, totals: map<string, nat>, remote: map<string, seq<GateEvent>>, ck: Checks)
      requires forall i, j :: 0 <= i < j < |gateIds| ==> gateIds[i] != gateIds[j]
      requires forall g :: g in gateIds ==> g in totals && g in remote
      modifies this
      ensures forall g :: g in gateIds ==>
        var alone := PullOnce(old(ViewOf(g)), g, totals[g], remote[g], ck);
        ViewOf(g).log == alone.log && ViewOf(g).known == alone.known
      ensures forall g :: g !in gateIds ==> ViewOf(g) == old(ViewOf(g)).(seen := seen)
    {
      hide PullOnce, ViewOf, Elsewhere;
      forall g | g in gateIds
        ensures Elsewhere(g, ck, seen, seen)
      {
        NothingElsewhere(g, seen, ck);
      }
      SeenOfViews();
      for i := 0 to |gateIds|
        invariant forall g :: g in gateIds[..i] ==>
          var alone := PullOnce(old(ViewOf(g)), g, totals[g], remote[g], ck);
          ViewOf(g).log == alone.log && ViewOf(g).known == alone.known
        invariant forall g :: g !in gateIds[..i] ==> ViewOf(g) == old(ViewOf(g)).(seen := seen)
        invariant forall g :: g in gateIds[i..] ==> Elsewhere(g, ck, old(seen), seen)
      {
        assert gateIds[..i + 1] == gateIds[..i] + [gateIds[i]];
        assert gateIds[i..] == [gateIds[i]] + gateIds[i + 1..];
        var gate := gateIds[i];
        ghost var before, was := ViewOf(gate), old(ViewOf(gate));
        PullElsewhere(was, seen, gate, totals[gate], remote[gate], ck);
        forall g | g in gateIds[i + 1..]
          ensures Elsewhere(g, ck, old(seen), PullOnce(before, gate, totals[gate], remote[gate], ck).seen)
        {
          PullUndisturbed(before, old(seen), gate, g, totals[gate], remote[gate], ck);
        }
        PullGate(gate, totals[gate], remote[gate], ck);
        SeenOfViews();
      }
    }

    lemma SeenOfViews()
      ensures forall g :: ViewOf(g).seen == seen
    {
    }
  }

  lemma PullElsewhere(v: View, more: Seen, gate: string, total: nat, remote: seq<GateEvent>, ck: Checks)
    requires Elsewhere(gate, ck, v.seen, more)
    ensures var a, b := PullOnce(v, gate, total, remote, ck), PullOnce(v.(seen := more), gate, total, remote, ck);
      a.log == b.log && a.known == b.known
  {
    SeenElsewhere(v.log, v.seen, more, gate, ServePull(remote, Cursor(v)), ck);
  }

  lemma PullUndisturbed(v: View, start: Seen, gate: string, other: string, total: nat, remote: seq<GateEvent>,
                        ck: Checks)
    requires gate != other && Elsewhere(other, ck, start, v.seen)
    ensures Elsewhere(other, ck, start, PullOnce(v, gate, total, remote, ck).seen)
  {
    OthersUndisturbed(v.log, start, v.seen, gate, other, ServePull(remote, Cursor(v)), ck);
  }

  /** One gate's turn, by what the peer announced and what it then serves: nothing happens
      unless more is announced than the cursor has passed; an answer without events makes the
      puller believe the announcement; otherwise it passes the next fifty events. */
  lemma PullByAnswer(v: View, gate: string, total: nat, remote: seq<GateEvent>, ck: Checks)
    ensures var cursor := if v.known < |v.log| then |v.log| else v.known;
      var after := PullOnce(v, gate, total, remote, ck);
      && (cursor >= total ==> after == v)
      && (cursor < total && cursor >= |remote| ==> after == v.(known := total))
      && (cursor < total && cursor < |remote| ==>
            var to := if cursor + 50 < |remote| then cursor + 50 else |remote|;
            var r := IngestGate(v.log, v.seen, gate, remote[cursor..to], ck);
            after == View(r.log, r.seen, to))
  {
  }

  /** The cursor never moves back, whatever the peer announces and serves. */
  lemma CursorNeverMovesBack(v: View, gate: string, total: nat, remote: seq<GateEvent>, ck: Checks)
    ensures v.known <= PullOnce(v, gate, total, remote, ck).known
  {
  }

  // ---------------------------------------------------------------- one pull

  /** Of the peer's events, the puller's store has only seen those in this log. */
  ghost predicate Compatible(log: seq<GateEvent>, seen: Seen, gate: string, remote: seq<GateEvent>) {
    forall x :: x in remote && Knows(seen, gate, x) ==> x in log
  }

  ghost predicate Ready(v: View) {
    Proper(v.log) && Indexed(v.log, v.seen)
  }

  /** The events of a stretch that the ingest takes. */
  ghost function GoodOf(events: seq<GateEvent>, gate: string, ck: Checks): set<GateEvent> {
    set x | x in events && Good(ck, gate, x)
  }

  lemma GoodOfSum(a: seq<GateEvent>, b: seq<GateEvent>, gate: string, ck: Checks)
    ensures GoodOf(a + b, gate, ck) == GoodOf(a, gate, ck) + GoodOf(b, gate, ck)
  {
  }

  lemma GoodOfNone(gate: string, ck: Checks)
    ensures GoodOf([], gate, ck) == {}
  {
  }

  /** A batch of the peer's events adds exactly those that the ingest takes; the others are
      refused, without a trace. */
  lemma {:induction false} IngestFromPeer(v: View, gate: string, remote: seq<GateEvent>, events: seq<GateEvent>,
                                          ck: Checks)
    requires Ready(v) && Honest(remote, gate) && Compatible(v.log, v.seen, gate, remote)
    requires forall x :: x in events ==> x in remote
    ensures var r := IngestGate(v.log, v.seen, gate, events, ck);
      && Proper(r.log) && Indexed(r.log, r.seen) && Compatible(r.log, r.seen, gate, remote)
      && |r.log| <= |v.log| + |events|
      && Elements(r.log) == Elements(v.log) + GoodOf(events, gate, ck)
  {
    if events == [] {
      GoodOfNone(gate, ck);
    } else {
      var n := |events| - 1;
      var e, before := events[n], IngestGate(v.log, v.seen, gate, events[..n], ck);
      IngestFromPeer(v, gate, remote, events[..n], ck);
      assert events == events[..n] + [e];
      GoodOfSum(events[..n], [e], gate, ck);
      GoodOfOne(e, gate, ck);
      hide Elements, GoodOf;
      if !Good(ck, gate, e) {
        assert IngestGate(v.log, v.seen, gate, events, ck).log == before.log;
      } else if !Knows(before.seen, gate, e) {
        InsertFromPeer(before.log, before.seen, gate, remote, e);
      } else {
        KnownElement(before.log, e);
      }
    }
  }

  lemma GoodOfOne(e: GateEvent, gate: string, ck: Checks)
    ensures GoodOf([e], gate, ck) == if Good(ck, gate, e) then {e} else {}
  {
  }

  lemma KnownElement(log: seq<GateEvent>, e: GateEvent)
    requires e in log
    ensures Elements(log) + {e} == Elements(log)
  {
  }

  lemma InsertFromPeer(log: seq<GateEvent>, seen: Seen, gate: string, remote: seq<GateEvent>, e: GateEvent)
    requires Proper(log) && Indexed(log, seen) && !Knows(seen, gate, e) && e in remote
    requires Honest(remote, gate) && Compatible(log, seen, gate, remote)
    ensures var longer, more := Insert(log, e), Remember(seen, gate, e);
      && Proper(longer) && Indexed(longer, more) && Compatible(longer, more, gate, remote)
      && Elements(longer) == Elements(log) + {e}
  {
    InsertKeepsOrder(log, e);
    forall x
      ensures x in Insert(log, e) <==> x == e || x in log
    {
      InsertElements(log, e, x);
    }
    forall x | x in remote && Knows(Remember(seen, gate, e), gate, x)
      ensures x in Insert(log, e)
    {
      SameOrUnknown(seen, gate, remote, e, x);
    }
  }

  lemma PullStep(v: View, gate: string, remote: seq<GateEvent>, ck: Checks)
    requires Ready(v) && Honest(remote, gate) && Compatible(v.log, v.seen, gate, remote)
    ensures var after := PullOnce(v, gate, |remote|, remote, ck);
      && Ready(after) && Compatible(after.log, after.seen, gate, remote)
      && Cursor(after) == (if Cursor(v) < |remote| then Least(Cursor(v) + 50, |remote|) else Cursor(v))
      && Elements(after.log) == Elements(v.log) + GoodOf(ServePull(remote, Cursor(v)), gate, ck)
  {
    var events := ServePull(remote, Cursor(v));
    if Cursor(v) < |remote| {
      forall x | x in events
        ensures x in remote
      {
        var i :| 0 <= i < |events| && events[i] == x;
        assert remote[Cursor(v) + i] == x;
      }
      IngestFromPeer(v, gate, remote, events, ck);
    } else {
      GoodOfNone(gate, ck);
    }
  }

  // ---------------------------------------------------------------- a peer that holds still

  function Pulls(v: View, gate: string, remote: seq<GateEvent>, ck: Checks, rounds: nat): View {
    if rounds == 0 then v else PullOnce(Pulls(v, gate, remote, ck, rounds - 1), gate, |remote|, remote, ck)
  }

  /** The peer's events from the puller's first cursor on, as far as `rounds` batches reach. */
  function Reach(v: View, total: nat, rounds: nat): (r: nat)
    ensures Least(Cursor(v), total) <= r <= total
  {
    Most(Least(Cursor(v), total), Least(Cursor(v) + rounds * BATCH, total))
  }

  /** After `rounds` rounds the puller holds what it had and, of that stretch, what its
      ingest takes; nothing else. The cursor has passed all of it. */
  lemma {:induction false} PullsCollectFromTheCursor(v: View, gate: string, remote: seq<GateEvent>, ck: Checks,
      rounds: nat)
    requires Ready(v) && Honest(remote, gate) && Compatible(v.log, v.seen, gate, remote)
    ensures var after := Pulls(v, gate, remote, ck, rounds);
      var reach := Reach(v, |remote|, rounds);
      && Ready(after) && Compatible(after.log, after.seen, gate, remote)
      && Cursor(after) == Most(Cursor(v), reach)
      && Elements(after.log) == Elements(v.log) + GoodOf(remote[Least(Cursor(v), |remote|)..reach], gate, ck)
  {
    hide PullOnce, Compatible, Ready, Honest, Elements, Cursor, GoodOf;
    var start := Least(Cursor(v), |remote|);
    GoodOfNone(gate, ck);
    if rounds == 0 {
      assert remote[start..start] == [];
    } else {
      PullsCollectFromTheCursor(v, gate, remote, ck, rounds - 1);
      var before := Pulls(v, gate, remote, ck, rounds - 1);
      PullStep(before, gate, remote, ck);
      var was := Reach(v, |remote|, rounds - 1);
      var reach := Reach(v, |remote|, rounds);
      assert remote[start..reach] == remote[start..was] + remote[was..reach];
      GoodOfSum(remote[start..was], remote[was..reach], gate, ck);
      assert ServePull(remote, Cursor(before)) == remote[was..reach];
    }
  }

  /** The part of a stretch that the ingest takes, in order. */
  function Taken(events: seq<GateEvent>, gate: string, ck: Checks): seq<GateEvent> {
    if events == [] then []
    else
      var e := events[|events| - 1];
      Taken(events[..|events| - 1], gate, ck) + if Good(ck, gate, e) then [e] else []
  }

  lemma {:induction false} TakenElements(events: seq<GateEvent>, gate: string, ck: Checks)
    ensures Elements(Taken(events, gate, ck)) == GoodOf(events, gate, ck)
  {
    if events == [] {
      GoodOfNone(gate, ck);
    } else {
      var n := |events| - 1;
      TakenElements(events[..n], gate, ck);
      assert events == events[..n] + [events[n]];
      GoodOfSum(events[..n], [events[n]], gate, ck);
      GoodOfOne(events[n], gate, ck);
      ElementsOfSum(Taken(events[..n], gate, ck), if Good(ck, gate, events[n]) then [events[n]] else []);
      ElementsOfOne(events[n]);
      hide Elements, GoodOf, Good;
    }
  }

  lemma ElementsOfOne(e: GateEvent)
    ensures Elements([e]) == {e} && Elements([]) == {}
  {
  }

  /** The ingest takes every event of a stretch. */
  ghost predicate AllGood(events: seq<GateEvent>, gate: string, ck: Checks) {
    forall x :: x in events ==> Good(ck, gate, x)
  }

  lemma {:induction false} AllTaken(events: seq<GateEvent>, gate: string, ck: Checks)
    ensures |Taken(events, gate, ck)| <= |events|
    ensures Taken(events, gate, ck) == events <==> AllGood(events, gate, ck)
  {
    if events == [] {
      assert Taken(events, gate, ck) == [];
    } else {
      var n := |events| - 1;
      AllTaken(events[..n], gate, ck);
      assert events == events[..n] + [events[n]];
      hide Good;
    }
  }

  /** A prefix of a sorted log and what is taken of the rest are sorted together. */
  lemma {:induction false} TakenKeepsOrder(log: seq<GateEvent>, rest: seq<GateEvent>, gate: string, ck: Checks)
    requires Sorted(log + rest)
    ensures Sorted(log + Taken(rest, gate, ck))
  {
    if rest == [] {
      assert Taken(rest, gate, ck) == [];
    } else {
      var n := |rest| - 1;
      var before, last := Taken(rest[..n], gate, ck), rest[n];
      assert log + rest[..n] == (log + rest)[..|log| + n];
      TakenKeepsOrder(log, rest[..n], gate, ck);
      if Good(ck, gate, last) {
        forall x | x in log + before
          ensures Before(x, last)
        {
          BeforeLast(log, rest, gate, ck, x);
        }
        AppendKeepsOrder(log + before, last);
        assert log + Taken(rest, gate, ck) == log + before + [last];
      } else {
        assert Taken(rest, gate, ck) == before;
      }
    }
  }

  lemma AppendKeepsOrder(log: seq<GateEvent>, last: GateEvent)
    requires Sorted(log) && forall x :: x in log ==> Before(x, last)
    ensures Sorted(log + [last])
  {
  }

  lemma BeforeLast(log: seq<GateEvent>, rest: seq<GateEvent>, gate: string, ck: Checks, x: GateEvent)
    requires rest != [] && Sorted(log + rest) && x in log + Taken(rest[..|rest| - 1], gate, ck)
    ensures Before(x, rest[|rest| - 1])
  {
    var all, n := log + rest, |rest| - 1;
    TakenElements(rest[..n], gate, ck);
    assert all[|log| + n] == rest[n];
    if x in log {
      var i :| 0 <= i < |log| && log[i] == x;
      assert all[i] == x;
    } else {
      assert x in Elements(Taken(rest[..n], gate, ck));
      var i :| 0 <= i < n && rest[..n][i] == x;
      assert all[|log| + i] == x;
    }
  }

  lemma PrefixPullsTake(v: View, gate: string, remote: seq<GateEvent>, ck: Checks, rounds: nat)
    requires Sorted(remote) && Honest(remote, gate) && v.log <= remote && v.known <= |v.log|
    requires Indexed(v.log, v.seen) && Compatible(v.log, v.seen, gate, remote)
    ensures Pulls(v, gate, remote, ck, rounds).log
         == v.log + Taken(remote[|v.log|..Least(|v.log| + rounds * BATCH, |remote|)], gate, ck)
  {
    PrefixIsProper(v.log, remote);
    PullsCollectFromTheCursor(v, gate, remote, ck, rounds);
    ReachOfPrefix(v, |remote|, rounds);
    hide Pulls, DistinctIds, Compatible, Elements, GoodOf, Taken, Good, Honest, Sorted, Reach, Cursor;
    TakenFromPrefix(v.log, remote, Pulls(v, gate, remote, ck, rounds).log, Reach(v, |remote|, rounds), gate, ck);
  }

  lemma ReachOfPrefix(v: View, total: nat, rounds: nat)
    requires v.known <= |v.log| <= total
    ensures Cursor(v) == |v.log| && Least(Cursor(v), total) == |v.log|
    ensures Reach(v, total, rounds) == Least(|v.log| + rounds * BATCH, total) >= |v.log|
  {
  }

  lemma PrefixPullsAll(v: View, gate: string, remote: seq<GateEvent>, ck: Checks, rounds: nat)
    requires Sorted(remote) && Honest(remote, gate) && v.log <= remote && v.known <= |v.log|
    requires Indexed(v.log, v.seen) && Compatible(v.log, v.seen, gate, remote)
    requires |v.log| + rounds * BATCH >= |remote|
    ensures Pulls(v, gate, remote, ck, rounds).log == v.log + Taken(remote[|v.log|..], gate, ck)
    ensures Pulls(v, gate, remote, ck, rounds).log == remote <==> AllGood(remote[|v.log|..], gate, ck)
  {
    hide Pulls, Taken, AllGood, Honest, Sorted, Compatible, Indexed;
    PrefixPullsTake(v, gate, remote, ck, rounds);
    TakesItAll(v.log, remote, gate, ck);
    assert remote[|v.log|..|remote|] == remote[|v.log|..];
  }

  lemma CeilReaches(missing: nat, rounds: nat)
    requires rounds >= (missing + BATCH - 1) / BATCH
    ensures rounds * BATCH >= missing
  {
  }

  /** Convergence: a puller whose log is a prefix of the peer's passes exactly the next fifty
      events a round and keeps those its ingest takes; after ceil(missing / 50) rounds it
      has passed all of them, and it holds the peer's log exactly if it takes them all. */
  lemma PrefixPullsConverge(v: View, gate: string, remote: seq<GateEvent>, ck: Checks, rounds: nat)
    requires Sorted(remote) && Honest(remote, gate) && v.log <= remote && v.known <= |v.log|
    requires Indexed(v.log, v.seen) && Compatible(v.log, v.seen, gate, remote)
    ensures Pulls(v, gate, remote, ck, rounds).log
         == v.log + Taken(remote[|v.log|..Least(|v.log| + rounds * 50, |remote|)], gate, ck)
    ensures rounds >= (|remote| - |v.log| + 50 - 1) / 50 ==>
      && Pulls(v, gate, remote, ck, rounds).log == v.log + Taken(remote[|v.log|..], gate, ck)
      && (Pulls(v, gate, remote, ck, rounds).log == remote <==>
            AllGood(remote[|v.log|..], gate, ck))
  {
    hide Pulls, Taken, AllGood, Honest, Sorted, Compatible, Indexed;
    PrefixPullsTake(v, gate, remote, ck, rounds);
    if rounds >= (|remote| - |v.log| + BATCH - 1) / BATCH {
      CeilReaches(|remote| - |v.log|, rounds);
      PrefixPullsAll(v, gate, remote, ck, rounds);
    }
  }

  lemma TakesItAll(log: seq<GateEvent>, remote: seq<GateEvent>, gate: string, ck: Checks)
    requires log <= remote
    ensures log + Taken(remote[|log|..], gate, ck) == remote <==> AllGood(remote[|log|..], gate, ck)
  {
    var rest := remote[|log|..];
    AllTaken(rest, gate, ck);
    hide Taken, AllGood;
    assert log + rest == remote && (log + Taken(rest, gate, ck))[|log|..] == Taken(rest, gate, ck);
  }

  lemma TakenFromPrefix(log: seq<GateEvent>, remote: seq<GateEvent>, after: seq<GateEvent>, reach: nat, gate: string,
                        ck: Checks)
    requires log <= remote && |log| <= reach <= |remote| && Sorted(remote) && Sorted(after)
    requires Elements(after) == Elements(log) + GoodOf(remote[|log|..reach], gate, ck)
    ensures after == log + Taken(remote[|log|..reach], gate, ck)
  {
    var rest := remote[|log|..reach];
    assert log + rest == remote[..reach];
    TakenKeepsOrder(log, rest, gate, ck);
    TakenElements(rest, gate, ck);
    ElementsOfSum(log, Taken(rest, gate, ck));
    SameElementsSameLog(after, log + Taken(rest, gate, ck));
  }

  lemma PrefixIsProper(log: seq<GateEvent>, remote: seq<GateEvent>)
    requires Proper(remote) && log <= remote
    ensures Proper(log)
  {
  }

  lemma SameElementsSameLog(a: seq<GateEvent>, b: seq<GateEvent>)
    requires Sorted(a) && Sorted(b) && Elements(a) == Elements(b)
    ensures a == b
  {
    forall x
      ensures x in a <==> x in b
    {
      assert x in Elements(a) <==> x in Elements(b);
    }
    SortedIsUnique(a, b);
  }

  /** What is needed for the whole peer log: pulling until nothing is left brings it over
      exactly when the events before the first cursor were already held, and every later one
      is held or taken by the ingest. */
  lemma PullsGetEverythingExactlyWhen(v: View, gate: string, remote: seq<GateEvent>, ck: Checks, rounds: nat)
    requires Ready(v) && Honest(remote, gate) && Compatible(v.log, v.seen, gate, remote)
    requires Cursor(v) + rounds * 50 >= |remote|
    ensures var start := Least(Cursor(v), |remote|);
      Elements(remote) <= Elements(Pulls(v, gate, remote, ck, rounds).log) <==>
        Elements(remote[..start]) <= Elements(v.log) && HeldOrGood(v.log, remote[start..], gate, ck)
  {
    var start := Least(Cursor(v), |remote|);
    PullsCollectFromTheCursor(v, gate, remote, ck, rounds);
    ReachesTheEnd(v, remote, rounds);
    HalvesAreDisjoint(remote, start);
    hide Pulls, Good, Cursor, Honest, Ready, Compatible, Elements, GoodOf, HeldOrGood, Reach;
    LaterHalf(v.log, remote[start..], gate, ck);
    GoodOfSome(remote[start..], gate, ck);
    var later := remote[start..];
    SplitInclusion(Elements(remote[..start]), Elements(later), Elements(v.log), GoodOf(later, gate, ck));
  }

  /** Every event of a stretch is held already or taken by the ingest. */
  ghost predicate HeldOrGood(log: seq<GateEvent>, events: seq<GateEvent>, gate: string, ck: Checks) {
    forall x :: x in events ==> x in log || Good(ck, gate, x)
  }

  lemma ReachesTheEnd(v: View, remote: seq<GateEvent>, rounds: nat)
    requires Cursor(v) + rounds * BATCH >= |remote|
    ensures var start := Least(Cursor(v), |remote|);
      Reach(v, |remote|, rounds) == |remote| && remote[start..Reach(v, |remote|, rounds)] == remote[start..]
  {
  }

  lemma GoodOfSome(events: seq<GateEvent>, gate: string, ck: Checks)
    ensures GoodOf(events, gate, ck) <= Elements(events)
  {
  }

  lemma SplitInclusion<T>(a: set<T>, b: set<T>, held: set<T>, taken: set<T>)
    requires a !! b && taken <= b
    ensures a + b <= held + taken <==> a <= held && b <= held + taken
  {
  }

  lemma LaterHalf(log: seq<GateEvent>, later: seq<GateEvent>, gate: string, ck: Checks)
    ensures Elements(later) <= Elements(log) + GoodOf(later, gate, ck) <==> HeldOrGood(log, later, gate, ck)
  {
    assert forall x :: x in later ==> x in Elements(later);
  }

  lemma HalvesAreDisjoint(log: seq<GateEvent>, k: nat)
    requires DistinctIds(log) && k <= |log|
    ensures Elements(log[..k]) !! Elements(log[k..])
    ensures Elements(log) == Elements(log[..k]) + Elements(log[k..])
  {
    assert log == log[..k] + log[k..];
    ElementsOfSum(log[..k], log[k..]);
  }

  // ---------------------------------------------------------------- runs

  /** A puller and a peer whose logs both go on growing. */
  datatype Duo = Duo(view: View, remote: seq<GateEvent>)

  /** A pull is judged by the ingest's tests of that moment, so they belong to the step.
      `RemoteArrive` is an event that reaches the peer, `LocalArrive` one that reaches the
      puller by another way, `Restart` a puller that comes back without its counts. */
  datatype Step = RemoteArrive(event: GateEvent) | LocalArrive(event: GateEvent) | Pull(ck: Checks) | Restart

  /** An event that the puller's store knows already changes nothing there. */
  function Apply(s: Duo, gate: string, step: Step): Duo {
    match step
    case RemoteArrive(e) => s.(remote := Insert(s.remote, e))
    case LocalArrive(e) =>
      if Knows(s.view.seen, gate, e) then s
      else s.(view := View(Insert(s.view.log, e), Remember(s.view.seen, gate, e), s.view.known))
    case Pull(ck) => s.(view := PullOnce(s.view, gate, |s.remote|, s.remote, ck))
    case Restart => s.(view := s.view.(known := 0))
  }

  function Exec(s: Duo, gate: string, steps: seq<Step>): Duo {
    if steps == [] then s else Apply(Exec(s, gate, steps[..|steps| - 1]), gate, steps[|steps| - 1])
  }

  /** An event is new to the peer when it arrives there. Nothing is asked of the puller, which
      may know it, under this or another id, or refuse it. */
  ghost predicate Fits(s: Duo, gate: string, step: Step) {
    step.RemoteArrive? ==> NewIn(s.remote, gate, step.event)
  }

  ghost predicate AllFit(s: Duo, gate: string, steps: seq<Step>) {
    steps != [] ==>
      var n := |steps| - 1;
      AllFit(s, gate, steps[..n]) && Fits(Exec(s, gate, steps[..n]), gate, steps[n])
  }

  ghost predicate Inv(s: Duo, gate: string) {
    Ready(s.view) && Sorted(s.remote) && Honest(s.remote, gate)
  }

  /** Everything of the peer's log below the cursor is known to the puller's store. */
  ghost predicate Complete(s: Duo, gate: string) {
    forall i :: 0 <= i < Cursor(s.view) && i < |s.remote| ==> Knows(s.view.seen, gate, s.remote[i])
  }

  /** A step that leaves an event behind: one that reaches the peer below the cursor, one that
      reaches the puller from elsewhere and moves its count past an event it does not know, or
      a pull of an event that the puller does not know and its ingest refuses. */
  ghost predicate Skips(s: Duo, gate: string, step: Step) {
    match step
    case RemoteArrive(e) => Place(s.remote, e) < Cursor(s.view) && !Knows(s.view.seen, gate, e)
    case LocalArrive(e) =>
      var next := |s.view.log|;
      && !Knows(s.view.seen, gate, e) && s.view.known <= next < |s.remote|
      && !Knows(Remember(s.view.seen, gate, e), gate, s.remote[next])
    case Pull(ck) =>
      exists x :: x in ServePull(s.remote, Cursor(s.view)) && !Good(ck, gate, x) && !Knows(s.view.seen, gate, x)
    case Restart => false
  }

  lemma StepKeepsInv(s: Duo, gate: string, step: Step)
    requires Inv(s, gate) && Fits(s, gate, step)
    ensures Inv(Apply(s, gate, step), gate)
  {
    match step
    case RemoteArrive(e) => InsertStaysHonest(s.remote, gate, e);
    case LocalArrive(e) => LocalKeepsInv(s, gate, e);
    case Pull(ck) => IngestGateEffect(s.view.log, s.view.seen, gate, ServePull(s.remote, Cursor(s.view)), ck);
    case Restart =>
  }

  lemma LocalKeepsInv(s: Duo, gate: string, e: GateEvent)
    requires Inv(s, gate)
    ensures Inv(Apply(s, gate, LocalArrive(e)), gate)
  {
    if !Knows(s.view.seen, gate, e) {
      InsertKeepsOrder(s.view.log, e);
      forall x
        ensures x in Insert(s.view.log, e) <==> x == e || x in s.view.log
      {
        InsertElements(s.view.log, e, x);
      }
    }
  }

  lemma RemoteStep(s: Duo, gate: string, e: GateEvent)
    requires Complete(s, gate)
    ensures Complete(Apply(s, gate, RemoteArrive(e)), gate) <==> !Skips(s, gate, RemoteArrive(e))
  {
    hide Knows;
    var p, longer := Place(s.remote, e), Insert(s.remote, e);
    assert longer[p] == e;
  }

  lemma LocalStep(s: Duo, gate: string, e: GateEvent)
    requires Complete(s, gate)
    ensures Complete(Apply(s, gate, LocalArrive(e)), gate) <==> !Skips(s, gate, LocalArrive(e))
  {
    assert forall x :: Knows(s.view.seen, gate, x) ==> Knows(Remember(s.view.seen, gate, e), gate, x);
    hide Knows, Remember;
  }

  lemma PullComplete(s: Duo, gate: string, ck: Checks)
    requires Inv(s, gate) && Complete(s, gate)
    ensures Complete(Apply(s, gate, Pull(ck)), gate) <==> !Skips(s, gate, Pull(ck))
  {
    var v, cursor, batch := s.view, Cursor(s.view), ServePull(s.remote, Cursor(s.view));
    var after := PullOnce(v, gate, |s.remote|, s.remote, ck);
    BatchByPosition(s.remote, cursor);
    PullMovesCursor(v, gate, s.remote, ck);
    forall x | x in s.remote
      ensures Knows(after.seen, gate, x) <==> Knows(v.seen, gate, x) || (x in batch && Good(ck, gate, x))
    {
      KnownAfterPull(v, gate, s.remote, ck, x);
    }
    PositionsDecide(s.remote, v.seen, after.seen, batch, cursor, Cursor(after), gate, ck);
    hide PullOnce, Good, ServePull, Knows, Ready, Honest, Sorted, Cursor;
  }

  lemma KnownAfterPull(v: View, gate: string, remote: seq<GateEvent>, ck: Checks, x: GateEvent)
    requires Honest(remote, gate) && x in remote
    ensures Knows(PullOnce(v, gate, |remote|, remote, ck).seen, gate, x) <==>
            Knows(v.seen, gate, x) || (x in ServePull(remote, Cursor(v)) && Good(ck, gate, x))
  {
    var batch := ServePull(remote, Cursor(v));
    BatchIsServed(remote, Cursor(v));
    KnownAfterIngest(v.log, v.seen, gate, remote, batch, ck, x);
    hide Knows, Good, IngestGate, Honest;
  }

  lemma BatchIsServed(remote: seq<GateEvent>, cursor: nat)
    ensures forall y :: y in ServePull(remote, cursor) ==> y in remote
  {
    BatchByPosition(remote, cursor);
  }

  lemma PullMovesCursor(v: View, gate: string, remote: seq<GateEvent>, ck: Checks)
    requires Honest(remote, gate)
    ensures Cursor(PullOnce(v, gate, |remote|, remote, ck))
         == (if Cursor(v) < |remote| then Least(Cursor(v) + 50, |remote|) else Cursor(v))
  {
    if Cursor(v) < |remote| {
      BatchIsServed(remote, Cursor(v));
      KnownAfterIngest(v.log, v.seen, gate, remote, ServePull(remote, Cursor(v)), ck, remote[0]);
    }
  }

  /** Whether everything below the new cursor is known is decided by the batch. */
  lemma PositionsDecide(remote: seq<GateEvent>, before: Seen, after: Seen, batch: seq<GateEvent>,
                        cursor: nat, end: nat, gate: string, ck: Checks)
    requires cursor <= end
    requires forall i :: 0 <= i < cursor && i < |remote| ==> Knows(before, gate, remote[i])
    requires forall x :: x in remote ==>
      (Knows(after, gate, x) <==> Knows(before, gate, x) || (x in batch && Good(ck, gate, x)))
    requires forall x :: x in batch ==> exists i :: cursor <= i < end && i < |remote| && remote[i] == x
    requires forall i :: cursor <= i < end && i < |remote| ==> remote[i] in batch
    ensures (forall i :: 0 <= i < end && i < |remote| ==> Knows(after, gate, remote[i])) <==>
            !exists x :: x in batch && !Good(ck, gate, x) && !Knows(before, gate, x)
  {
    hide Good, Knows;
    if x :| x in batch && !Good(ck, gate, x) && !Knows(before, gate, x) {
      var i :| cursor <= i < end && i < |remote| && remote[i] == x;
      assert !Knows(after, gate, remote[i]);
    }
    assert forall i :: 0 <= i < |remote| ==> remote[i] in remote;
  }

  lemma BatchByPosition(remote: seq<GateEvent>, cursor: nat)
    ensures var end := if cursor < |remote| then Least(cursor + BATCH, |remote|) else cursor;
      && (forall x :: x in ServePull(remote, cursor) ==>
            exists i :: cursor <= i < end && i < |remote| && remote[i] == x)
      && (forall i :: cursor <= i < end && i < |remote| ==> remote[i] in ServePull(remote, cursor))
  {
    var batch := ServePull(remote, cursor);
    if cursor < |remote| {
      assert forall i :: 0 <= i < |batch| ==> batch[i] == remote[cursor + i];
      assert forall i :: cursor <= i < cursor + |batch| ==> remote[i] == batch[i - cursor];
    }
  }

  /** At every moment of the run everything below the cursor is known. */
  ghost predicate AlwaysComplete(s: Duo, gate: string, steps: seq<Step>) {
    steps != [] ==> AlwaysComplete(s, gate, steps[..|steps| - 1]) && Complete(Exec(s, gate, steps), gate)
  }

  ghost predicate HasSkip(s: Duo, gate: string, steps: seq<Step>) {
    steps != [] &&
    var n := |steps| - 1;
    HasSkip(s, gate, steps[..n]) || Skips(Exec(s, gate, steps[..n]), gate, steps[n])
  }

  /** Over every run of arrivals on both sides, pulls with any tests and restarts: nothing
      below the cursor is ever unknown exactly when no step skips. */
  lemma {:induction false} CompleteExactlyWithoutSkip(s: Duo, gate: string, steps: seq<Step>)
    requires Inv(s, gate) && Complete(s, gate) && AllFit(s, gate, steps)
    ensures Inv(Exec(s, gate, steps), gate)
    ensures AlwaysComplete(s, gate, steps) <==> !HasSkip(s, gate, steps)
    ensures AlwaysComplete(s, gate, steps) ==> Complete(Exec(s, gate, steps), gate)
  {
    hide Inv, Complete, Apply, Fits, Skips;
    if steps == [] {
      assert Exec(s, gate, steps) == s;
    } else {
      var n := |steps| - 1;
      CompleteExactlyWithoutSkip(s, gate, steps[..n]);
      var before := Exec(s, gate, steps[..n]);
      StepKeepsInv(before, gate, steps[n]);
      if Complete(before, gate) {
        StepComplete(before, gate, steps[n]);
      }
    }
  }

  lemma StepComplete(s: Duo, gate: string, step: Step)
    requires Inv(s, gate) && Complete(s, gate)
    ensures Complete(Apply(s, gate, step), gate) <==> !Skips(s, gate, step)
  {
    match step
    case RemoteArrive(e) => RemoteStep(s, gate, e);
    case LocalArrive(e) => LocalStep(s, gate, e);
    case Pull(ck) => PullComplete(s, gate, ck);
    case Restart =>
  }

  /** What a number of pulls makes known, position by position. */
  lemma {:induction false} PullsMakeKnown(v: View, gate: string, remote: seq<GateEvent>, ck: Checks, rounds: nat,
                                          i: nat)
    requires Honest(remote, gate) && i < |remote|
    ensures var after, reach := Pulls(v, gate, remote, ck, rounds), Reach(v, |remote|, rounds);
      && Cursor(after) == Most(Cursor(v), reach)
      && (Knows(after.seen, gate, remote[i]) <==>
            Knows(v.seen, gate, remote[i]) || (Cursor(v) <= i < reach && Good(ck, gate, remote[i])))
  {
    hide PullOnce, Knows, Good, Honest, Cursor;
    if rounds == 0 {
      assert Pulls(v, gate, remote, ck, rounds) == v;
    } else {
      PullsMakeKnown(v, gate, remote, ck, rounds - 1, i);
      var before := Pulls(v, gate, remote, ck, rounds - 1);
      KnownAfterPull(before, gate, remote, ck, remote[i]);
      PullMovesCursor(before, gate, remote, ck);
      ServedPosition(remote, gate, Cursor(before), i);
    }
  }

  lemma ServedPosition(remote: seq<GateEvent>, gate: string, cursor: nat, i: nat)
    requires Honest(remote, gate) && i < |remote|
    ensures remote[i] in ServePull(remote, cursor) <==> cursor <= i < cursor + BATCH
  {
    BatchByPosition(remote, cursor);
  }

  /** After any such run, pulling until nothing is left makes the whole peer log known exactly
      when nothing below the cursor is unknown, and every event above it is known or taken by
      the ingest. */
  lemma PullsFinishExactlyWhenComplete(s: Duo, gate: string, ck: Checks, rounds: nat)
    requires Inv(s, gate) && Cursor(s.view) + rounds * 50 >= |s.remote|
    ensures var after := Pulls(s.view, gate, s.remote, ck, rounds);
      (forall i :: 0 <= i < |s.remote| ==> Knows(after.seen, gate, s.remote[i])) <==>
        && Complete(s, gate)
        && forall i :: Cursor(s.view) <= i < |s.remote| ==>
             Knows(s.view.seen, gate, s.remote[i]) || Good(ck, gate, s.remote[i])
  {
    hide Pulls, Good, Knows, Inv;
    var after := Pulls(s.view, gate, s.remote, ck, rounds);
    forall i | 0 <= i < |s.remote|
      ensures Knows(after.seen, gate, s.remote[i]) <==>
        Knows(s.view.seen, gate, s.remote[i]) || (Cursor(s.view) <= i && Good(ck, gate, s.remote[i]))
    {
      assert Honest(s.remote, gate) by { InvIsHonest(s, gate); }
      PullsMakeKnown(s.view, gate, s.remote, ck, rounds, i);
    }
  }

  lemma InvIsHonest(s: Duo, gate: string)
    requires Inv(s, gate)
    ensures Honest(s.remote, gate)
  {
  }

  /** Where the puller knows of the peer's events only those it holds, known is held. */
  lemma KnownIsHeld(s: Duo, gate: string)
    requires Inv(s, gate) && Compatible(s.view.log, s.view.seen, gate, s.remote)
    ensures forall x :: x in s.remote ==> (Knows(s.view.seen, gate, x) <==> x in s.view.log)
  {
  }

  /** A run that skips: the peer gets an event older than the one that was pulled, and no
      later pull brings it over. */
  lemma LateArrivalIsNeverPulled(late: GateEvent, early: GateEvent, gate: string, ck: Checks, rounds: nat)
    requires Before(early, late) && early.eventId != late.eventId && PrintOf(gate, early) != PrintOf(gate, late)
    requires Good(ck, gate, late)
    ensures var s := Exec(Duo(View([], Seen({}, {}), 0), [late]), gate, [Pull(ck), RemoteArrive(early)]);
      s.remote == [early, late] && early !in Pulls(s.view, gate, s.remote, ck, rounds).log
  {
    var held := View([late], Remember(Seen({}, {}), gate, late), 1);
    PulledThenLate(late, early, gate, ck);
    hide Exec, Pulls;
    OnlyHeldOrLater(held, gate, late, early, ck, rounds);
  }

  lemma PulledThenLate(late: GateEvent, early: GateEvent, gate: string, ck: Checks)
    requires Before(early, late) && Good(ck, gate, late)
    ensures Exec(Duo(View([], Seen({}, {}), 0), [late]), gate, [Pull(ck), RemoteArrive(early)])
         == Duo(View([late], Remember(Seen({}, {}), gate, late), 1), [early, late])
  {
    var start := Duo(View([], Seen({}, {}), 0), [late]);
    var none: seq<Step> := [];
    FirstPull(late, gate, ck);
    assert Insert([late], early) == [early, late];
    hide PullOnce, Insert;
    assert [Pull(ck), RemoteArrive(early)][..1] == [Pull(ck)] && [Pull(ck)][..0] == none;
    assert Exec(start, gate, none) == start;
    assert Exec(start, gate, [Pull(ck)]) == Apply(start, gate, Pull(ck));
  }

  lemma OnlyHeldOrLater(held: View, gate: string, late: GateEvent, early: GateEvent, ck: Checks, rounds: nat)
    requires held.log == [late] && held.known == 1 && held.seen == Remember(Seen({}, {}), gate, late)
    requires early.eventId != late.eventId && PrintOf(gate, early) != PrintOf(gate, late)
    ensures early !in Pulls(held, gate, [early, late], ck, rounds).log
  {
    var remote, log := [early, late], Pulls(held, gate, [early, late], ck, rounds).log;
    PullsCollectFromTheCursor(held, gate, remote, ck, rounds);
    var reach := Reach(held, 2, rounds);
    hide Pulls;
    assert early !in Elements([late]) + GoodOf(remote[1..reach], gate, ck);
    assert early in log ==> early in Elements(log);
  }

  lemma FirstPull(e: GateEvent, gate: string, ck: Checks)
    ensures PullOnce(View([], Seen({}, {}), 0), gate, 1, [e], ck) ==
      if Good(ck, gate, e) then View([e], Remember(Seen({}, {}), gate, e), 1) else View([], Seen({}, {}), 1)
  {
    assert ServePull([e], 0) == [e] && [e][..0] == [];
    var empty := GateIngested([], Seen({}, {}), 0, 0, 0);
    assert IngestGate([], Seen({}, {}), gate, [], ck) == empty;
    assert IngestGate([], Seen({}, {}), gate, [e], ck) == Take(empty, gate, e, ck);
  }

  /** Another run that skips: the puller refuses an event, for good or because it is too old
      by now, and its cursor passes it; whatever it would take later, it never asks again. */
  lemma RefusedEventIsNeverPulledAgain(e: GateEvent, gate: string, now: Checks, later: Checks, rounds: nat)
    requires !Good(now, gate, e)
    ensures var s := Exec(Duo(View([], Seen({}, {}), 0), [e]), gate, [Pull(now)]);
      Cursor(s.view) == 1 && Pulls(s.view, gate, s.remote, later, rounds).log == []
  {
    var start := Duo(View([], Seen({}, {}), 0), [e]);
    var none: seq<Step> := [];
    FirstPull(e, gate, now);
    assert [Pull(now)][..0] == none && Exec(start, gate, none) == start;
    assert Exec(start, gate, [Pull(now)]) == Duo(View([], Seen({}, {}), 1), [e]);
    NothingAboveCursor(View([], Seen({}, {}), 1), gate, [e], later, rounds);
  }

  lemma {:induction false} NothingAboveCursor(v: View, gate: string, remote: seq<GateEvent>, ck: Checks, rounds: nat)
    requires Cursor(v) >= |remote|
    ensures Pulls(v, gate, remote, ck, rounds) == v
  {
    if rounds == 0 {
      assert Pulls(v, gate, remote, ck, rounds) == v;
    } else {
      NothingAboveCursor(v, gate, remote, ck, rounds - 1);
    }
  }
}
