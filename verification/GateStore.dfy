/** The store of all gates, and the endpoint that takes a pushed batch apart by gate
    (`ingest_peer_events` in backend/services/mesh/mesh_hashchain.py, `gate_peer_push` in
    backend/main.py). */
module GateStore {
  import opened GateLog

  const PUSH_LIMIT: nat := 50

  /** A pushed event with the gate it names, or else the opaque reference it carries. */
  datatype Wire = Wire(gate: string, gateRef: string, event: GateEvent)

  /** `resolve` looks a reference up; the empty string means it found no gate. */
  function GateOf(w: Wire, resolve: Wire -> string): string {
    if w.gate != "" then w.gate else resolve(w)
  }

  /** The events of a batch for one gate, in arrival order. */
  function ForGate(batch: seq<Wire>, resolve: Wire -> string, gate: string): seq<GateEvent> {
    if batch == [] then []
    else
      var n := |batch| - 1;
      ForGate(batch[..n], resolve, gate) + (if GateOf(batch[n], resolve) == gate then [batch[n].event] else [])
  }

  /** The gates of a batch in the order of their first event. */
  function GateOrder(batch: seq<Wire>, resolve: Wire -> string): seq<string> {
    if batch == [] then []
    else
      var n := |batch| - 1;
      var order := GateOrder(batch[..n], resolve);
      var gate := GateOf(batch[n], resolve);
      if gate in order then order else order + [gate]
  }

  datatype Reply = NotOk | Ok(accepted: nat, duplicates: nat, rejected: nat)

  /** The logs of all gates and the indexes they share. */
  datatype Gates = Gates(logs: map<string, seq<GateEvent>>, seen: Seen)

  function LogIn(gates: map<string, seq<GateEvent>>, gate: string): seq<GateEvent> {
    if gate in gates then gates[gate] else []
  }

  function Groups(batch: seq<Wire>, resolve: Wire -> string): map<string, seq<GateEvent>> {
    map g | g in GateOrder(batch, resolve) :: ForGate(batch, resolve, g)
  }

  /** One group's ingest. */
  function IngestGroup(s: Gates, gate: string, events: seq<GateEvent>, ck: Checks): GateIngested {
    IngestGate(LogIn(s.logs, gate), s.seen, gate, events, ck)
  }

  /** The store after each group of `order` went to its own log. */
  function AfterGroups(order: seq<string>, s: Gates, grouped: map<string, seq<GateEvent>>, ck: Checks): Gates {
    if order == [] then s
    else
      var n := |order| - 1;
      var before := AfterGroups(order[..n], s, grouped, ck);
      var r := IngestGroup(before, order[n], LogIn(grouped, order[n]), ck);
      Gates(before.logs[order[n] := r.log], r.seen)
  }

  /** The counts added up over the gates of `order`. */
  function Tally(order: seq<string>, s: Gates, grouped: map<string, seq<GateEvent>>, ck: Checks): (r: Reply)
    ensures r.Ok?
  {
    if order == [] then Ok(0, 0, 0)
    else
      var n := |order| - 1;
      var sum := Tally(order[..n], s, grouped, ck);
      var r := IngestGroup(AfterGroups(order[..n], s, grouped, ck), order[n], LogIn(grouped, order[n]), ck);
      Ok(sum.accepted + r.accepted, sum.duplicates + r.duplicates, sum.rejected + r.rejected)
  }

  predicate Unresolvable(batch: seq<Wire>, resolve: Wire -> string) {
    exists i :: 0 <= i < |batch| && GateOf(batch[i], resolve) == ""
  }

  class GateStore {
    var gates: map<string, seq<GateEvent>>
    var seen: Seen

    /** Every log is sorted and covered by the index. */
    ghost predicate Valid()
      reads this
    {
      forall g :: g in gates ==> Proper(gates[g]) && Indexed(gates[g], seen)
    }

    constructor ()
      ensures Valid() && View() == Gates(map[], Seen({}, {}))
    {
      gates, seen := map[], Seen({}, {});
    }

    function View(): Gates
      reads this
    {
      Gates(gates, seen)
    }

    function Log(gate: string): seq<GateEvent>
      reads this
    {
      LogIn(gates, gate)
    }

    /** Candidates are collected first; the log is then replaced in one go by the sorted
        union, and the indexes are extended. */
    method IngestPeerEvents(gate: string, events: seq<GateEvent>, ck: Checks)
      returns (accepted: nat, duplicates: nat, rejected: nat)
      requires Valid()
      modifies this
      ensures Valid()
      ensures gate == "" ==> (accepted, duplicates, rejected) == (0, 0, 0) && View() == old(View())
      ensures gate != "" ==>
        && GateIngested(Log(gate), seen, accepted, duplicates, rejected) == IngestGroup(old(View()), gate, events, ck)
        && gates == old(gates)[gate := Log(gate)]
    {
      if gate == "" {
        return 0, 0, 0;
      }
      var existing := LogIn(gates, gate);
      assert Proper(existing) && Indexed(existing, seen);
      var candidates, added;
      candidates, added, duplicates, rejected := Collect(existing, seen, gate, events, ck);
      IngestGateEffect(existing, seen, gate, events, ck);
      accepted := |candidates|;
      gates := gates[gate := Sort(existing + candidates)];
      seen := Seen(seen.ids + added.ids, seen.prints + added.prints);
    }

    /** The second half of a push: each group goes to its own log. */
    method IngestGroups(order: seq<string>, grouped: map<string, seq<GateEvent>>, ck: Checks) returns (reply: Reply)
      requires Valid()
      requires forall g :: g in order ==> g != "" && g in grouped
      modifies this
      ensures Valid()
      ensures reply == Tally(order, old(View()), grouped, ck) && View() == AfterGroups(order, old(View()), grouped, ck)
    {
      hide IngestGroup;
      var accepted, duplicates, rejected := 0, 0, 0;
      ghost var start := View();
      for k := 0 to |order|
        invariant Valid()
        invariant Ok(accepted, duplicates, rejected) == Tally(order[..k], start, grouped, ck)
        invariant View() == AfterGroups(order[..k], start, grouped, ck)
      {
        assert order[..k + 1][..k] == order[..k];
        assert order[k] in order;
        var a, d, r := IngestPeerEvents(order[k], grouped[order[k]], ck);
        accepted, duplicates, rejected := accepted + a, duplicates + d, rejected + r;
      }
      assert order[..|order|] == order;
      return Ok(accepted, duplicates, rejected);
    }

    /** All or nothing: a batch with an event that names no known gate changes no log. In
        any other, each gate takes in its own events as if it had been sent only those. */
    method PeerPush(batch: seq<Wire>, resolve: Wire -> string, ck: Checks) returns (reply: Reply)
      requires Valid()
      modifies this
      ensures Valid()
      ensures |batch| > 50 || Unresolvable(batch, resolve) ==> reply == NotOk && View() == old(View())
      ensures |batch| <= 50 && !Unresolvable(batch, resolve) ==>
        && reply == Tally(GateOrder(batch, resolve), old(View()), Groups(batch, resolve), ck)
        && View() == AfterGroups(GateOrder(batch, resolve), old(View()), Groups(batch, resolve), ck)
        && forall g :: Log(g) == IngestGroup(old(View()), g, ForGate(batch, resolve, g), ck).log
    {
      if |batch| > PUSH_LIMIT {
        return NotOk;
      }
      var failed, order, grouped := GroupByGate(batch, resolve);
      if failed {
        return NotOk;
      }
      hide IngestGroup, ForGate, GateOrder, Tally, AfterGroups;
      ghost var start := View();
      reply := IngestGroups(order, grouped, ck);
      forall g
        ensures Log(g) == IngestGroup(start, g, ForGate(batch, resolve, g), ck).log
      {
        LogsAfterGroups(order, start, grouped, g, ck);
        OtherGatesGetNothing(batch, resolve, g);
        IngestGroupNothing(start, g, ck);
      }
    }

    /** The store's own append. Neither index has to know the event: a known one is left
        alone. */
    method Append(gate: string, e: GateEvent)
      requires Valid()
      modifies this
      ensures Valid() && View() == Appended(old(View()), gate, e)
    {
      if gate == "" {
        return;
      }
      var log := LogIn(gates, gate);
      assert Proper(log) && Indexed(log, seen);
      gates := gates[gate := log];
      if PrintOf(gate, e) in seen.prints || e.eventId in seen.ids {
        return;
      }
      AppendKeepsProper(log, seen, gate, e);
      gates := gates[gate := Insert(log, e)];
      seen := Remember(seen, gate, e);
    }
  }

  function Appended(s: Gates, gate: string, e: GateEvent): Gates {
    if gate == "" then s
    else
      var log := LogIn(s.logs, gate);
      if Knows(s.seen, gate, e) then s.(logs := s.logs[gate := log])
      else Gates(s.logs[gate := Insert(log, e)], Remember(s.seen, gate, e))
  }

  lemma AppendKeepsProper(log: seq<GateEvent>, seen: Seen, gate: string, e: GateEvent)
    requires Proper(log) && Indexed(log, seen) && !Knows(seen, gate, e)
    ensures Proper(Insert(log, e)) && Indexed(Insert(log, e), Remember(seen, gate, e))
  {
    InsertKeepsOrder(log, e);
  }

  /** The candidates of a batch, and what they add to the indexes. */
  method Collect(existing: seq<GateEvent>, seen: Seen, gate: string, events: seq<GateEvent>, ck: Checks)
    returns (candidates: seq<GateEvent>, added: Seen, duplicates: nat, rejected: nat)
    requires Proper(existing)
    ensures GateIngested(Sort(existing + candidates), Seen(seen.ids + added.ids, seen.prints + added.prints),
                         |candidates|, duplicates, rejected)
         == IngestGate(existing, seen, gate, events, ck)
  {
    hide IngestGate, Insert, Sort;
    var batchIds: set<nat>, batchPrints: set<Print> := {}, {};
    candidates, duplicates, rejected := [], 0, 0;
    IngestNothing(existing, seen, gate, ck);
    SortOfSorted(existing);
    assert events[..0] == [] && existing + candidates == existing;
    assert seen.ids + batchIds == seen.ids && seen.prints + batchPrints == seen.prints;
    for i := 0 to |events|
      invariant GateIngested(Sort(existing + candidates), Seen(seen.ids + batchIds, seen.prints + batchPrints),
                             |candidates|, duplicates, rejected)
             == IngestGate(existing, seen, gate, events[..i], ck)
    {
      var evt := events[i];
      var imprint := PrintOf(gate, evt);
      IngestGateOneMore(existing, seen, gate, events, i, ck);
      if !ck.wellFormed(evt) {
        rejected := rejected + 1;
      } else if imprint in seen.prints || imprint in batchPrints {
        duplicates := duplicates + 1;
      } else if !ck.hexId(evt) {
        rejected := rejected + 1;
      } else if evt.eventId in seen.ids || evt.eventId in batchIds {
        duplicates := duplicates + 1;
      } else if !ck.verified(gate, evt) {
        rejected := rejected + 1;
      } else {
        SortOneMore(existing, candidates, evt);
        assert seen.ids + (batchIds + {evt.eventId}) == seen.ids + batchIds + {evt.eventId};
        assert seen.prints + (batchPrints + {imprint}) == seen.prints + batchPrints + {imprint};
        candidates := candidates + [evt];
        batchIds, batchPrints := batchIds + {evt.eventId}, batchPrints + {imprint};
      }
    }
    assert events[..|events|] == events;
    added := Seen(batchIds, batchPrints);
  }

  method GroupByGate(batch: seq<Wire>, resolve: Wire -> string)
    returns (failed: bool, order: seq<string>, grouped: map<string, seq<GateEvent>>)
    ensures failed <==> Unresolvable(batch, resolve)
    ensures !failed ==>
      && order == GateOrder(batch, resolve) && grouped == Groups(batch, resolve)
      && (forall i, j :: 0 <= i < j < |order| ==> order[i] != order[j])
      && "" !in order
  {
    order, grouped := [], map[];
    NoGroups(batch, resolve);
    hide GateOrder, ForGate;
    for i := 0 to |batch|
      invariant forall k :: 0 <= k < i ==> GateOf(batch[k], resolve) != ""
      invariant order == GateOrder(batch[..i], resolve) && grouped == Groups(batch[..i], resolve)
      invariant "" !in order
    {
      var gate := GateOf(batch[i], resolve);
      if gate == "" {
        return true, [], map[];
      }
      OtherGatesGetNothing(batch[..i], resolve, gate);
      GroupsOneMore(batch, i, resolve);
      GateOrderStep(batch, i, resolve);
      if gate in grouped {
        grouped := grouped[gate := grouped[gate] + [batch[i].event]];
      } else {
        order := order + [gate];
        assert [] + [batch[i].event] == [batch[i].event];
        grouped := grouped[gate := [batch[i].event]];
      }
    }
    assert batch[..|batch|] == batch;
    GroupsPartitionTheBatch(batch, resolve);
    return false, order, grouped;
  }

  // ---------------------------------------------------------------- lemmas

  /** The gates share the indexes, and still it does not matter in which order, or that, the
      others are served: each takes in its own group as if it were alone. */
  lemma {:induction false} LogsAfterGroups(order: seq<string>, s: Gates, grouped: map<string, seq<GateEvent>>,
                                           gate: string, ck: Checks)
    requires forall i, j :: 0 <= i < j < |order| ==> order[i] != order[j]
    ensures var after := AfterGroups(order, s, grouped, ck);
      && LogIn(after.logs, gate)
           == (if gate in order then IngestGroup(s, gate, LogIn(grouped, gate), ck).log else LogIn(s.logs, gate))
      && (gate !in order ==> Elsewhere(gate, ck, s.seen, after.seen))
  {
    hide IngestGate, Elsewhere;
    if order == [] {
      NothingElsewhere(gate, s.seen, ck);
    } else {
      var n := |order| - 1;
      var last := order[n];
      assert order == order[..n] + [last] && last !in order[..n];
      LogsAfterGroups(order[..n], s, grouped, gate, ck);
      var before := AfterGroups(order[..n], s, grouped, ck);
      var events := LogIn(grouped, last);
      if gate == last {
        SeenElsewhere(LogIn(s.logs, gate), s.seen, before.seen, gate, events, ck);
      } else if gate !in order {
        OthersUndisturbed(LogIn(before.logs, last), s.seen, before.seen, last, gate, events, ck);
      }
    }
  }

  lemma IngestNothing(log: seq<GateEvent>, seen: Seen, gate: string, ck: Checks)
    ensures IngestGate(log, seen, gate, [], ck) == GateIngested(log, seen, 0, 0, 0)
  {
  }

  lemma IngestGroupNothing(s: Gates, gate: string, ck: Checks)
    ensures IngestGroup(s, gate, [], ck).log == LogIn(s.logs, gate)
  {
  }

  lemma SortOneMore(a: seq<GateEvent>, b: seq<GateEvent>, e: GateEvent)
    ensures Sort(a + (b + [e])) == Insert(Sort(a + b), e)
  {
    var all := a + (b + [e]);
    assert all[..|all| - 1] == a + b;
  }

  lemma {:induction false} OtherGatesGetNothing(batch: seq<Wire>, resolve: Wire -> string, gate: string)
    ensures gate !in GateOrder(batch, resolve) <==> ForGate(batch, resolve, gate) == []
  {
    if batch == [] {
    } else {
      OtherGatesGetNothing(batch[..|batch| - 1], resolve, gate);
    }
  }

  lemma GroupsOneMore(batch: seq<Wire>, i: nat, resolve: Wire -> string)
    requires i < |batch|
    ensures var gate := GateOf(batch[i], resolve);
      Groups(batch[..i + 1], resolve) ==
        Groups(batch[..i], resolve)[gate := ForGate(batch[..i], resolve, gate) + [batch[i].event]]
  {
    hide GateOrder;
    assert batch[..i + 1][..i] == batch[..i];
    GateOrderOneMore(batch, i, resolve);
    var gate := GateOf(batch[i], resolve);
    forall g | g != gate
      ensures ForGate(batch[..i + 1], resolve, g) == ForGate(batch[..i], resolve, g)
    {}
  }

  lemma NoGroups(batch: seq<Wire>, resolve: Wire -> string)
    ensures GateOrder(batch[..0], resolve) == [] && Groups(batch[..0], resolve) == map[]
  {
  }

  lemma GateOrderStep(batch: seq<Wire>, i: nat, resolve: Wire -> string)
    requires i < |batch|
    ensures var order, gate := GateOrder(batch[..i], resolve), GateOf(batch[i], resolve);
      GateOrder(batch[..i + 1], resolve) == if gate in order then order else order + [gate]
  {
    assert batch[..i + 1][..i] == batch[..i];
  }

  lemma GateOrderOneMore(batch: seq<Wire>, i: nat, resolve: Wire -> string)
    requires i < |batch|
    ensures forall g ::
      g in GateOrder(batch[..i + 1], resolve) <==> g in GateOrder(batch[..i], resolve) || g == GateOf(batch[i], resolve)
  {
    assert batch[..i + 1][..i] == batch[..i];
  }

  function Sizes(order: seq<string>, batch: seq<Wire>, resolve: Wire -> string): nat {
    if order == [] then 0
    else Sizes(order[..|order| - 1], batch, resolve) + |ForGate(batch, resolve, order[|order| - 1])|
  }

  lemma ForGateOneMore(batch: seq<Wire>, resolve: Wire -> string, gate: string)
    requires batch != []
    ensures |ForGate(batch, resolve, gate)| == |ForGate(batch[..|batch| - 1], resolve, gate)|
      + (if GateOf(batch[|batch| - 1], resolve) == gate then 1 else 0)
  {
  }

  lemma {:induction false} SizesAfterOneMore(order: seq<string>, batch: seq<Wire>, resolve: Wire -> string)
    requires batch != []
    requires forall i, j :: 0 <= i < j < |order| ==> order[i] != order[j]
    ensures Sizes(order, batch, resolve) == Sizes(order, batch[..|batch| - 1], resolve)
      + (if GateOf(batch[|batch| - 1], resolve) in order then 1 else 0)
  {
    if order == [] {
    } else {
      hide ForGate, GateOf;
      var n := |order| - 1;
      var gate := GateOf(batch[|batch| - 1], resolve);
      SizesAfterOneMore(order[..n], batch, resolve);
      ForGateOneMore(batch, resolve, order[n]);
      assert order == order[..n] + [order[n]];
      assert gate in order <==> gate in order[..n] || gate == order[n];
      assert order[n] !in order[..n];
    }
  }

  /** The gate an event belongs to: the one it names, or the one its reference resolves to if
      it names none. */
  ghost predicate BelongsTo(w: Wire, resolve: Wire -> string, gate: string) {
    gate == if w.gate == "" then resolve(w) else w.gate
  }

  /** `idx` lists the positions of a gate's events in the batch, in order. */
  ghost predicate Lists(idx: seq<nat>, batch: seq<Wire>, resolve: Wire -> string, gate: string, group: seq<GateEvent>) {
    && |idx| == |group|
    && (forall k :: 0 <= k < |idx| ==> idx[k] < |batch| && group[k] == batch[idx[k]].event)
    && (forall j, k :: 0 <= j < k < |idx| ==> idx[j] < idx[k])
    && (forall i :: 0 <= i < |batch| ==> (i in idx <==> BelongsTo(batch[i], resolve, gate)))
  }

  lemma ListsOneMore(idx: seq<nat>, batch: seq<Wire>, resolve: Wire -> string, gate: string, group: seq<GateEvent>,
                     w: Wire)
    requires Lists(idx, batch, resolve, gate, group)
    ensures BelongsTo(w, resolve, gate) ==> Lists(idx + [|batch|], batch + [w], resolve, gate, group + [w.event])
    ensures !BelongsTo(w, resolve, gate) ==> Lists(idx, batch + [w], resolve, gate, group)
  {
    hide BelongsTo;
    var longer := idx + [|batch|];
    assert longer[|idx|] == |batch|;
    assert forall i :: 0 <= i < |batch| ==> (i in longer <==> i in idx);
    assert |batch| !in idx;
  }

  /** A gate's group is exactly the batch's events that belong to the gate, in arrival order. */
  lemma {:induction false} GroupIsASubsequence(batch: seq<Wire>, resolve: Wire -> string, gate: string)
    returns (idx: seq<nat>)
    ensures Lists(idx, batch, resolve, gate, ForGate(batch, resolve, gate))
  {
    if batch == [] {
      idx := [];
    } else {
      var n := |batch| - 1;
      var group := ForGate(batch[..n], resolve, gate);
      var before := GroupIsASubsequence(batch[..n], resolve, gate);
      ListsOneMore(before, batch[..n], resolve, gate, group, batch[n]);
      assert batch[..n] + [batch[n]] == batch;
      assert ForGate(batch, resolve, gate) ==
        if GateOf(batch[n], resolve) == gate then group + [batch[n].event] else group;
      hide Lists, ForGate;
      idx := if GateOf(batch[n], resolve) == gate then before + [n] else before;
    }
  }

  /** The groups partition the batch: each gate occurs once and the sizes add up. */
  lemma {:induction false} GroupsPartitionTheBatch(batch: seq<Wire>, resolve: Wire -> string)
    ensures var order := GateOrder(batch, resolve);
      && (forall i, j :: 0 <= i < j < |order| ==> order[i] != order[j])
      && Sizes(order, batch, resolve) == |batch|
  {
    if batch == [] {
    } else {
      var n := |batch| - 1;
      var before := GateOrder(batch[..n], resolve);
      var gate := GateOf(batch[n], resolve);
      GroupsPartitionTheBatch(batch[..n], resolve);
      SizesAfterOneMore(before, batch, resolve);
      if gate !in before {
        OtherGatesGetNothing(batch[..n], resolve, gate);
        assert (before + [gate])[..|before|] == before;
      }
    }
  }

  lemma {:induction false} TallyCoversSizes(order: seq<string>, s: Gates, batch: seq<Wire>, resolve: Wire -> string,
                                            ck: Checks)
    requires forall g :: g in order ==> g in GateOrder(batch, resolve)
    ensures var r := Tally(order, s, Groups(batch, resolve), ck);
      r.accepted + r.duplicates + r.rejected == Sizes(order, batch, resolve)
  {
    hide GateOrder, ForGate, IngestGate, AfterGroups;
    if order == [] {
      assert Sizes(order, batch, resolve) == 0;
    } else {
      var n := |order| - 1;
      var before := AfterGroups(order[..n], s, Groups(batch, resolve), ck);
      assert order[n] in order;
      TallyCoversSizes(order[..n], s, batch, resolve, ck);
      IngestCounts(LogIn(before.logs, order[n]), before.seen, order[n], ForGate(batch, resolve, order[n]), ck);
    }
  }

  /** Conservation: an accepted push answers for every event of the batch exactly once. */
  lemma PushAccountsForTheBatch(s: Gates, batch: seq<Wire>, resolve: Wire -> string, ck: Checks)
    ensures var r := Tally(GateOrder(batch, resolve), s, Groups(batch, resolve), ck);
      r.accepted + r.duplicates + r.rejected == |batch|
  {
    GroupsPartitionTheBatch(batch, resolve);
    TallyCoversSizes(GateOrder(batch, resolve), s, batch, resolve, ck);
  }

  /** Every event of the batch is well-formed and known to the store, in its gate. */
  ghost predicate AllKnown(s: Gates, batch: seq<Wire>, resolve: Wire -> string, ck: Checks) {
    forall i :: 0 <= i < |batch| ==>
      var e := batch[i].event;
      ck.wellFormed(e) && ck.hexId(e) && Knows(s.seen, GateOf(batch[i], resolve), e)
  }

  lemma {:induction false} GroupIsKnown(s: Gates, batch: seq<Wire>, resolve: Wire -> string, ck: Checks, gate: string)
    requires AllKnown(s, batch, resolve, ck)
    ensures forall x :: x in ForGate(batch, resolve, gate) ==> ck.wellFormed(x) && ck.hexId(x) && Knows(s.seen, gate, x)
  {
    if batch == [] {
      assert ForGate(batch, resolve, gate) == [];
    } else {
      var n := |batch| - 1;
      assert forall i :: 0 <= i < n ==> batch[..n][i] == batch[i];
      GroupIsKnown(s, batch[..n], resolve, ck, gate);
      hide Knows;
    }
  }

  lemma {:induction false} KnownGroupsChangeNothing(order: seq<string>, s: Gates, batch: seq<Wire>,
                                                    resolve: Wire -> string, ck: Checks)
    requires AllKnown(s, batch, resolve, ck) && forall g :: g in order ==> g in GateOrder(batch, resolve)
    ensures var after := AfterGroups(order, s, Groups(batch, resolve), ck);
      && after.seen == s.seen && (forall g :: LogIn(after.logs, g) == LogIn(s.logs, g))
      && Tally(order, s, Groups(batch, resolve), ck) == Ok(0, Sizes(order, batch, resolve), 0)
  {
    hide GateOrder, ForGate, IngestGate, AllKnown;
    if order == [] {
      assert Sizes(order, batch, resolve) == 0;
    } else {
      var n := |order| - 1;
      var before := AfterGroups(order[..n], s, Groups(batch, resolve), ck);
      assert order[n] in order;
      KnownGroupsChangeNothing(order[..n], s, batch, resolve, ck);
      GroupIsKnown(s, batch, resolve, ck, order[n]);
      var events := ForGate(batch, resolve, order[n]);
      KnownEventsAreDuplicates(LogIn(before.logs, order[n]), before.seen, order[n], events, ck);
    }
  }

  /** A batch of known events, such as one that is pushed again, changes no log, and the reply
      counts all of it as duplicates. */
  lemma RepeatedPushIsAllDuplicates(s: Gates, batch: seq<Wire>, resolve: Wire -> string, ck: Checks)
    requires AllKnown(s, batch, resolve, ck)
    ensures var order := GateOrder(batch, resolve);
      && Tally(order, s, Groups(batch, resolve), ck) == Ok(0, |batch|, 0)
      && forall g :: LogIn(AfterGroups(order, s, Groups(batch, resolve), ck).logs, g) == LogIn(s.logs, g)
  {
    GroupsPartitionTheBatch(batch, resolve);
    KnownGroupsChangeNothing(GateOrder(batch, resolve), s, batch, resolve, ck);
  }
}
