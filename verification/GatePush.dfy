/** Pushing a gate's log to a peer by count (`_http_gate_push_loop` in backend/main.py).
    The cursor counts positions of a log that is kept sorted, so the positions shift when
    an event arrives late. */
module GatePush {
  import opened Basics
  import opened GateLog

  const BATCH: nat := 50

  /** `Unresolved` is the receiver's 200 with `ok: false`: an event of the batch names no
      gate it can resolve, and the whole batch is dropped. */
  datatype Fate = Failed | AckLost | Acked | Unresolved

  /** The batch that reaches the receiver's ingest. */
  function Delivered(log: seq<GateEvent>, cursor: nat, fate: Fate): seq<GateEvent> {
    if cursor >= |log| || fate == Failed || fate == Unresolved then [] else log[cursor..Least(cursor + BATCH, |log|)]
  }

  function CursorAfter(log: seq<GateEvent>, cursor: nat, fate: Fate): nat {
    if cursor < |log| && (fate == Acked || fate == Unresolved) then Least(cursor + BATCH, |log|) else cursor
  }

  /** The loop over the gates for one peer. */
  class GatePusher {
    var counts: map<string, nat>

    constructor ()
      ensures counts == map[]
    {
      counts := map[];
    }

    function Cursor(gate: string): nat
      reads this
    {
      if gate in counts then counts[gate] else 0
    }

    method PushRound(gates: map<string, seq<GateEvent>>, gateIds: seq<string>, fates: seq<Fate>)
      returns (delivered: seq<seq<GateEvent>>)
      requires |fates| == |gateIds|
      requires forall i :: 0 <= i < |gateIds| ==> gateIds[i] in gates
      requires forall i, j :: 0 <= i < j < |gateIds| ==> gateIds[i] != gateIds[j]
      modifies this
      ensures |delivered| == |gateIds|
      ensures forall i :: 0 <= i < |gateIds| ==>
        var log := gates[gateIds[i]];
        && delivered[i] == Delivered(log, old(Cursor(gateIds[i])), fates[i])
        && Cursor(gateIds[i]) == CursorAfter(log, old(Cursor(gateIds[i])), fates[i])
      ensures forall g :: g !in gateIds ==> Cursor(g) == old(Cursor(g))
    {
      delivered := [];
      for i := 0 to |gateIds|
        invariant |delivered| == i
        invariant forall k :: 0 <= k < i ==>
          var log := gates[gateIds[k]];
          && delivered[k] == Delivered(log, old(Cursor(gateIds[k])), fates[k])
          && Cursor(gateIds[k]) == CursorAfter(log, old(Cursor(gateIds[k])), fates[k])
        invariant forall g :: g !in gateIds[..i] ==> Cursor(g) == old(Cursor(g))
      {
        var gate := gateIds[i];
        assert gateIds[..i + 1] == gateIds[..i] + [gate];
        var allEvents := gates[gate];
        var total, last := |allEvents|, Cursor(gate);
        ghost var sent, moved := Delivered(allEvents, last, fates[i]), CursorAfter(allEvents, last, fates[i]);
        if last >= total {
          assert sent == [] && moved == last;
          hide Delivered, CursorAfter;
          delivered := delivered + [[]];
          continue;
        }
        var batch := allEvents[last..Least(last + BATCH, total)];
        assert sent == if fates[i] == AckLost || fates[i] == Acked then batch else [];
        assert moved == if fates[i] == Acked || fates[i] == Unresolved then last + |batch| else last;
        hide Delivered, CursorAfter;
        delivered := delivered + [if fates[i] == AckLost || fates[i] == Acked then batch else []];
        if fates[i] == Acked || fates[i] == Unresolved {
          counts := counts[gate := last + |batch|];
        }
      }
    }
  }

  // ---------------------------------------------------------------- runs of one gate and one peer

  /** `got` are the ids of the events the receiver has been handed. */
  datatype State = State(log: seq<GateEvent>, cursor: nat, got: set<nat>)

  datatype Step = Arrive(event: GateEvent) | Push(fate: Fate) | Restart

  function Apply(s: State, step: Step): State {
    match step
    case Arrive(event) => s.(log := Insert(s.log, event))
    case Push(fate) =>
      var batch := Delivered(s.log, s.cursor, fate);
      s.(cursor := CursorAfter(s.log, s.cursor, fate), got := s.got + (set e | e in batch :: e.eventId))
    case Restart => s.(cursor := 0)
  }

  function Exec(s: State, steps: seq<Step>): State {
    if steps == [] then s else Apply(Exec(s, steps[..|steps| - 1]), steps[|steps| - 1])
  }

  /** Only events with a new id enter the store. */
  ghost predicate Fresh(s: State, steps: seq<Step>) {
    steps != [] ==>
      var n := |steps| - 1;
      Fresh(s, steps[..n]) && (steps[n].Arrive? ==> !HasId(Exec(s, steps[..n]).log, steps[n].event.eventId))
  }

  ghost predicate Inv(s: State) {
    Proper(s.log) && s.cursor <= |s.log| && forall id :: id in s.got ==> HasId(s.log, id)
  }

  /** Everything below the cursor has been handed over. */
  ghost predicate Complete(s: State) {
    forall i :: 0 <= i < s.cursor && i < |s.log| ==> s.log[i].eventId in s.got
  }

  /** A step that leaves an event behind: an arrival that sorts below the cursor, or an
      unresolved batch with an event the receiver does not have. */
  ghost predicate Skips(s: State, step: Step) {
    match step
    case Arrive(event) => Place(s.log, event) < s.cursor
    case Push(fate) =>
      fate == Unresolved && exists i :: s.cursor <= i < Least(s.cursor + BATCH, |s.log|) && s.log[i].eventId !in s.got
    case Restart => false
  }

  /** Some step since the last restart skips. */
  ghost predicate HasSkip(s: State, steps: seq<Step>) {
    steps != [] &&
    var n := |steps| - 1;
    steps[n] != Restart && (HasSkip(s, steps[..n]) || Skips(Exec(s, steps[..n]), steps[n]))
  }

  lemma StepKeepsInv(s: State, step: Step)
    requires Inv(s) && (step.Arrive? ==> !HasId(s.log, step.event.eventId))
    ensures Inv(Apply(s, step))
  {
    match step
    case Arrive(event) =>
      InsertKeepsOrder(s.log, event);
      InsertKeepsIds(s.log, event);
    case Push(fate) =>
      forall e | e in Delivered(s.log, s.cursor, fate)
        ensures HasId(s.log, e.eventId)
      {
        assert e in s.log;
      }
    case Restart =>
  }

  lemma ArriveStep(s: State, e: GateEvent)
    requires Inv(s) && !HasId(s.log, e.eventId)
    ensures Complete(Apply(s, Arrive(e))) <==> Complete(s) && !Skips(s, Arrive(e))
  {
  }

  lemma PushStep(s: State, fate: Fate)
    requires Inv(s)
    ensures Complete(Apply(s, Push(fate))) <==> Complete(s) && !Skips(s, Push(fate))
  {
  }

  /** Over every run of arrivals, pushes with any fate and sender restarts: everything the
      cursor has passed was handed over exactly when no step since the last restart
      skipped. One skipped event is never repaired by later pushes. */
  lemma {:induction false} CompleteExactlyWithoutSkip(s: State, steps: seq<Step>)
    requires Inv(s) && Complete(s) && Fresh(s, steps)
    ensures Inv(Exec(s, steps))
    ensures Complete(Exec(s, steps)) <==> !HasSkip(s, steps)
  {
    hide Insert, Place, Delivered, CursorAfter;
    if steps == [] {
    } else {
      var n := |steps| - 1;
      CompleteExactlyWithoutSkip(s, steps[..n]);
      var before := Exec(s, steps[..n]);
      StepKeepsInv(before, steps[n]);
      match steps[n]
      case Arrive(event) => ArriveStep(before, event);
      case Push(fate) => PushStep(before, fate);
      case Restart =>
    }
  }

  /** Events that arrive in sort order never skip. */
  lemma InOrderArrivalNeverSkips(s: State, e: GateEvent)
    requires Inv(s) && (s.log == [] || Before(s.log[|s.log| - 1], e))
    ensures !Skips(s, Arrive(e)) && Insert(s.log, e) == s.log + [e]
  {
  }

  /** A run that skips: an event arrives that sorts before the one already pushed, and the
      next push hands over the old event a second time instead. */
  lemma LateArrivalIsSkipped(late: GateEvent, early: GateEvent)
    requires Before(early, late) && early.eventId != late.eventId
    ensures var steps := [Push(Acked), Arrive(early), Push(Acked)];
      var s := State([late], 0, {});
      HasSkip(s, steps) && Exec(s, steps) == State([early, late], 2, {late.eventId})
  {
    var s := State([late], 0, {});
    var steps := [Push(Acked), Arrive(early), Push(Acked)];
    assert steps[..2] == [Push(Acked), Arrive(early)] && steps[..2][..1] == [Push(Acked)] && steps[..2][..1][..0] == [];
    var none: seq<Step> := [];
    assert Exec(s, none) == s;
    assert [late][0..1] == [late];
    assert Exec(s, [Push(Acked)]) == State([late], 1, {late.eventId});
    assert Place([late], early) == 0 && Insert([late], early) == [early, late];
    assert Exec(s, steps[..2]) == State([early, late], 1, {late.eventId});
    assert [early, late][1..2] == [late];
  }
}
