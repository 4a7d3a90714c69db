/** Gate push as runs of two nodes: the sender's loop (`_http_gate_push_loop`) and the
    receiver's ingest behind `gate_peer_push` (both in backend/main.py). */
module GatePushRuns {
  import opened Basics
  import opened GateLog
  import opened GatePush

  /** The sender's log and cursor; the receiver's log of the gate and its indexes. */
  datatype Pair = Pair(log: seq<GateEvent>, cursor: nat, held: seq<GateEvent>, seen: Seen)

  /** A push is judged by the receiver's tests of that moment. `Arrive` is an event that
      reaches the sender, `ReceiverArrive` one that reaches the receiver by another way. */
  datatype Step = Arrive(event: GateEvent) | ReceiverArrive(event: GateEvent) | Push(fate: Fate, ck: Checks) | Restart

  function Apply(s: Pair, gate: string, step: Step): Pair {
    match step
    case Arrive(e) => s.(log := Insert(s.log, e))
    case ReceiverArrive(e) =>
      if Knows(s.seen, gate, e) then s else s.(held := Insert(s.held, e), seen := Remember(s.seen, gate, e))
    case Push(fate, ck) =>
      var r := IngestGate(s.held, s.seen, gate, Delivered(s.log, s.cursor, fate), ck);
      Pair(s.log, CursorAfter(s.log, s.cursor, fate), r.log, r.seen)
    case Restart => s.(cursor := 0)
  }

  function Exec(s: Pair, gate: string, steps: seq<Step>): Pair {
    if steps == [] then s else Apply(Exec(s, gate, steps[..|steps| - 1]), gate, steps[|steps| - 1])
  }

  /** An event is new to the sender when it arrives there; nothing is asked of the receiver. */
  ghost predicate AllFit(s: Pair, gate: string, steps: seq<Step>) {
    steps != [] ==>
      var n := |steps| - 1;
      && AllFit(s, gate, steps[..n])
      && (steps[n].Arrive? ==> NewIn(Exec(s, gate, steps[..n]).log, gate, steps[n].event))
  }

  ghost predicate Inv(s: Pair, gate: string) {
    && Sorted(s.log) && Honest(s.log, gate) && s.cursor <= |s.log|
    && Proper(s.held) && Indexed(s.held, s.seen)
  }

  /** Everything below the cursor is known to the receiver. */
  ghost predicate Complete(s: Pair, gate: string) {
    forall i :: 0 <= i < s.cursor && i < |s.log| ==> Knows(s.seen, gate, s.log[i])
  }

  /** Position `i` is in the batch that the cursor moves past. */
  predicate InBatch(s: Pair, i: int) {
    s.cursor <= i < Least(s.cursor + BATCH, |s.log|)
  }

  /** A step that leaves an event behind: an arrival below the cursor that the receiver does
      not know, an acknowledged batch with an event that it does not know and refuses, or a
      batch that resolves no gate with an event that it does not know. */
  ghost predicate Skips(s: Pair, gate: string, step: Step) {
    match step
    case Arrive(e) => Place(s.log, e) < s.cursor && !Knows(s.seen, gate, e)
    case Push(Acked, ck) => exists i :: InBatch(s, i) && !Good(ck, gate, s.log[i]) && !Knows(s.seen, gate, s.log[i])
    case Push(Unresolved, _) => exists i :: InBatch(s, i) && !Knows(s.seen, gate, s.log[i])
    case _ => false
  }

  ghost predicate AlwaysComplete(s: Pair, gate: string, steps: seq<Step>) {
    steps != [] ==> AlwaysComplete(s, gate, steps[..|steps| - 1]) && Complete(Exec(s, gate, steps), gate)
  }

  ghost predicate HasSkip(s: Pair, gate: string, steps: seq<Step>) {
    steps != [] &&
    var n := |steps| - 1;
    HasSkip(s, gate, steps[..n]) || Skips(Exec(s, gate, steps[..n]), gate, steps[n])
  }

  lemma StepKeepsInv(s: Pair, gate: string, step: Step)
    requires Inv(s, gate) && (step.Arrive? ==> NewIn(s.log, gate, step.event))
    ensures Inv(Apply(s, gate, step), gate)
  {
    match step
    case Arrive(e) => InsertStaysHonest(s.log, gate, e);
    case ReceiverArrive(e) => ReceiverKeepsInv(s, gate, e);
    case Push(fate, ck) => IngestGateEffect(s.held, s.seen, gate, Delivered(s.log, s.cursor, fate), ck);
    case Restart =>
  }

  lemma ReceiverKeepsInv(s: Pair, gate: string, e: GateEvent)
    requires Inv(s, gate)
    ensures Inv(Apply(s, gate, Step.ReceiverArrive(e)), gate)
  {
    if !Knows(s.seen, gate, e) {
      InsertKeepsOrder(s.held, e);
      forall x
        ensures x in Insert(s.held, e) <==> x == e || x in s.held
      {
        InsertElements(s.held, e, x);
      }
    }
  }

  lemma ArriveStep(s: Pair, gate: string, e: GateEvent)
    requires Inv(s, gate) && Complete(s, gate)
    ensures Complete(Apply(s, gate, Step.Arrive(e)), gate) <==> !Skips(s, gate, Step.Arrive(e))
  {
    hide Knows;
    assert Insert(s.log, e)[Place(s.log, e)] == e;
  }

  /** What a delivered batch makes known, position by position. */
  lemma PushAtPosition(s: Pair, gate: string, fate: Fate, ck: Checks, i: nat)
    requires Inv(s, gate) && i < |s.log|
    ensures Knows(Apply(s, gate, Step.Push(fate, ck)).seen, gate, s.log[i]) <==>
      || Knows(s.seen, gate, s.log[i])
      || ((fate == AckLost || fate == Acked) && InBatch(s, i) && Good(ck, gate, s.log[i]))
  {
    var batch := Delivered(s.log, s.cursor, fate);
    BatchByPosition(s, gate, fate, i);
    KnownAfterIngest(s.held, s.seen, gate, s.log, batch, ck, s.log[i]);
    hide Knows, Good, IngestGate;
  }

  lemma BatchByPosition(s: Pair, gate: string, fate: Fate, i: nat)
    requires Inv(s, gate) && i < |s.log|
    ensures var batch := Delivered(s.log, s.cursor, fate);
      && (forall y :: y in batch ==> y in s.log)
      && (s.log[i] in batch <==> (fate == AckLost || fate == Acked) && InBatch(s, i))
  {
    var batch := Delivered(s.log, s.cursor, fate);
    assert forall k :: 0 <= k < |batch| ==> batch[k] == s.log[s.cursor + k];
    if InBatch(s, i) && (fate == AckLost || fate == Acked) {
      assert batch[i - s.cursor] == s.log[i];
    }
  }

  lemma PushStep(s: Pair, gate: string, fate: Fate, ck: Checks)
    requires Inv(s, gate) && Complete(s, gate)
    ensures Complete(Apply(s, gate, Step.Push(fate, ck)), gate) <==> !Skips(s, gate, Step.Push(fate, ck))
  {
    var after := Apply(s, gate, Step.Push(fate, ck));
    forall i | 0 <= i < |s.log|
      ensures Knows(after.seen, gate, s.log[i]) <==>
        || Knows(s.seen, gate, s.log[i])
        || ((fate == AckLost || fate == Acked) && InBatch(s, i) && Good(ck, gate, s.log[i]))
    {
      PushAtPosition(s, gate, fate, ck, i);
    }
    hide Knows, Good, IngestGate, Honest, Sorted, Proper, Indexed;
    assert forall i :: 0 <= i < after.cursor && i < |s.log| ==> i < s.cursor || InBatch(s, i);
  }

  /** What a push does by its fate: one that failed changes nothing, one that resolved no gate
      moves the cursor alone, one whose answer was lost reaches the receiver alone. */
  lemma PushByFate(s: Pair, gate: string, fate: Fate, ck: Checks)
    ensures var after := Apply(s, gate, Step.Push(fate, ck));
      var to := if s.cursor + 50 < |s.log| then s.cursor + 50 else |s.log|;
      var r := if s.cursor < |s.log| then IngestGate(s.held, s.seen, gate, s.log[s.cursor..to], ck)
               else GateIngested(s.held, s.seen, 0, 0, 0);
      && after.log == s.log
      && after.cursor == (if s.cursor < |s.log| && (fate == Acked || fate == Unresolved) then to else s.cursor)
      && (fate == Failed || fate == Unresolved ==> after.held == s.held && after.seen == s.seen)
      && (fate == AckLost || fate == Acked ==> after.held == r.log && after.seen == r.seen)
  {
  }

  predicate MovesCursor(step: Step) {
    step.Push? && (step.fate == Acked || step.fate == Unresolved)
  }

  function Moves(steps: seq<Step>): nat {
    if steps == [] then 0 else Moves(steps[..|steps| - 1]) + if MovesCursor(steps[|steps| - 1]) then 1 else 0
  }

  /** Progress: every push that is answered with 200 moves the cursor by fifty or to the end,
      so ceil(|log| / 50) of them pass the whole log the run started with. */
  lemma {:induction false} AcksMoveTheCursor(s: Pair, gate: string, steps: seq<Step>)
    requires s.cursor <= |s.log| && forall i :: 0 <= i < |steps| ==> !steps[i].Restart?
    ensures var end := Exec(s, gate, steps);
      && |s.log| <= |end.log|
      && Least(|s.log|, s.cursor + 50 * Moves(steps)) <= end.cursor
      && end.cursor <= Least(|end.log|, s.cursor + 50 * Moves(steps))
  {
    hide Apply;
    if steps == [] {
      assert Exec(s, gate, steps) == s;
    } else {
      var n := |steps| - 1;
      assert !steps[n].Restart?;
      AcksMoveTheCursor(s, gate, steps[..n]);
      CursorStep(Exec(s, gate, steps[..n]), gate, steps[n]);
    }
  }

  lemma CursorStep(s: Pair, gate: string, step: Step)
    requires !step.Restart?
    ensures var after := Apply(s, gate, step);
      && |s.log| <= |after.log|
      && after.cursor == (if MovesCursor(step) && s.cursor < |s.log| then Least(s.cursor + 50, |s.log|) else s.cursor)
  {
    hide IngestGate;
  }

  /** Over every run of arrivals on both sides, pushes with any fate and any tests, and sender
      restarts: everything below the cursor is at every moment known to the receiver exactly
      when no step skips. */
  lemma {:induction false} KnownExactlyWithoutSkip(s: Pair, gate: string, steps: seq<Step>)
    requires Inv(s, gate) && Complete(s, gate) && AllFit(s, gate, steps)
    ensures Inv(Exec(s, gate, steps), gate)
    ensures AlwaysComplete(s, gate, steps) <==> !HasSkip(s, gate, steps)
    ensures AlwaysComplete(s, gate, steps) ==> Complete(Exec(s, gate, steps), gate)
  {
    hide Inv, Complete, Apply, Skips;
    if steps == [] {
      assert Exec(s, gate, steps) == s;
    } else {
      var n := |steps| - 1;
      var before := Exec(s, gate, steps[..n]);
      KnownExactlyWithoutSkip(s, gate, steps[..n]);
      LogOfInv(before, gate);
      StepKeepsInv(before, gate, steps[n]);
      if Complete(before, gate) {
        StepComplete(before, gate, steps[n]);
      }
    }
  }

  lemma LogOfInv(s: Pair, gate: string)
    requires Inv(s, gate)
    ensures s.cursor <= |s.log|
  {
  }

  lemma StepComplete(s: Pair, gate: string, step: Step)
    requires Inv(s, gate) && Complete(s, gate)
    ensures Complete(Apply(s, gate, step), gate) <==> !Skips(s, gate, step)
  {
    match step
    case Arrive(e) => ArriveStep(s, gate, e);
    case ReceiverArrive(e) =>
      assert forall x :: Knows(s.seen, gate, x) ==> Knows(Remember(s.seen, gate, e), gate, x);
    case Push(fate, ck) => PushStep(s, gate, fate, ck);
    case Restart =>
  }

  // ---------------------------------------------------------------- a receiver with one source

  /** All the receiver holds and knows of the gate comes from the sender. */
  ghost predicate Sourced(s: Pair, gate: string) {
    && (forall y :: y in s.held ==> y in s.log)
    && Accounted(Seen({}, {}), gate, s.held, s.seen)
  }

  /** Of a log it draws on alone, a receiver knows exactly what it holds. */
  lemma KnownIsHeld(s: Pair, gate: string, x: GateEvent)
    requires Inv(s, gate) && Sourced(s, gate) && x in s.log
    ensures Knows(s.seen, gate, x) <==> x in s.held
  {
  }

  lemma StepKeepsSourced(s: Pair, gate: string, step: Step)
    requires Inv(s, gate) && Sourced(s, gate) && !step.ReceiverArrive?
    ensures Sourced(Apply(s, gate, step), gate)
  {
    match step
    case Arrive(e) =>
      forall x
        ensures x in Insert(s.log, e) <==> x == e || x in s.log
      {
        InsertElements(s.log, e, x);
      }
    case Push(fate, ck) => PushKeepsSourced(s, gate, fate, ck);
    case Restart =>
  }

  lemma PushKeepsSourced(s: Pair, gate: string, fate: Fate, ck: Checks)
    requires Inv(s, gate) && Sourced(s, gate)
    ensures Sourced(Apply(s, gate, Step.Push(fate, ck)), gate)
  {
    var batch := Delivered(s.log, s.cursor, fate);
    DeliveredFromLog(s.log, s.cursor, fate);
    IngestGateEffect(s.held, s.seen, gate, batch, ck);
    var r := IngestGate(s.held, s.seen, gate, batch, ck);
    AccountedFurther(gate, s.held, s.seen, r.log, r.seen);
    hide IngestGate, Accounted, Good, Knows, Inv, Delivered, CursorAfter;
  }

  lemma DeliveredFromLog(log: seq<GateEvent>, cursor: nat, fate: Fate)
    ensures forall x :: x in Delivered(log, cursor, fate) ==> x in log
  {
    var batch := Delivered(log, cursor, fate);
    assert forall k :: 0 <= k < |batch| ==> batch[k] == log[cursor + k];
  }

  lemma AccountedFurther(gate: string, held: seq<GateEvent>, seen: Seen, longer: seq<GateEvent>, more: Seen)
    requires Accounted(Seen({}, {}), gate, held, seen) && Accounted(seen, gate, longer, more)
    requires forall x :: x in held ==> x in longer
    ensures Accounted(Seen({}, {}), gate, longer, more)
  {
  }

  /** At every moment of the run the receiver holds everything below the cursor. */
  ghost predicate AlwaysHeld(s: Pair, gate: string, steps: seq<Step>) {
    steps != [] ==> AlwaysHeld(s, gate, steps[..|steps| - 1]) && Holds(Exec(s, gate, steps))
  }

  ghost predicate Holds(s: Pair) {
    forall i :: 0 <= i < s.cursor && i < |s.log| ==> s.log[i] in s.held
  }

  /** For a receiver that gets this gate from the sender alone: everything below the cursor
      is at every moment in its log exactly when no step skips. */
  lemma {:induction false} HeldExactlyWithoutSkip(s: Pair, gate: string, steps: seq<Step>)
    requires Inv(s, gate) && Complete(s, gate) && Sourced(s, gate) && AllFit(s, gate, steps)
    requires forall i :: 0 <= i < |steps| ==> !steps[i].ReceiverArrive?
    ensures Sourced(Exec(s, gate, steps), gate)
    ensures AlwaysHeld(s, gate, steps) <==> !HasSkip(s, gate, steps)
  {
    KnownExactlyWithoutSkip(s, gate, steps);
    hide Inv, Complete, Apply, Skips, Sourced, Holds;
    if steps == [] {
      assert Exec(s, gate, steps) == s;
    } else {
      var n := |steps| - 1;
      var before := Exec(s, gate, steps[..n]);
      HeldExactlyWithoutSkip(s, gate, steps[..n]);
      KnownExactlyWithoutSkip(s, gate, steps[..n]);
      StepKeepsSourced(before, gate, steps[n]);
      HoldsIsComplete(Exec(s, gate, steps), gate);
    }
  }

  lemma HoldsIsComplete(s: Pair, gate: string)
    requires Inv(s, gate) && Sourced(s, gate)
    ensures Holds(s) <==> Complete(s, gate)
  {
    forall i | 0 <= i < |s.log|
      ensures Knows(s.seen, gate, s.log[i]) <==> s.log[i] in s.held
    {
      KnownIsHeld(s, gate, s.log[i]);
    }
    hide Knows, Sourced, Inv;
  }
}
