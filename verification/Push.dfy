/** Cursor-based push of the chain to peers: `_http_peer_push_loop` and its receiver
    `infonet_peer_push` (backend/main.py), as runs of one sender and any number of peers. */
module Push {
  import opened Basics
  import opened Chain

  const BATCH: nat := 50
  const RECEIVER_LIMIT: nat := 50

  /** What the network made of one request. `Failed` is an unsent, lost or refused request,
      `AckLost` one that arrived although the sender never saw its 200. */
  datatype Fate = Failed | AckLost | Acked

  /** The sender's log and in-memory cursors, and the chain each peer holds. */
  datatype Net = Net(log: seq<Event>, cursors: map<string, nat>, inboxes: map<string, seq<Event>>)

  function Cursor(net: Net, peer: string): nat {
    if peer in net.cursors then net.cursors[peer] else 0
  }

  function Inbox(net: Net, peer: string): seq<Event> {
    if peer in net.inboxes then net.inboxes[peer] else []
  }

  /** The receiving endpoint: an oversized batch is answered with 200 and dropped. */
  function Receive(inbox: seq<Event>, events: seq<Event>, p: Policy): seq<Event> {
    if |events| > RECEIVER_LIMIT then inbox else Ingest(inbox, events, p).chain
  }

  /** One peer's turn in the push loop. */
  function PushOne(net: Net, peer: string, fate: Fate, p: Policy): Net {
    var last := Cursor(net, peer);
    if last >= |net.log| || fate == Failed then net
    else
      var to := Least(last + BATCH, |net.log|);
      var delivered := net.(inboxes := net.inboxes[peer := Receive(Inbox(net, peer), net.log[last..to], p)]);
      if fate == Acked then delivered.(cursors := net.cursors[peer := to]) else delivered
  }

  /** A push is judged by what the receiver admits at that moment, so the policy belongs to
      the step. `CatchUp` is a peer that has fetched more of the log by itself, `Restart` a
      sender that comes back without its cursors, `Reset` its `reset_chain`. */
  datatype Step =
    | Append(event: Event)
    | Push(peer: string, fate: Fate, policy: Policy)
    | CatchUp(peer: string, length: nat)
    | Restart
    | Reset

  function Apply(net: Net, step: Step): Net {
    match step
    case Append(event) => net.(log := net.log + [event])
    case Push(peer, fate, policy) => PushOne(net, peer, fate, policy)
    case CatchUp(peer, length) =>
      if |Inbox(net, peer)| <= length <= |net.log| then net.(inboxes := net.inboxes[peer := net.log[..length]]) else net
    case Restart => net.(cursors := map[])
    case Reset => net.(log := [])
  }

  function Exec(net: Net, steps: seq<Step>): Net {
    if steps == [] then net else Apply(Exec(net, steps[..|steps| - 1]), steps[|steps| - 1])
  }

  lemma ExecNothing(net: Net)
    ensures Exec(net, []) == net
  {
  }

  lemma ExecOneMore(net: Net, steps: seq<Step>, i: nat)
    requires i < |steps|
    ensures Exec(net, steps[..i + 1]) == Apply(Exec(net, steps[..i]), steps[i])
  {
    assert steps[..i + 1][..i] == steps[..i];
  }

  /** Appending keeps the log a chain. */
  ghost predicate Allowed(net: Net, step: Step) {
    match step
    case Append(event) => WellLinked(net.log + [event])
    case Reset => false
    case _ => true
  }

  ghost predicate AllAllowed(net: Net, steps: seq<Step>) {
    steps != [] ==>
      var n := |steps| - 1;
      AllAllowed(net, steps[..n]) && Allowed(Exec(net, steps[..n]), steps[n])
  }

  ghost predicate NoRestart(steps: seq<Step>) {
    forall i :: 0 <= i < |steps| ==> !steps[i].Restart?
  }

  ghost predicate NoReset(steps: seq<Step>) {
    forall i :: 0 <= i < |steps| ==> !steps[i].Reset?
  }

  // ---------------------------------------------------------------- the imperative round

  class PeerPusher {
    var lastIndex: map<string, nat>

    constructor ()
      ensures lastIndex == map[]
    {
      lastIndex := map[];
    }

    /** One pass over the peers. `fates[i]` is what happens to the i-th peer's request, and
        `policies[i]` what that peer admits at the time. */
    method PushRound(log: seq<Event>, peers: seq<string>, fates: seq<Fate>, policies: seq<Policy>,
                     inboxes: map<string, seq<Event>>)
      returns (after: map<string, seq<Event>>)
      requires |peers| == |fates| == |policies|
      modifies this
      ensures Net(log, lastIndex, after) == Exec(Net(log, old(lastIndex), inboxes), Round(peers, fates, policies))
    {
      hide Receive, Exec;
      after := inboxes;
      var total := |log|;
      ghost var steps := Round(peers, fates, policies);
      ghost var start := Net(log, lastIndex, inboxes);
      ExecNothing(start);
      assert steps[..0] == [];
      for i := 0 to |peers|
        invariant Net(log, lastIndex, after) == Exec(start, steps[..i])
      {
        ExecOneMore(start, steps, i);
        var peer := peers[i];
        var lastIdx := if peer in lastIndex then lastIndex[peer] else 0;
        if lastIdx >= total {
          continue;
        }
        var batch := log[lastIdx..Least(lastIdx + BATCH, total)];
        if fates[i] != Failed {
          after := after[peer := Receive(if peer in after then after[peer] else [], batch, policies[i])];
        }
        if fates[i] == Acked {
          lastIndex := lastIndex[peer := lastIdx + |batch|];
        }
      }
      assert steps[..|peers|] == steps;
    }
  }

  function Round(peers: seq<string>, fates: seq<Fate>, policies: seq<Policy>): (steps: seq<Step>)
    requires |peers| == |fates| == |policies|
    ensures |steps| == |peers|
    ensures forall i :: 0 <= i < |steps| ==> steps[i] == Push(peers[i], fates[i], policies[i])
  {
    seq(|peers|, i requires 0 <= i < |peers| => Push(peers[i], fates[i], policies[i]))
  }

  // ---------------------------------------------------------------- the invariant of all runs

  /** A peer holds exactly a prefix of the log; the cursor stays inside the log. */
  ghost predicate Replica(net: Net, peer: string) {
    Inbox(net, peer) <= net.log && Cursor(net, peer) <= |net.log|
  }

  ghost predicate Good(net: Net) {
    WellLinked(net.log) && forall peer :: Replica(net, peer)
  }

  /** The peer holds everything its cursor has passed. */
  ghost predicate Covered(net: Net, peer: string) {
    Cursor(net, peer) <= |Inbox(net, peer)|
  }

  /** The receiving endpoint takes no more than fifty events at once. */
  lemma OversizedIsDropped(inbox: seq<Event>, events: seq<Event>, p: Policy)
    ensures |events| > 50 ==> Receive(inbox, events, p) == inbox
    ensures |events| <= 50 ==> Receive(inbox, events, p) == Ingest(inbox, events, p).chain
  {
  }

  /** A sender that starts, with whatever chain, starts in such a state. */
  lemma StartIsGood(log: seq<Event>, peer: string)
    requires WellLinked(log)
    ensures Good(Net(log, map[], map[])) && Covered(Net(log, map[], map[]), peer)
  {
  }

  /** What a delivered batch does to a peer that holds a prefix of the log: nothing if it
      starts beyond that prefix, otherwise the log up to the batch's end or the first event
      that the peer refuses. */
  lemma DeliverExtends(inbox: seq<Event>, log: seq<Event>, last: nat, p: Policy)
    requires WellLinked(log) && inbox <= log && last < |log|
    ensures var to := Least(last + 50, |log|);
      Receive(inbox, log[last..to], p) ==
        if last <= |inbox| < to then log[..FirstRefused(p, log, |inbox|, to)] else inbox
  {
    hide Common, Ingest;
    var to := Least(last + BATCH, |log|);
    assert inbox == log[..|inbox|] == inbox[..|inbox|];
    PrefixWellLinked(log, |inbox|);
    CommonOfPrefix(inbox, log, |inbox|);
    IngestSlice(inbox, log, last, to, p);
  }

  /** A push touches its own peer only. */
  lemma PushFrame(net: Net, peer: string, fate: Fate, other: string, p: Policy)
    requires other != peer
    ensures var after := PushOne(net, peer, fate, p);
      Cursor(after, other) == Cursor(net, other) && Inbox(after, other) == Inbox(net, other) && after.log == net.log
  {
  }

  /** An acknowledged push whose batch holds an event, new to the peer, that it refuses. */
  ghost predicate Skips(net: Net, step: Step, peer: string) {
    && step.Push? && step.peer == peer && step.fate == Acked && Cursor(net, peer) < |net.log|
    && exists i :: |Inbox(net, peer)| <= i < Least(Cursor(net, peer) + 50, |net.log|)
                   && !AdmittedAt(step.policy, net.log, i)
  }

  lemma PushKeepsReplica(net: Net, peer: string, fate: Fate, p: Policy)
    requires Good(net)
    ensures Replica(PushOne(net, peer, fate, p), peer)
  {
    assert Replica(net, peer);
    hide Receive, AdmittedAt, Inbox, Cursor, PushOne;
    PushEffect(net, peer, fate, p);
    if Cursor(net, peer) < |net.log| {
      DeliverExtends(Inbox(net, peer), net.log, Cursor(net, peer), p);
    }
  }

  lemma PushCovers(net: Net, peer: string, fate: Fate, p: Policy)
    requires Good(net) && Covered(net, peer)
    ensures Covered(PushOne(net, peer, fate, p), peer) <==> !Skips(net, Push(peer, fate, p), peer)
  {
    assert Replica(net, peer);
    hide Receive, AdmittedAt, Inbox, Cursor, PushOne, WellLinked;
    var last, inbox := Cursor(net, peer), Inbox(net, peer);
    PushEffect(net, peer, fate, p);
    if last < |net.log| {
      var to := Least(last + BATCH, |net.log|);
      DeliverExtends(inbox, net.log, last, p);
      if |inbox| < to {
        assert |net.log[..FirstRefused(p, net.log, |inbox|, to)]| == FirstRefused(p, net.log, |inbox|, to);
      }
    }
  }

  /** One push: it hands over the next fifty events unless it failed, and moves the cursor
      past them only if it was acknowledged. */
  lemma PushEffect(net: Net, peer: string, fate: Fate, p: Policy)
    ensures var after, last := PushOne(net, peer, fate, p), Cursor(net, peer);
      var to := if last + 50 < |net.log| then last + 50 else |net.log|;
      && after.log == net.log
      && Cursor(after, peer) == (if last < |net.log| && fate == Acked then to else last)
      && Inbox(after, peer) == (if last < |net.log| && fate != Failed
                                then Receive(Inbox(net, peer), net.log[last..to], p) else Inbox(net, peer))
  {
  }

  lemma StepKeepsGood(net: Net, step: Step)
    requires Good(net) && Allowed(net, step)
    ensures Good(Apply(net, step))
  {
    hide PushOne;
    var after := Apply(net, step);
    forall peer
      ensures Replica(after, peer)
    {
      assert Replica(net, peer);
      if step.Push? {
        if peer == step.peer {
          PushKeepsReplica(net, peer, step.fate, step.policy);
        } else {
          PushFrame(net, step.peer, step.fate, peer, step.policy);
        }
      }
    }
    if step.Push? {
      PushFrame(net, step.peer, step.fate, step.peer + "'", step.policy);
    }
  }

  lemma StepCovers(net: Net, step: Step, peer: string)
    requires Good(net) && Allowed(net, step) && Covered(net, peer)
    ensures Covered(Apply(net, step), peer) <==> !Skips(net, step, peer)
  {
    hide PushOne;
    if step.Push? {
      if peer == step.peer {
        PushCovers(net, peer, step.fate, step.policy);
      } else {
        PushFrame(net, step.peer, step.fate, peer, step.policy);
      }
    }
  }

  /** At every moment of the run the peer holds everything its cursor has passed. */
  ghost predicate AlwaysCovered(net: Net, steps: seq<Step>, peer: string) {
    steps != [] ==> AlwaysCovered(net, steps[..|steps| - 1], peer) && Covered(Exec(net, steps), peer)
  }

  ghost predicate HasSkip(net: Net, steps: seq<Step>, peer: string) {
    steps != [] &&
    var n := |steps| - 1;
    HasSkip(net, steps[..n], peer) || Skips(Exec(net, steps[..n]), steps[n], peer)
  }

  /** Over every run of appends, pushes with any fate and any policy of the moment, peers
      that catch up and sender restarts, each peer holds exactly a prefix of the log. */
  lemma {:induction false} RunsKeepReplicas(net: Net, steps: seq<Step>)
    requires Good(net) && AllAllowed(net, steps)
    ensures Good(Exec(net, steps))
  {
    hide Good, Allowed, Apply;
    if steps == [] {
      ExecNothing(net);
    } else {
      var n := |steps| - 1;
      RunsKeepReplicas(net, steps[..n]);
      StepKeepsGood(Exec(net, steps[..n]), steps[n]);
    }
  }

  /** And it always holds everything its cursor has passed exactly when no acknowledged push
      carried a new event that the peer refused. */
  lemma {:induction false} CoveredExactlyWithoutSkip(net: Net, steps: seq<Step>, peer: string)
    requires Good(net) && Covered(net, peer) && AllAllowed(net, steps)
    ensures AlwaysCovered(net, steps, peer) <==> !HasSkip(net, steps, peer)
    ensures AlwaysCovered(net, steps, peer) ==> Covered(Exec(net, steps), peer)
  {
    hide Good, Allowed, Apply, Covered, Skips;
    if steps == [] {
      ExecNothing(net);
    } else {
      var n := |steps| - 1;
      var before := Exec(net, steps[..n]);
      CoveredExactlyWithoutSkip(net, steps[..n], peer);
      RunsKeepReplicas(net, steps[..n]);
      if Covered(before, peer) {
        StepCovers(before, steps[n], peer);
      }
    }
  }

  /** A run with a skip: a peer without events refuses the first one, the sender is told 200
      and never sends it again, and everything later is refused with it. */
  lemma {:induction false} RefusedFirstEventIsNeverSentAgain(log: seq<Event>, peer: string, p: Policy,
      later: nat -> Policy,
                                                             pushes: nat)
    requires WellLinked(log) && log != [] && !AdmittedAt(p, log, 0)
    ensures var net := Refused(log, peer, p, later, pushes);
      Cursor(net, peer) > 0 && Inbox(net, peer) == [] && net.log == log
    decreases pushes
  {
    hide Receive;
    if pushes == 0 {
      DeliverExtends([], log, 0, p);
    } else {
      RefusedFirstEventIsNeverSentAgain(log, peer, p, later, pushes - 1);
      var before := Refused(log, peer, p, later, pushes - 1);
      if Cursor(before, peer) < |log| {
        DeliverExtends([], log, Cursor(before, peer), later(pushes));
      }
    }
  }

  /** One acknowledged push that the peer judges by `p`, and any number of later ones. */
  function Refused(log: seq<Event>, peer: string, p: Policy, later: nat -> Policy, pushes: nat): Net {
    if pushes == 0 then PushOne(Net(log, map[], map[]), peer, Acked, p)
    else PushOne(Refused(log, peer, p, later, pushes - 1), peer, Acked, later(pushes))
  }

  // ---------------------------------------------------------------- progress

  predicate AckedFor(step: Step, peer: string) {
    step.Push? && step.peer == peer && step.fate == Acked
  }

  function Acks(steps: seq<Step>, peer: string): nat {
    if steps == [] then 0
    else Acks(steps[..|steps| - 1], peer) + (if AckedFor(steps[|steps| - 1], peer) then 1 else 0)
  }

  lemma CursorStep(net: Net, step: Step, peer: string)
    requires !step.Restart?
    ensures var last := Cursor(net, peer);
      Cursor(Apply(net, step), peer)
        == (if AckedFor(step, peer) && last < |net.log| then Least(last + BATCH, |net.log|) else last)
    ensures !step.Reset? ==> |net.log| <= |Apply(net, step).log|
  {
  }

  /** Each acknowledged push moves its own cursor by a whole batch or to the end of the
      log; losses, other peers and appends in between cost nothing. */
  lemma {:induction false} AcksMoveTheCursor(net: Net, steps: seq<Step>, peer: string)
    requires NoRestart(steps) && NoReset(steps) && Cursor(net, peer) <= |net.log|
    ensures var end := Exec(net, steps);
      && |net.log| <= |end.log|
      && Least(|net.log|, Cursor(net, peer) + 50 * Acks(steps, peer)) <= Cursor(end, peer)
      && Cursor(end, peer) <= Least(|end.log|, Cursor(net, peer) + 50 * Acks(steps, peer))
  {
    hide Apply, Cursor;
    if steps == [] {
    } else {
      var n := |steps| - 1;
      assert !steps[n].Restart? && !steps[n].Reset?;
      AcksMoveTheCursor(net, steps[..n], peer);
      CursorStep(Exec(net, steps[..n]), steps[n], peer);
    }
  }

  /** Ceil((|log| - cursor) / 50) acknowledged rounds bring the cursor past the whole log the
      run started with, and the peer with it unless one of them skipped. */
  lemma EnoughAcksReplicateAll(net: Net, steps: seq<Step>, peer: string)
    requires Good(net) && Covered(net, peer) && AllAllowed(net, steps) && NoRestart(steps)
    requires Acks(steps, peer) >= (|net.log| - Cursor(net, peer) + 50 - 1) / 50
    ensures var end := Exec(net, steps);
      && Cursor(end, peer) >= |net.log| && Inbox(end, peer) <= end.log
      && (!HasSkip(net, steps, peer) ==> |Inbox(end, peer)| >= |net.log|)
  {
    hide Exec, Cursor, Inbox, Acks, HasSkip, AlwaysCovered;
    assert Replica(net, peer);
    RunsKeepReplicas(net, steps);
    NoResetWhenAllowed(net, steps);
    AcksMoveTheCursor(net, steps, peer);
    CoveredExactlyWithoutSkip(net, steps, peer);
    assert Replica(Exec(net, steps), peer);
  }

  lemma {:induction false} NoResetWhenAllowed(net: Net, steps: seq<Step>)
    requires AllAllowed(net, steps)
    ensures NoReset(steps)
  {
    if steps == [] {
    } else {
      var n := |steps| - 1;
      NoResetWhenAllowed(net, steps[..n]);
      assert forall i :: 0 <= i < n ==> steps[..n][i] == steps[i];
    }
  }

  // ---------------------------------------------------------------- what is handed over

  /** Log position `i` is in a batch that reaches the peer during the run. */
  ghost predicate Handed(net: Net, steps: seq<Step>, peer: string, i: nat) {
    steps != [] &&
    var n := |steps| - 1;
    Handed(net, steps[..n], peer, i) || HandedNow(Exec(net, steps[..n]), steps[n], peer, i)
  }

  predicate HandedNow(net: Net, step: Step, peer: string, i: nat) {
    && step.Push? && step.peer == peer && step.fate != Failed
    && Cursor(net, peer) <= i < Least(Cursor(net, peer) + 50, |net.log|)
  }

  /** Between sender restarts, and even across chain resets: positions below the starting
      cursor are never handed over, and every position the cursor has passed since was. */
  lemma {:induction false} HandedFromTheCursorOn(net: Net, steps: seq<Step>, peer: string, i: nat)
    requires NoRestart(steps)
    ensures var end := Cursor(Exec(net, steps), peer);
      && Cursor(net, peer) <= end
      && (Handed(net, steps, peer, i) ==> Cursor(net, peer) <= i)
      && (Cursor(net, peer) <= i < end ==> Handed(net, steps, peer, i))
  {
    hide Apply, Cursor;
    if steps == [] {
    } else {
      var n := |steps| - 1;
      assert !steps[n].Restart?;
      HandedFromTheCursorOn(net, steps[..n], peer, i);
      CursorStep(Exec(net, steps[..n]), steps[n], peer);
    }
  }

  /** `reset_chain` leaves the cursors alone, so of the log that is rebuilt afterwards the
      first `cursor` events are not pushed to that peer until the sender restarts. */
  lemma ResetStrandsTheFirstEvents(net: Net, steps: seq<Step>, peer: string, i: nat)
    requires NoRestart(steps) && i < Cursor(net, peer)
    ensures !Handed(Apply(net, Reset), steps, peer, i)
  {
    HandedFromTheCursorOn(Apply(net, Reset), steps, peer, i);
  }

  ghost predicate Holds(chain: seq<Event>, log: seq<Event>, from: nat, to: nat)
    requires to <= |log|
  {
    forall i :: from <= i < to ==> Contains(chain, log[i].eventId)
  }

  lemma InboxHolds(inbox: seq<Event>, log: seq<Event>, from: nat, to: nat)
    requires WellLinked(inbox) && WellLinked(log) && from < to <= |log|
    ensures Holds(inbox, log, from, to) <==> to <= Common(inbox, log)
  {
    hide Common, Contains;
    forall i | from <= i < to
      ensures Contains(inbox, log[i].eventId) <==> i < Common(inbox, log)
    {
      SharedIdsSwapped(inbox, log, i);
    }
    assert Holds(inbox, log, from, to) ==> Contains(inbox, log[to - 1].eventId);
  }

  lemma PrefixHolds(log: seq<Event>, stop: nat, from: nat, to: nat)
    requires WellLinked(log) && from < to <= |log| && stop <= |log|
    ensures Holds(log[..stop], log, from, to) <==> to <= stop
  {
    PrefixWellLinked(log, stop);
    InboxHolds(log[..stop], log, from, to);
    CommonOfPrefix(log[..stop], log, stop);
  }

  /** The cursor moves on any 200, whatever the peer's ingest made of the batch. For a peer
      with any chain and any policy, the batch is fully held afterwards exactly when it lies
      in the shared prefix, or the peer's whole chain is shared and reaches the batch, and
      the peer admits everything from its own end to the end of the batch. */
  lemma AckedBatchIsHeldExactlyWhen(inbox: seq<Event>, log: seq<Event>, last: nat, p: Policy)
    requires WellLinked(inbox) && WellLinked(log) && last < |log|
    ensures var to := Least(last + 50, |log|);
      Holds(Receive(inbox, log[last..to], p), log, last, to) <==>
        || to <= Common(inbox, log)
        || (Common(inbox, log) == |inbox| && last <= |inbox| && forall i :: |inbox| <= i < to ==> AdmittedAt(p, log, i))
  {
    hide Ingest, Common, Holds, AdmittedAt;
    var to := Least(last + BATCH, |log|);
    var c := Common(inbox, log);
    IngestSlice(inbox, log, last, to, p);
    if c == |inbox| && last <= c < to {
      PrefixHolds(log, FirstRefused(p, log, c, to), last, to);
    } else {
      InboxHolds(inbox, log, last, to);
    }
  }
}
