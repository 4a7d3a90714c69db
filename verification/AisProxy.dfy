/** The reconnect and degraded-TLS machine of the AIS proxy (backend/ais_proxy.js): sockets,
    reconnect timers and certificate probes, driven by events in any order. */
module AisProxy {

  /** `validating` is false for the sockets that skip certificate validation. */
  datatype Socket = Socket(validating: bool, isOpen: bool)

  datatype Active = NoSocket | Active(id: nat)

  /** Sockets that have not closed, `connect` calls waiting on a timer, and sockets whose
      expired certificate is being probed. */
  datatype State = State(live: map<nat, Socket>, nextId: nat, timers: nat, probes: seq<nat>, active: Active,
                         degradedMode: bool)

  datatype Event =
    | Open(id: nat)
    | Error(id: nat, expired: bool)
    | Close(id: nat)
    | Verdict(probe: nat, matches: bool)
    | TimerFires

  function Attach(s: State, validating: bool): State {
    s.(live := s.live[s.nextId := Socket(validating, false)], nextId := s.nextId + 1, active := Active(s.nextId))
  }

  /** The first `connect()`. */
  const START := Attach(State(map[], 0, 0, [], NoSocket, false), true)

  predicate Enabled(s: State, e: Event) {
    match e
    case Open(id) => id in s.live && !s.live[id].isOpen
    case Error(id, _) => id in s.live
    case Close(id) => id in s.live
    case Verdict(probe, _) => probe < |s.probes|
    case TimerFires => s.timers > 0
  }

  function Apply(s: State, e: Event): State
    requires Enabled(s, e)
  {
    match e
    case Open(id) => s.(live := s.live[id := s.live[id].(isOpen := true)], degradedMode := !s.live[id].validating)
    case Error(id, expired) =>
      if expired && s.live[id].validating && !s.live[id].isOpen then s.(probes := s.probes + [id]) else s
    case Close(id) => s.(live := s.live - {id}, active := NoSocket, timers := s.timers + 1)
    case Verdict(probe, matches) =>
      var rest := s.(probes := s.probes[..probe] + s.probes[probe + 1..]);
      if matches then Attach(rest, false) else rest.(timers := rest.timers + 1)
    case TimerFires => Attach(s.(timers := s.timers - 1), true)
  }

  // ---------------------------------------------------------------- the event handlers

  class Proxy {
    var live: map<nat, Socket>
    var nextId: nat
    var timers: nat
    var probes: seq<nat>
    var activeWs: Active
    var aisDegradedMode: bool

    function View(): State
      reads this
    {
      State(live, nextId, timers, probes, activeWs, aisDegradedMode)
    }

    constructor ()
      ensures View() == START
    {
      live, nextId, timers, probes, activeWs, aisDegradedMode := map[], 0, 0, [], NoSocket, false;
      new;
      Connect();
    }

    method Connect()
      modifies this
      ensures View() == Attach(old(View()), true)
    {
      var ws := NewSocket(true);
      AttachWsHandlers(ws);
    }

    method NewSocket(validating: bool) returns (ws: nat)
      modifies this
      ensures ws == old(nextId)
      ensures View() == old(View()).(live := old(live)[ws := Socket(validating, false)], nextId := ws + 1)
    {
      ws := nextId;
      live := live[ws := Socket(validating, false)];
      nextId := nextId + 1;
    }

    method AttachWsHandlers(ws: nat)
      modifies this
      ensures View() == old(View()).(active := Active(ws))
    {
      activeWs := Active(ws);
    }

    method OnOpen(ws: nat)
      requires Enabled(View(), Open(ws))
      modifies this
      ensures View() == Apply(old(View()), Open(ws))
    {
      var degraded := !live[ws].validating;
      live := live[ws := live[ws].(isOpen := true)];
      if degraded {
        aisDegradedMode := true;
      } else {
        aisDegradedMode := false;
      }
    }

    method OnError(ws: nat, expired: bool)
      requires Enabled(View(), Error(ws, expired))
      modifies this
      ensures View() == Apply(old(View()), Error(ws, expired))
    {
      var openedOk := live[ws].isOpen;
      if live[ws].validating && !openedOk && expired {
        probes := probes + [ws];
      }
    }

    method OnVerdict(probe: nat, matches: bool)
      requires Enabled(View(), Verdict(probe, matches))
      modifies this
      ensures View() == Apply(old(View()), Verdict(probe, matches))
    {
      probes := probes[..probe] + probes[probe + 1..];
      if matches {
        var insecureWs := NewSocket(false);
        AttachWsHandlers(insecureWs);
      } else {
        timers := timers + 1;
      }
    }

    method OnClose(ws: nat)
      requires Enabled(View(), Close(ws))
      modifies this
      ensures View() == Apply(old(View()), Close(ws))
    {
      live := live - {ws};
      activeWs := NoSocket;
      timers := timers + 1;
    }

    method OnTimer()
      requires Enabled(View(), TimerFires)
      modifies this
      ensures View() == Apply(old(View()), TimerFires)
    {
      timers := timers - 1;
      Connect();
    }
  }

  // ---------------------------------------------------------------- runs

  /** A sequence of events each of which can happen when it does. */
  ghost predicate IsRun(events: seq<Event>) {
    events != [] ==>
      var n := |events| - 1;
      IsRun(events[..n]) && Enabled(Exec(events[..n]), events[n])
  }

  function Exec(events: seq<Event>): State {
    if events == [] then START
    else
      var s, e := Exec(events[..|events| - 1]), events[|events| - 1];
      if Enabled(s, e) then Apply(s, e) else s
  }

  function Verdicts(events: seq<Event>): nat {
    if events == [] then 0
    else Verdicts(events[..|events| - 1]) + (if events[|events| - 1].Verdict? then 1 else 0)
  }

  ghost predicate IdsAreOld(s: State) {
    (forall id :: id in s.live ==> id < s.nextId) && (s.active.Active? ==> s.active.id in s.live)
  }

  lemma StepCounts(s: State, e: Event)
    requires IdsAreOld(s) && Enabled(s, e)
    ensures IdsAreOld(Apply(s, e))
    ensures |Apply(s, e).live| + Apply(s, e).timers == |s.live| + s.timers + (if e.Verdict? then 1 else 0)
  {
  }

  /** The counting law of every run: sockets plus pending reconnects are one more than the
      completed verdicts. So there is always something open or scheduled; and the active
      socket, if there is one, is open. */
  lemma {:induction false} Conservation(events: seq<Event>)
    requires IsRun(events)
    ensures var s := Exec(events);
      IdsAreOld(s) && |s.live| + s.timers == 1 + Verdicts(events)
  {
    if events == [] {
      assert START.live.Keys == {0};
    } else {
      hide Apply, Enabled, IdsAreOld;
      var n := |events| - 1;
      Conservation(events[..n]);
      StepCounts(Exec(events[..n]), events[n]);
    }
  }

  /** The proxy keeps to a single connection exactly as long as no verdict has completed:
      each verdict, matching or not, adds a chain of reconnects of its own. */
  lemma SingleConnectionExactlyWithoutVerdict(events: seq<Event>)
    requires IsRun(events)
    ensures |Exec(events).live| + Exec(events).timers == 1 <==> Verdicts(events) == 0
  {
    Conservation(events);
  }

  // ---------------------------------------------------------------- degraded mode

  /** The mode of the socket that opened last. */
  function LastOpenedDegraded(events: seq<Event>): bool {
    if events == [] then false
    else
      var n := |events| - 1;
      var s := Exec(events[..n]);
      if events[n].Open? && Enabled(s, events[n]) then !s.live[events[n].id].validating
      else LastOpenedDegraded(events[..n])
  }

  /** The reported mode is the mode of the last socket that opened. */
  lemma {:induction false} ReportedModeIsLastOpened(events: seq<Event>)
    requires IsRun(events)
    ensures Exec(events).degradedMode == LastOpenedDegraded(events)
  {
    if events == [] {
    } else {
      ReportedModeIsLastOpened(events[..|events| - 1]);
    }
  }

  /** Event `i` is a validating socket's failure with an expired certificate before it opened. */
  ghost predicate ExpiredBeforeOpen(events: seq<Event>, i: nat, id: nat) {
    && i < |events| && events[i] == Error(id, true)
    && var s := Exec(events[..i]);
    id in s.live && s.live[id].validating && !s.live[id].isOpen
  }

  lemma ExpiredInPrefix(events: seq<Event>, n: nat, i: nat, id: nat)
    requires n <= |events| && ExpiredBeforeOpen(events[..n], i, id)
    ensures ExpiredBeforeOpen(events, i, id)
  {
    assert events[..n][..i] == events[..i];
  }

  /** Where the probes after an event come from. */
  lemma ProbesAfter(s: State, e: Event, k: nat)
    requires Enabled(s, e) && k < |Apply(s, e).probes|
    ensures if e.Error? && k == |s.probes|
      then
        && e.expired && Apply(s, e).probes[k] == e.id
        && e.id in s.live && s.live[e.id].validating && !s.live[e.id].isOpen
      else var was := if e.Verdict? && k >= e.probe then k + 1 else k;
        was < |s.probes| && Apply(s, e).probes[k] == s.probes[was]
  {
  }

  lemma {:induction false} ProbeOrigin(events: seq<Event>, k: nat) returns (i: nat)
    requires IsRun(events) && k < |Exec(events).probes|
    ensures ExpiredBeforeOpen(events, i, Exec(events).probes[k])
  {
    var n := |events| - 1;
    var s, e := Exec(events[..n]), events[n];
    ProbesAfter(s, e, k);
    hide Exec, Apply, Enabled;
    if e.Error? && k == |s.probes| {
      i := n;
    } else {
      i := ProbeOrigin(events[..n], if e.Verdict? && k >= e.probe then k + 1 else k);
      ExpiredInPrefix(events, n, i, Exec(events).probes[k]);
    }
  }

  /** Every event, in terms of sockets, timers and probes. */
  lemma EventEffects(s: State, e: Event)
    requires Enabled(s, e) && IdsAreOld(s)
    ensures var t := Apply(s, e);
      && (e.Open? ==> t.live[e.id].isOpen && t.degradedMode == !s.live[e.id].validating)
      && (!e.Open? ==> t.degradedMode == s.degradedMode)
      && (e.Close? ==> e.id !in t.live && t.timers == s.timers + 1)
      && (e.Error? && e.expired && s.live[e.id].validating && !s.live[e.id].isOpen ==> t.probes == s.probes + [e.id])
      && (e.Error? && !(e.expired && s.live[e.id].validating && !s.live[e.id].isOpen) ==> t == s)
      && (e.Verdict? ==> t.probes == s.probes[..e.probe] + s.probes[e.probe + 1..])
      && (e.Verdict? && e.matches ==>
            t.live == s.live[s.nextId := Socket(false, false)] && t.active == Active(s.nextId) && t.timers == s.timers)
      && (e.Verdict? && !e.matches ==> t.live == s.live && t.timers == s.timers + 1)
      && (e.TimerFires? ==>
            && t.live == s.live[s.nextId := Socket(true, false)] && t.active == Active(s.nextId)
            && t.timers == s.timers - 1)
  {
  }

  /** Whether a socket validates certificates is decided by what created it: exactly those
      opened after a matching verdict do not. */
  lemma ModeExactlyByCreation(events: seq<Event>, e: Event)
    requires IsRun(events) && Enabled(Exec(events), e)
    requires Apply(Exec(events), e).nextId > Exec(events).nextId
    ensures var id := Exec(events).nextId;
      var t := Apply(Exec(events), e);
      id in t.live && (!t.live[id].validating <==> e.Verdict? && e.matches)
  {
  }

  /** Once created, a socket's mode never changes. */
  lemma ModeStays(s: State, e: Event, id: nat)
    requires Enabled(s, e) && IdsAreOld(s) && id in s.live && id in Apply(s, e).live
    ensures Apply(s, e).live[id].validating == s.live[id].validating
  {
  }

  /** Where the sockets that skip validation come from. */
  lemma InsecureAfter(s: State, e: Event, id: nat)
    requires Enabled(s, e) && id in Apply(s, e).live && !Apply(s, e).live[id].validating
    ensures if e.Verdict? && e.matches && id == s.nextId then e.probe < |s.probes|
      else id in s.live && !s.live[id].validating
  {
  }

  /** Degraded mode is safe: a socket that skips validation exists only because the
      certificate of an earlier socket had expired before that socket opened, and the probe
      for it then matched a pinned key. */
  lemma {:induction false} InsecureOnlyAfterMatch(events: seq<Event>, id: nat) returns (i: nat, j: nat, failed: nat)
    requires IsRun(events) && id in Exec(events).live && !Exec(events).live[id].validating
    ensures i < j < |events| && ExpiredBeforeOpen(events, i, failed)
    ensures events[j].Verdict? && events[j].matches
    ensures var s := Exec(events[..j]);
      s.nextId == id && events[j].probe < |s.probes| && s.probes[events[j].probe] == failed
  {
    assert events != [];
    var n := |events| - 1;
    var s, e := Exec(events[..n]), events[n];
    InsecureAfter(s, e, id);
    hide Exec, Apply, Enabled, ExpiredBeforeOpen;
    if e.Verdict? && e.matches && id == s.nextId {
      j := n;
      failed := s.probes[e.probe];
      i := ProbeOrigin(events[..n], e.probe);
      ExpiredInPrefix(events, n, i, failed);
    } else {
      i, j, failed := InsecureOnlyAfterMatch(events[..n], id);
      ExpiredInPrefix(events, n, i, failed);
      assert events[..n][..j] == events[..j];
    }
  }

  // ---------------------------------------------------------------- the active socket

  /** No socket has closed since the last one was attached. */
  function AttachedSinceClose(events: seq<Event>): bool {
    if events == [] then true
    else
      match events[|events| - 1]
      case Close(_) => false
      case TimerFires => true
      case Verdict(_, matches) => matches || AttachedSinceClose(events[..|events| - 1])
      case _ => AttachedSinceClose(events[..|events| - 1])
  }

  /** Any close, of whichever socket, clears the active one: subscription updates from the
      map reach a socket exactly when nothing has closed since the last attachment. */
  lemma {:induction false} ActiveExactlyWhen(events: seq<Event>)
    requires IsRun(events)
    ensures Exec(events).active.Active? <==> AttachedSinceClose(events)
  {
    if events == [] {
    } else {
      ActiveExactlyWhen(events[..|events| - 1]);
    }
  }

  // ---------------------------------------------------------------- an upstream that stays expired

  /** What happens on each reconnect while the certificate stays expired and pinned. */
  function ExpiredCycle(s: State): seq<Event>
    requires s.nextId > 0
  {
    [Error(s.nextId - 1, true), Close(s.nextId - 1), Verdict(0, true), Open(s.nextId), TimerFires]
  }

  function Cycles(n: nat): (events: seq<Event>) {
    if n == 0 then []
    else
      var before := Cycles(n - 1);
      var s := Exec(before);
      before + if s.nextId > 0 then ExpiredCycle(s) else []
  }

  ghost predicate Retrying(s: State, n: nat) {
    && s.nextId > 0 && s.timers == 0 && s.probes == [] && IdsAreOld(s)
    && s.nextId - 1 in s.live && s.live[s.nextId - 1] == Socket(true, false)
    && |s.live| == n + 1
  }

  /** Every such reconnect leaves one more degraded socket open behind it: after `n` of
      them there are `n + 1` sockets. */
  lemma {:induction false} SocketsPileUp(n: nat)
    ensures IsRun(Cycles(n)) && Retrying(Exec(Cycles(n)), n)
  {
    hide Exec, IsRun, Retrying, ExpiredCycle, Cycles;
    if n == 0 {
      StartRetries();
    } else {
      SocketsPileUp(n - 1);
      RetryingHasSocket(Exec(Cycles(n - 1)), n - 1);
      CyclesOneMore(n);
      OneCycle(Cycles(n - 1), n - 1);
    }
  }

  lemma CyclesOneMore(n: nat)
    requires n > 0 && Exec(Cycles(n - 1)).nextId > 0
    ensures Cycles(n) == Cycles(n - 1) + ExpiredCycle(Exec(Cycles(n - 1)))
  {
  }

  lemma StartRetries()
    ensures IsRun(Cycles(0)) && Retrying(Exec(Cycles(0)), 0)
  {
    assert START.live.Keys == {0};
  }

  lemma RetryingHasSocket(s: State, n: nat)
    requires Retrying(s, n)
    ensures s.nextId > 0
  {
  }

  lemma OneCycle(events: seq<Event>, n: nat)
    requires IsRun(events) && Retrying(Exec(events), n)
    ensures var more := events + ExpiredCycle(Exec(events)); IsRun(more) && Retrying(Exec(more), n + 1)
  {
    hide Exec, IsRun, Apply, Enabled, Retrying;
    var s := Exec(events);
    var e, s1, s2, s3, s4 := CycleSteps(s, n);
    var r1 := OneMore(events, e[0]);
    var r2 := OneMore(r1, e[1]);
    var r3 := OneMore(r2, e[2]);
    var r4 := OneMore(r3, e[3]);
    var r5 := OneMore(r4, e[4]);
    FiveMore(events, e);
  }

  lemma CycleSteps(s: State, n: nat) returns (e: seq<Event>, s1: State, s2: State, s3: State, s4: State)
    requires Retrying(s, n)
    ensures s.nextId > 0 && e == ExpiredCycle(s) && |e| == 5
    ensures Enabled(s, e[0]) && s1 == Apply(s, e[0]) && Enabled(s1, e[1]) && s2 == Apply(s1, e[1])
    ensures Enabled(s2, e[2]) && s3 == Apply(s2, e[2]) && Enabled(s3, e[3]) && s4 == Apply(s3, e[3])
    ensures Enabled(s4, e[4]) && Retrying(Apply(s4, e[4]), n + 1)
  {
    FailedOnce(s, n);
    hide IdsAreOld, Retrying, Failed;
    e := ExpiredCycle(s);
    s1 := Apply(s, e[0]);
    s2 := Apply(s1, e[1]);
    BackToRetrying(s, s2, n);
    s3 := Apply(s2, e[2]);
    s4 := Apply(s3, e[3]);
  }

  lemma OneMore(events: seq<Event>, e: Event) returns (more: seq<Event>)
    requires IsRun(events) && Enabled(Exec(events), e)
    ensures more == events + [e] && IsRun(more) && Exec(more) == Apply(Exec(events), e)
  {
    more := events + [e];
    assert more[..|events|] == events;
  }

  lemma FiveMore(events: seq<Event>, e: seq<Event>)
    requires |e| == 5
    ensures events + [e[0]] + [e[1]] + [e[2]] + [e[3]] + [e[4]] == events + e
  {
  }

  lemma FailedOnce(s: State, n: nat)
    requires Retrying(s, n)
    ensures var id := s.nextId - 1;
      && Enabled(s, Error(id, true)) && Enabled(Apply(s, Error(id, true)), Close(id))
      && Failed(s, Apply(Apply(s, Error(id, true)), Close(id)))
  {
  }

  /** `t` is `s` with its newest socket gone and probed, and a reconnect pending. */
  ghost predicate Failed(s: State, t: State) {
    && s.nextId > 0
    && t == State(s.live - {s.nextId - 1}, s.nextId, s.timers + 1, [s.nextId - 1], NoSocket, s.degradedMode)
  }

  lemma BackToRetrying(s: State, t: State, n: nat)
    requires Retrying(s, n) && Failed(s, t)
    ensures Enabled(t, Verdict(0, true))
    ensures var u := Apply(t, Verdict(0, true));
      && Enabled(u, Open(s.nextId)) && Enabled(Apply(u, Open(s.nextId)), TimerFires)
      && Retrying(Apply(Apply(u, Open(s.nextId)), TimerFires), n + 1)
  {
  }
}
