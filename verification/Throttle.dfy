/** The per-identity message throttle (`_check_throttle` in backend/main.py). Its entries
    live in a cache that forgets them a day after they were created, whatever was written
    into them since, or earlier when the cache is full. */
module Throttle {

  const TTL: real := 86400.0

  datatype Entry = Entry(lastSend: real, dailyCount: nat, dailyReset: real, firstSeen: real)

  datatype Slot = Absent | Present(entry: Entry)

  /** `reputation` and `ledgerAgeHours` are what the reputation ledger says, zero when it
      fails; `meshtastic` is the transport lock that loosens the interval. */
  datatype Call = Call(now: real, emergency: bool, meshtastic: bool, reputation: real, ledgerAgeHours: real)

  datatype Tier = Tier(interval: real, dailyCap: nat)

  function Most(a: real, b: real): real {
    if a < b then b else a
  }

  function TierOf(reputation: real, ageHours: real, meshtastic: bool): Tier {
    var t :=
      if reputation >= 20.0 || ageHours >= 168.0 then Tier(30.0, 200)
      else if reputation >= 5.0 || ageHours >= 48.0 then Tier(120.0, 75)
      else Tier(300.0, 15);
    if meshtastic && t.interval > 30.0 then t.(interval := 30.0) else t
  }

  function NewEntry(now: real): Entry {
    Entry(0.0, 0, now, now)
  }

  /** The cache lookup: an entry of a day or more is gone. */
  function Lookup(slot: Slot, now: real): Slot {
    if slot.Present? && now - slot.entry.firstSeen < TTL then slot else Absent
  }

  function AfterReset(e: Entry, now: real): Entry {
    if now - e.dailyReset > 86400.0 then e.(dailyCount := 0, dailyReset := now) else e
  }

  function CallTier(e: Entry, c: Call): Tier {
    TierOf(c.reputation, Most((c.now - e.firstSeen) / 3600.0, c.ledgerAgeHours), c.meshtastic)
  }

  datatype Decision = Decision(entry: Entry, granted: bool)

  /** The decision on a non-emergency message, given the entry found or just created. */
  function Decide(found: Entry, c: Call): Decision {
    var e := AfterReset(found, c.now);
    var t := CallTier(e, c);
    if e.dailyCount >= t.dailyCap then Decision(e, false)
    else if c.now - e.lastSend < t.interval then Decision(e, false)
    else Decision(e.(lastSend := c.now, dailyCount := e.dailyCount + 1), true)
  }

  function EntryFor(slot: Slot, now: real): Entry {
    var found := Lookup(slot, now);
    if found.Present? then found.entry else NewEntry(now)
  }

  class NodeThrottle {
    var entries: map<string, Entry>

    constructor ()
      ensures entries == map[]
    {
      entries := map[];
    }

    function SlotOf(node: string): Slot
      reads this
    {
      if node in entries then Present(entries[node]) else Absent
    }

    method CheckThrottle(node: string, c: Call) returns (granted: bool)
      modifies this
      ensures c.emergency ==> granted && entries == old(entries)
      ensures !c.emergency ==>
        var d := Decide(EntryFor(old(SlotOf(node)), c.now), c);
        granted == d.granted && entries == old(entries)[node := d.entry]
    {
      if c.emergency {
        return true;
      }
      var state := if node in entries && c.now - entries[node].firstSeen < TTL then entries[node] else NewEntry(c.now);
      if c.now - state.dailyReset > 86400.0 {
        state := state.(dailyCount := 0, dailyReset := c.now);
      }
      entries := entries[node := state];
      var tier := TierOf(c.reputation, Most((c.now - state.firstSeen) / 3600.0, c.ledgerAgeHours), c.meshtastic);
      if state.dailyCount >= tier.dailyCap {
        return false;
      }
      var elapsed := c.now - state.lastSend;
      if elapsed < tier.interval {
        return false;
      }
      entries := entries[node := state.(lastSend := c.now, dailyCount := state.dailyCount + 1)];
      return true;
    }
  }

  // ---------------------------------------------------------------- branches that a day-long cache makes idle

  /** An entry the cache still holds, as all of them are made by `NewEntry` and `Decide`. */
  ghost predicate Sound(e: Entry) {
    e.dailyReset == e.firstSeen
  }

  /** The cache forgets an entry before its daily reset is due: the reset never fires. */
  lemma DailyResetNeverFires(slot: Slot, now: real)
    requires slot.Present? ==> Sound(slot.entry)
    ensures var e := EntryFor(slot, now); AfterReset(e, now) == e && Sound(e)
  {}

  /** Nor does a node's time in the cache ever raise its tier: only the ledger's age can. */
  lemma CacheAgeNeverPromotes(slot: Slot, c: Call)
    ensures CallTier(EntryFor(slot, c.now), c) == OwnTier(c)
  {}

  function OwnTier(c: Call): Tier {
    TierOf(c.reputation, c.ledgerAgeHours, c.meshtastic)
  }

  /** The decision in numbers. Trusted are nodes with reputation 20 or a week in the ledger,
      established those with reputation 5 or two days; the rest are new. */
  lemma GrantedExactlyWhen(slot: Slot, c: Call)
    requires slot.Present? ==> Sound(slot.entry)
    ensures var trusted := c.reputation >= 20.0 || c.ledgerAgeHours >= 168.0;
      var established := c.reputation >= 5.0 || c.ledgerAgeHours >= 48.0;
      var cap := if trusted then 200 else if established then 75 else 15;
      var interval := if trusted || c.meshtastic then 30.0 else if established then 120.0 else 300.0;
      var alive := slot.Present? && c.now - slot.entry.firstSeen < 86400.0;
      var e := if alive then slot.entry else Entry(0.0, 0, c.now, c.now);
      var d := Decide(EntryFor(slot, c.now), c);
      && (d.granted <==> e.dailyCount < cap && c.now - e.lastSend >= interval)
      && d.entry == if d.granted then e.(lastSend := c.now, dailyCount := e.dailyCount + 1) else e
  {
    CacheAgeNeverPromotes(slot, c);
    DailyResetNeverFires(slot, c.now);
  }

  // ---------------------------------------------------------------- runs of one node

  /** `Evict` is the full cache dropping the entry. */
  datatype Step = Ask(call: Call) | Evict

  /** A granted message: when, in which lifetime of the entry, and as which of that lifetime. */
  datatype Grant = Grant(time: real, life: nat, nth: nat)

  datatype History = History(slot: Slot, life: nat, clock: real, grants: seq<Grant>)

  const START := History(Absent, 0, 0.0, [])

  function Apply(h: History, step: Step): History {
    match step
    case Evict => h.(slot := Absent)
    case Ask(c) =>
      if c.emergency then h
      else
        var life := if Lookup(h.slot, c.now).Present? then h.life else h.life + 1;
        var found := EntryFor(h.slot, c.now);
        var d := Decide(found, c);
        History(Present(d.entry), life, c.now,
                if d.granted then h.grants + [Grant(c.now, life, AfterReset(found, c.now).dailyCount)] else h.grants)
  }

  function Exec(steps: seq<Step>): History {
    if steps == [] then START else Apply(Exec(steps[..|steps| - 1]), steps[|steps| - 1])
  }

  lemma ExecOneMore(steps: seq<Step>, last: Step)
    ensures Exec(steps + [last]) == Apply(Exec(steps), last)
  {
  }

  /** The clock never goes back, and every call is judged by a tier with at least this
      interval and at most this cap. */
  ghost predicate Within(steps: seq<Step>, interval: real, cap: nat) {
    steps != [] ==>
      var n := |steps| - 1;
      && Within(steps[..n], interval, cap)
      && (steps[n].Ask? && !steps[n].call.emergency ==>
            CallWithin(Exec(steps[..n]).clock, steps[n].call, interval, cap))
  }

  predicate CallWithin(clock: real, c: Call, interval: real, cap: nat) {
    c.now >= clock && OwnTier(c).interval >= interval && OwnTier(c).dailyCap <= cap
  }

  /** Thirty seconds and two hundred a day hold for every tier, with or without the loosened
      transport. */
  lemma EveryTierIsWithin(c: Call)
    ensures CallWithin(c.now, c, 30.0, 200)
  {}

  // ---------------------------------------------------------------- the invariant of all runs

  /** The entry knows the grants of its own lifetime: how many, and when the last was. */
  ghost predicate EntryFits(h: History) {
    h.slot.Present? ==>
      var e := h.slot.entry;
      && Sound(e) && e.dailyCount <= |h.grants|
      && (forall i :: 0 <= i < |h.grants| ==> (h.grants[i].life == h.life <==> i >= |h.grants| - e.dailyCount))
      && (e.dailyCount > 0 ==> e.lastSend == h.grants[|h.grants| - 1].time)
  }

  ghost predicate GrantsFit(h: History, interval: real, cap: nat) {
    && (forall i :: 0 <= i < |h.grants| ==>
          h.grants[i].life <= h.life && h.grants[i].nth < cap && h.grants[i].nth <= i && h.grants[i].time <= h.clock)
    && (forall i :: 0 <= i < |h.grants| - 1 ==> Follows(h.grants[i], h.grants[i + 1], interval))
    && (h.slot.Present? && h.slot.entry.dailyCount > 0 ==>
          h.grants != [] && h.grants[|h.grants| - 1].nth == h.slot.entry.dailyCount - 1)
  }

  /** Two grants in a row: within a lifetime they are counted up and spaced. */
  predicate Follows(a: Grant, b: Grant, interval: real) {
    && a.time <= b.time && a.life <= b.life
    && (a.life == b.life ==> b.nth == a.nth + 1 && b.time - a.time >= interval)
  }

  lemma AskKeepsFit(h: History, c: Call, interval: real, cap: nat)
    requires EntryFits(h) && GrantsFit(h, interval, cap) && CallWithin(h.clock, c, interval, cap) && !c.emergency
    ensures EntryFits(Apply(h, Ask(c))) && GrantsFit(Apply(h, Ask(c)), interval, cap)
  {
    AskKeepsEntryFit(h, c, interval, cap);
    AskKeepsGrantsFit(h, c, interval, cap);
  }

  lemma AskKeepsEntryFit(h: History, c: Call, interval: real, cap: nat)
    requires EntryFits(h) && GrantsFit(h, interval, cap) && CallWithin(h.clock, c, interval, cap) && !c.emergency
    ensures EntryFits(Apply(h, Ask(c)))
  {
    hide CallTier;
    DailyResetNeverFires(h.slot, c.now);
  }

  lemma AskKeepsGrantsFit(h: History, c: Call, interval: real, cap: nat)
    requires EntryFits(h) && GrantsFit(h, interval, cap) && CallWithin(h.clock, c, interval, cap) && !c.emergency
    ensures GrantsFit(Apply(h, Ask(c)), interval, cap)
  {
    DailyResetNeverFires(h.slot, c.now);
    CacheAgeNeverPromotes(h.slot, c);
    hide CallTier, OwnTier, EntryFor, AfterReset;
    var found := EntryFor(h.slot, c.now);
    EntryOf(h.slot, c.now);
    if Decide(found, c).granted {
      var after := Apply(h, Ask(c));
      assert forall i :: 0 <= i < |h.grants| ==> after.grants[i] == h.grants[i];
    }
  }

  lemma EntryOf(slot: Slot, now: real)
    ensures EntryFor(slot, now) == if Lookup(slot, now).Present? then slot.entry else NewEntry(now)
  {
  }

  lemma {:induction false} RunsFit(steps: seq<Step>, interval: real, cap: nat)
    requires Within(steps, interval, cap)
    ensures EntryFits(Exec(steps)) && GrantsFit(Exec(steps), interval, cap)
  {
    if steps != [] {
      hide EntryFits, GrantsFit, CallWithin, Decide, EntryFor, AfterReset;
      var n := |steps| - 1;
      RunsFit(steps[..n], interval, cap);
      var before := Exec(steps[..n]);
      if steps[n].Evict? {
        EvictKeepsFit(before, interval, cap);
      } else if !steps[n].call.emergency {
        AskKeepsFit(before, steps[n].call, interval, cap);
      }
    } else {
      StartFits(interval, cap);
    }
  }

  lemma StartFits(interval: real, cap: nat)
    ensures EntryFits(START) && GrantsFit(START, interval, cap)
  {}

  lemma EvictKeepsFit(h: History, interval: real, cap: nat)
    requires GrantsFit(h, interval, cap)
    ensures EntryFits(Apply(h, Evict)) && GrantsFit(Apply(h, Evict), interval, cap)
  {}

  // ---------------------------------------------------------------- bounds within a lifetime

  lemma {:induction false} GrantsInALife(h: History, interval: real, cap: nat, i: nat, j: nat)
    requires GrantsFit(h, interval, cap) && i <= j < |h.grants|
    ensures h.grants[i].life <= h.grants[j].life && h.grants[i].time <= h.grants[j].time
    ensures h.grants[i].life == h.grants[j].life ==>
      && h.grants[j].nth == h.grants[i].nth + (j - i)
      && h.grants[j].time - h.grants[i].time >= interval * (j - i) as real
    decreases j
  {
    if i < j {
      GrantsInALife(h, interval, cap, i, j - 1);
      assert Follows(h.grants[j - 1], h.grants[j], interval);
      assert interval * (j - i) as real == interval * (j - 1 - i) as real + interval;
    }
  }

  /** Over every run, with evictions at any moment: inside one lifetime of the entry the
      grants are `interval` apart, n of them span n - 1 intervals, and there are at most
      `cap` of them. */
  lemma LifetimeBounds(steps: seq<Step>, interval: real, cap: nat, i: nat, j: nat)
    requires Within(steps, interval, cap)
    requires i <= j < |Exec(steps).grants| && Exec(steps).grants[i].life == Exec(steps).grants[j].life
    ensures var g := Exec(steps).grants;
      g[j].time - g[i].time >= interval * (j - i) as real && j - i < cap
  {
    hide Exec, Within;
    RunsFit(steps, interval, cap);
    GrantsInALife(Exec(steps), interval, cap, i, j);
  }

  /** The tiers over runs: a node that stays new gets at most 15 messages out in a lifetime of
      its entry, five minutes apart; one that is never trusted at most 75, two minutes apart. */
  lemma TiersOverRuns(steps: seq<Step>, i: nat, j: nat)
    requires i <= j < |Exec(steps).grants| && Exec(steps).grants[i].life == Exec(steps).grants[j].life
    ensures var g := Exec(steps).grants;
      && (NeverAbove(steps, 5.0, 48.0) ==> g[j].time - g[i].time >= 300.0 * (j - i) as real && j - i < 15)
      && (NeverAbove(steps, 20.0, 168.0) ==> g[j].time - g[i].time >= 120.0 * (j - i) as real && j - i < 75)
  {
    hide Exec, NeverAbove, Within;
    if NeverAbove(steps, 5.0, 48.0) {
      NeverAboveIsWithin(steps, 5.0, 48.0, 300.0, 15);
      LifetimeBounds(steps, 300.0, 15, i, j);
    }
    if NeverAbove(steps, 20.0, 168.0) {
      NeverAboveIsWithin(steps, 20.0, 168.0, 120.0, 75);
      LifetimeBounds(steps, 120.0, 75, i, j);
    }
  }

  /** The clock never goes back, and every call stays below a reputation and an age, without
      the loosened transport. */
  ghost predicate NeverAbove(steps: seq<Step>, reputation: real, age: real) {
    steps != [] ==>
      var n := |steps| - 1;
      && NeverAbove(steps[..n], reputation, age)
      && (steps[n].Ask? && !steps[n].call.emergency ==>
            var c := steps[n].call;
            c.now >= Exec(steps[..n]).clock && c.reputation < reputation && c.ledgerAgeHours < age && !c.meshtastic)
  }

  lemma {:induction false} NeverAboveIsWithin(steps: seq<Step>, reputation: real, age: real, interval: real, cap: nat)
    requires NeverAbove(steps, reputation, age)
    requires (reputation, age, interval, cap) in {(5.0, 48.0, 300.0, 15), (20.0, 168.0, 120.0, 75)}
    ensures Within(steps, interval, cap)
  {
    if steps == [] {
      assert Within(steps, interval, cap);
    } else {
      NeverAboveIsWithin(steps[..|steps| - 1], reputation, age, interval, cap);
    }
  }

  // ---------------------------------------------------------------- bounds over any day

  ghost predicate NoEvict(steps: seq<Step>) {
    Evict !in steps
  }

  /** Lifetimes that end by age alone start a day apart. */
  ghost predicate DaysFit(h: History) {
    && (h.slot.Absent? ==> h.life == 0 && h.grants == [])
    && (h.slot.Present? ==>
          var start := h.slot.entry.firstSeen;
          && start <= h.clock
          && (forall i :: 0 <= i < |h.grants| ==>
                && (h.grants[i].life + 1 == h.life ==> h.grants[i].time <= start)
                && (h.grants[i].life + 2 <= h.life ==> h.grants[i].time + TTL <= start)))
    && (forall i :: 0 <= i < |h.grants| ==> h.grants[i].life <= h.life && h.grants[i].time <= h.clock)
    && (forall i, j :: 0 <= i < j < |h.grants| && h.grants[i].life + 2 <= h.grants[j].life ==>
          h.grants[j].time >= h.grants[i].time + TTL)
  }

  lemma AskKeepsDays(h: History, c: Call)
    requires DaysFit(h) && c.now >= h.clock && !c.emergency
    ensures DaysFit(Apply(h, Ask(c)))
  {
  }

  lemma {:induction false} RunsKeepDays(steps: seq<Step>, interval: real, cap: nat)
    requires Within(steps, interval, cap) && NoEvict(steps)
    ensures DaysFit(Exec(steps))
  {
    if steps != [] {
      hide DaysFit, Decide, EntryFor, AfterReset, OwnTier;
      var n := |steps| - 1;
      assert steps[n] in steps && forall s :: s in steps[..n] ==> s in steps;
      RunsKeepDays(steps[..n], interval, cap);
      if !steps[n].call.emergency {
        AskKeepsDays(Exec(steps[..n]), steps[n].call);
      }
    } else {
      StartHasDays();
    }
  }

  lemma StartHasDays()
    ensures DaysFit(START)
  {}

  /** As long as the cache is never full, no span of a day holds more than twice the cap:
      any grant and the 2 * cap-th after it are at least 86400 s apart. */
  lemma AnyDayHoldsTwiceTheCap(steps: seq<Step>, interval: real, cap: nat, i: nat)
    requires Within(steps, interval, cap) && NoEvict(steps)
    requires i + 2 * cap < |Exec(steps).grants|
    ensures Exec(steps).grants[i + 2 * cap].time >= Exec(steps).grants[i].time + 86400.0
  {
    hide Exec, Within;
    var h := Exec(steps);
    RunsFit(steps, interval, cap);
    RunsKeepDays(steps, interval, cap);
    GrantsInALife(h, interval, cap, i, i + cap);
    GrantsInALife(h, interval, cap, i + cap, i + 2 * cap);
    assert h.grants[i + cap].nth < cap && h.grants[i + 2 * cap].nth < cap;
    assert cap > 0 by { assert h.grants[i].nth < cap; }
  }

  // ---------------------------------------------------------------- spacing with evictions

  /** The clock reads at least five minutes after the epoch, as every real one does. */
  ghost predicate AfterEpoch(steps: seq<Step>) {
    forall i :: 0 <= i < |steps| && steps[i].Ask? && !steps[i].call.emergency ==> steps[i].call.now >= 300.0
  }

  /** An entry, if there is one, is that of the last grant, and still alive. */
  ghost predicate EntryIsLastGrant(h: History) {
    && (h.grants != [] ==> h.clock >= 300.0 && h.grants[|h.grants| - 1].time <= h.clock)
    && (h.slot.Present? ==>
          && h.grants != [] && Granted(h.slot.entry)
          && h.slot.entry.lastSend == h.grants[|h.grants| - 1].time <= h.clock < h.slot.entry.firstSeen + TTL)
  }

  lemma AskKeepsEntry(h: History, c: Call)
    requires EntryIsLastGrant(h) && c.now >= h.clock && c.now >= 300.0 && !c.emergency
    ensures EntryIsLastGrant(Apply(h, Ask(c)))
  {
  }

  lemma {:induction false} RunsKeepEntry(steps: seq<Step>, interval: real, cap: nat)
    requires Within(steps, interval, cap) && AfterEpoch(steps)
    ensures EntryIsLastGrant(Exec(steps))
  {
    if steps == [] {
      assert Exec(steps) == START;
    } else {
      hide EntryIsLastGrant, Decide, EntryFor, AfterReset, OwnTier;
      var n := |steps| - 1;
      assert forall i :: 0 <= i < n ==> steps[..n][i] == steps[i];
      RunsKeepEntry(steps[..n], interval, cap);
      if steps[n].Evict? {
        EvictKeepsEntry(Exec(steps[..n]));
      } else if !steps[n].call.emergency {
        AskKeepsEntry(Exec(steps[..n]), steps[n].call);
      }
    }
  }

  lemma EvictKeepsEntry(h: History)
    requires EntryIsLastGrant(h)
    ensures EntryIsLastGrant(Apply(h, Evict))
  {
  }

  /** The earliest moment at which the last grant is forgotten: now if the entry was evicted,
      otherwise when it expires. */
  function Forgotten(h: History): real {
    if h.slot.Absent? then h.clock else h.slot.entry.firstSeen + TTL
  }

  /** The exact rule with evictions: over every run, whatever is asked next, its grant keeps
      the interval to the last one exactly when that one is forgotten no earlier than an
      interval after it. */
  lemma NextGrantWithEvictions(steps: seq<Step>, interval: real)
    requires Within(steps, 30.0, 200) && AfterEpoch(steps) && IsInterval(interval)
    requires Exec(steps).grants != []
    ensures var h := Exec(steps);
      var last := h.grants[|h.grants| - 1].time;
      (forall c :: Asks(c, h.clock, interval) && GrantedIn(h, c) ==> c.now - last >= interval) <==>
      last + interval <= Forgotten(h)
  {
    hide Exec, Within;
    RunsKeepEntry(steps, 30.0, 200);
    var h := Exec(steps);
    if h.slot.Present? {
      SpacedWhilePresent(h, interval);
    } else {
      var first := AskAt(h.clock, interval);
      assert GrantedIn(h, first) by {
        CacheAgeNeverPromotes(h.slot, first);
      }
    }
  }

  lemma SpacedWhilePresent(h: History, interval: real)
    requires h.slot.Present? && Granted(h.slot.entry) && IsInterval(interval)
    requires h.slot.entry.lastSend <= h.clock < h.slot.entry.firstSeen + TTL
    ensures var e := h.slot.entry;
      (forall c :: Asks(c, h.clock, interval) && GrantedIn(h, c) ==> c.now - e.lastSend >= interval) <==>
      e.lastSend + interval <= e.firstSeen + TTL
  {
    var e := h.slot.entry;
    ExpirySpacesExactlyWhen(e, interval);
    forall c | Asks(c, h.clock, interval) && GrantedIn(h, c) && c.now < e.firstSeen + TTL
      ensures c.now - e.lastSend >= interval
    {
      LiveEntrySpaces(e, c);
    }
    assert forall c :: Asks(c, e.firstSeen + TTL, interval) ==> Asks(c, h.clock, interval);
  }

  // ---------------------------------------------------------------- emergencies

  function WithoutEmergencies(steps: seq<Step>): seq<Step> {
    if steps == [] then []
    else
      var last := steps[|steps| - 1];
      WithoutEmergencies(steps[..|steps| - 1]) + (if last.Ask? && last.call.emergency then [] else [last])
  }

  /** Emergency messages leave no trace: without them the run is the same, grant by grant. */
  lemma {:induction false} EmergenciesChangeNothing(steps: seq<Step>)
    ensures Exec(WithoutEmergencies(steps)) == Exec(steps)
  {
    if steps == [] {
    } else {
      hide Decide, EntryFor, AfterReset;
      var n := |steps| - 1;
      EmergenciesChangeNothing(steps[..n]);
      var rest := WithoutEmergencies(steps[..n]);
      ExecOneMore(rest, steps[n]);
      assert rest + [] == rest;
    }
  }

  // ---------------------------------------------------------------- spacing across lifetimes

  predicate IsInterval(interval: real) {
    interval in {30.0, 120.0, 300.0}
  }

  /** A message that is not an emergency, not before `since`, of a node in a tier with this
      interval. */
  predicate Asks(c: Call, since: real, interval: real) {
    !c.emergency && c.now >= since && OwnTier(c).interval == interval
  }

  /** The first message of a tier at a given time. */
  function AskAt(now: real, interval: real): (c: Call)
    requires IsInterval(interval)
    ensures c.now == now && Asks(c, now, interval)
  {
    Call(now, false, false, if interval == 30.0 then 20.0 else if interval == 120.0 then 5.0 else 0.0, 0.0)
  }

  /** An entry whose last grant was in its own lifetime. */
  ghost predicate Granted(e: Entry) {
    Sound(e) && 0.0 <= e.firstSeen <= e.lastSend < e.firstSeen + TTL
  }

  /** When the interval survives the end of an entry: messages after the expiry are all
      granted at least an interval after the last grant exactly when that grant was an
      interval before the expiry. */
  lemma ExpirySpacesExactlyWhen(e: Entry, interval: real)
    requires Granted(e) && IsInterval(interval)
    ensures
      (forall c :: Asks(c, e.firstSeen + 86400.0, interval) && Decide(EntryFor(Present(e), c.now), c).granted ==>
         c.now - e.lastSend >= interval) <==>
      e.lastSend + interval <= e.firstSeen + 86400.0
  {
    var expiry := e.firstSeen + TTL;
    var first := AskAt(expiry, interval);
    assert Decide(EntryFor(Present(e), first.now), first).granted by {
      CacheAgeNeverPromotes(Present(e), first);
    }
  }

  /** The entry is that of the last grant, and still alive. */
  ghost predicate LastGrantFits(h: History) {
    && h.clock >= 0.0
    && (h.slot.Absent? ==> h.grants == [])
    && (h.slot.Present? ==>
          Sound(h.slot.entry) && 0.0 <= h.slot.entry.firstSeen <= h.clock < h.slot.entry.firstSeen + TTL)
    && (h.grants != [] ==>
          && h.slot.Present? && Granted(h.slot.entry)
          && h.slot.entry.lastSend == h.grants[|h.grants| - 1].time <= h.clock)
  }

  lemma AskKeepsLastGrant(h: History, c: Call)
    requires LastGrantFits(h) && c.now >= h.clock && !c.emergency
    ensures LastGrantFits(Apply(h, Ask(c)))
  {
  }

  lemma {:induction false} RunsKeepLastGrant(steps: seq<Step>, interval: real, cap: nat)
    requires Within(steps, interval, cap) && NoEvict(steps)
    ensures LastGrantFits(Exec(steps))
  {
    if steps == [] {
      assert Exec(steps) == START;
    } else {
      hide LastGrantFits, Decide, EntryFor, AfterReset, OwnTier;
      var n := |steps| - 1;
      assert steps[n] in steps && forall s :: s in steps[..n] ==> s in steps;
      RunsKeepLastGrant(steps[..n], interval, cap);
      if !steps[n].call.emergency {
        AskKeepsLastGrant(Exec(steps[..n]), steps[n].call);
      }
    }
  }

  /** The call is granted in this state. */
  predicate GrantedIn(h: History, c: Call) {
    Decide(EntryFor(h.slot, c.now), c).granted
  }

  /** Over every run without evictions: whatever is asked next, its grant keeps the
      interval to the last grant exactly when that one was an interval before the expiry of
      the entry. */
  lemma NextGrantIsSpacedExactlyWhen(steps: seq<Step>, interval: real)
    requires Within(steps, 30.0, 200) && NoEvict(steps) && IsInterval(interval)
    requires Exec(steps).grants != []
    ensures var h := Exec(steps);
      var last := h.grants[|h.grants| - 1].time;
      && h.slot.Present?
      && ((forall c :: Asks(c, h.clock, interval) && GrantedIn(h, c) ==> c.now - last >= interval)
          <==> last + interval <= h.slot.entry.firstSeen + 86400.0)
  {
    hide Exec, Within;
    RunsKeepLastGrant(steps, 30.0, 200);
    SpacedWhilePresent(Exec(steps), interval);
  }

  lemma LiveEntrySpaces(e: Entry, c: Call)
    requires Sound(e) && c.now < e.firstSeen + TTL && Decide(EntryFor(Present(e), c.now), c).granted
    ensures c.now - e.lastSend >= OwnTier(c).interval
  {
    CacheAgeNeverPromotes(Present(e), c);
  }

  /** A run in which it does not: a message right before the entry expires and one right
      after are both granted, a second apart. */
  lemma ExpiryForgetsTheInterval()
    ensures var ask := (t: real) => Ask(Call(t, false, false, 0.0, 0.0));
      var h := Exec([ask(1000.0), ask(87399.0), ask(87400.0)]);
      h.grants == [Grant(1000.0, 1, 0), Grant(87399.0, 1, 1), Grant(87400.0, 2, 0)]
  {
    hide Exec, Apply;
    var a, b := Call(1000.0, false, false, 0.0, 0.0), Call(87399.0, false, false, 0.0, 0.0);
    var c := Call(87400.0, false, false, 0.0, 0.0);
    ThreeSteps(Ask(a), Ask(b), Ask(c));
    var h1 := FirstGrant(a);
    var h2 := SecondGrant(h1, b);
    ThirdGrant(h2, c);
  }

  lemma ThreeSteps(a: Step, b: Step, c: Step)
    ensures Exec([a, b, c]) == Apply(Apply(Apply(START, a), b), c)
  {
    EmptyRun();
    ExecOneMore([], a);
    ExecOneMore([a], b);
    ExecOneMore([a, b], c);
    hide Exec, Apply;
    assert [] + [a] == [a] && [a] + [b] == [a, b] && [a, b] + [c] == [a, b, c];
  }

  lemma FirstGrant(c: Call) returns (h: History)
    requires c == Call(1000.0, false, false, 0.0, 0.0)
    ensures h == Apply(START, Ask(c))
    ensures h == History(Present(Entry(1000.0, 1, 1000.0, 1000.0)), 1, 1000.0, [Grant(1000.0, 1, 0)])
  {
    h := Apply(START, Ask(c));
  }

  lemma SecondGrant(h1: History, c: Call) returns (h: History)
    requires h1 == History(Present(Entry(1000.0, 1, 1000.0, 1000.0)), 1, 1000.0, [Grant(1000.0, 1, 0)])
    requires c == Call(87399.0, false, false, 0.0, 0.0)
    ensures h == Apply(h1, Ask(c)) && h.slot == Present(Entry(87399.0, 2, 1000.0, 1000.0)) && h.life == 1
    ensures h.grants == [Grant(1000.0, 1, 0), Grant(87399.0, 1, 1)]
  {
    GrantedExactlyWhen(h1.slot, c);
    hide CallTier;
    h := Apply(h1, Ask(c));
  }

  lemma ThirdGrant(h2: History, c: Call)
    requires h2.slot == Present(Entry(87399.0, 2, 1000.0, 1000.0)) && h2.life == 1
    requires h2.grants == [Grant(1000.0, 1, 0), Grant(87399.0, 1, 1)]
    requires c == Call(87400.0, false, false, 0.0, 0.0)
    ensures Apply(h2, Ask(c)).grants == [Grant(1000.0, 1, 0), Grant(87399.0, 1, 1), Grant(87400.0, 2, 0)]
  {
    GrantedExactlyWhen(h2.slot, c);
    hide CallTier;
  }

  lemma EmptyRun()
    ensures Exec([]) == START
  {}
}
