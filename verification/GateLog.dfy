/** One gate's message log (class GateMessageStore in
    backend/services/mesh/mesh_hashchain.py): always kept sorted by timestamp, sequence
    and event id, so that a late arrival goes into the middle. */
module GateLog {

  datatype GateEvent = GateEvent(timestamp: int, sequence: int, eventId: nat, ciphertext: string)

  predicate Before(a: GateEvent, b: GateEvent) {
    || a.timestamp < b.timestamp
    || (a.timestamp == b.timestamp && a.sequence < b.sequence)
    || (a.timestamp == b.timestamp && a.sequence == b.sequence && a.eventId < b.eventId)
  }

  ghost predicate Sorted(log: seq<GateEvent>) {
    forall i, j :: 0 <= i < j < |log| ==> Before(log[i], log[j])
  }

  ghost predicate DistinctIds(log: seq<GateEvent>) {
    forall i, j :: 0 <= i < j < |log| ==> log[i].eventId != log[j].eventId
  }

  predicate HasId(log: seq<GateEvent>, id: nat) {
    exists i :: 0 <= i < |log| && log[i].eventId == id
  }

  /** Where a stable sort puts a new event: before the first event that comes after it. */
  function Place(log: seq<GateEvent>, e: GateEvent): (k: nat)
    ensures k <= |log|
    ensures forall i :: 0 <= i < k ==> !Before(e, log[i])
    ensures k < |log| ==> Before(e, log[k])
  {
    if log == [] || Before(e, log[0]) then 0 else 1 + Place(log[1..], e)
  }

  function Insert(log: seq<GateEvent>, e: GateEvent): (longer: seq<GateEvent>)
    ensures |longer| == |log| + 1 && longer[Place(log, e)] == e
    ensures forall i :: 0 <= i < Place(log, e) ==> longer[i] == log[i]
    ensures forall i :: Place(log, e) < i < |longer| ==> longer[i] == log[i - 1]
  {
    var k := Place(log, e);
    log[..k] + [e] + log[k..]
  }

  lemma InsertKeepsOrder(log: seq<GateEvent>, e: GateEvent)
    requires Sorted(log) && DistinctIds(log) && !HasId(log, e.eventId)
    ensures Sorted(Insert(log, e)) && DistinctIds(Insert(log, e))
  {
  }

  lemma InsertElements(log: seq<GateEvent>, e: GateEvent, x: GateEvent)
    ensures x in Insert(log, e) <==> x == e || x in log
  {
  }

  lemma InsertLast(log: seq<GateEvent>, e: GateEvent)
    requires forall i :: 0 <= i < |log| ==> Before(log[i], e)
    ensures Place(log, e) == |log| && Insert(log, e) == log + [e]
  {
  }

  /** The built-in sort. */
  function Sort(events: seq<GateEvent>): seq<GateEvent> {
    if events == [] then [] else Insert(Sort(events[..|events| - 1]), events[|events| - 1])
  }

  lemma {:induction false} SortOfSorted(log: seq<GateEvent>)
    requires Sorted(log)
    ensures Sort(log) == log
  {
    if log == [] {
    } else {
      var n := |log| - 1;
      SortOfSorted(log[..n]);
      InsertLast(log[..n], log[n]);
      assert log == log[..n] + [log[n]];
    }
  }

  /** A sorted log is determined by the events it holds. */
  lemma {:induction false} SortedIsUnique(a: seq<GateEvent>, b: seq<GateEvent>)
    requires Sorted(a) && Sorted(b)
    requires forall x :: x in a <==> x in b
    ensures a == b
    decreases |a|
  {
    assert b != [] ==> b[0] in a;
    if a == [] {
    } else {
      assert a[0] in b && b != [] && b[0] in a;
      assert a[0] == b[0];
      forall x
        ensures x in a[1..] <==> x in b[1..]
      {
        TailElements(a, x);
        TailElements(b, x);
      }
      SortedIsUnique(a[1..], b[1..]);
      assert a == [a[0]] + a[1..] && b == [b[0]] + b[1..];
    }
  }

  /** The order in terms of the fields: timestamp first, then sequence, then id. */
  lemma SortedByFields(log: seq<GateEvent>)
    ensures Sorted(log) <==> forall i, j :: 0 <= i < j < |log| ==>
      && log[i].timestamp <= log[j].timestamp
      && (log[i].timestamp == log[j].timestamp ==> log[i].sequence <= log[j].sequence)
      && (log[i].timestamp == log[j].timestamp && log[i].sequence == log[j].sequence ==>
            log[i].eventId < log[j].eventId)
  {
  }

  lemma TailElements(a: seq<GateEvent>, x: GateEvent)
    requires Sorted(a) && a != []
    ensures x in a[1..] <==> x in a && x != a[0]
  {
  }

  function Elements(log: seq<GateEvent>): set<GateEvent> {
    set x | x in log
  }

  lemma ElementsOfSum(a: seq<GateEvent>, b: seq<GateEvent>)
    ensures Elements(a + b) == Elements(a) + Elements(b)
  {}

  lemma InsertKeepsIds(log: seq<GateEvent>, e: GateEvent)
    ensures HasId(Insert(log, e), e.eventId)
    ensures forall id :: HasId(log, id) ==> HasId(Insert(log, e), id)
  {
    var k := Place(log, e);
    var longer := Insert(log, e);
    assert longer[k] == e;
    forall id | HasId(log, id)
      ensures HasId(longer, id)
    {
      var i :| 0 <= i < |log| && log[i].eventId == id;
      assert longer[if i < k then i else i + 1] == log[i];
    }
  }

  // ---------------------------------------------------------------- ingest from a peer

  /** What the replay index remembers of an event; `ciphertext` stands for the ciphertext
      with its nonce and format. */
  datatype Print = Print(gate: string, timestamp: int, ciphertext: string)

  function PrintOf(gate: string, e: GateEvent): Print {
    Print(gate, e.timestamp, e.ciphertext)
  }

  /** The event index and the replay index, which all gates of a store share. */
  datatype Seen = Seen(ids: set<nat>, prints: set<Print>)

  predicate Knows(seen: Seen, gate: string, e: GateEvent) {
    PrintOf(gate, e) in seen.prints || e.eventId in seen.ids
  }

  function Remember(seen: Seen, gate: string, e: GateEvent): Seen {
    Seen(seen.ids + {e.eventId}, seen.prints + {PrintOf(gate, e)})
  }

  /** The tests of the ingest: payload, type and time window; the form of the id; signature,
      membership and the id's digest. */
  datatype Tests = Tests(wellFormed: GateEvent -> bool, hexId: GateEvent -> bool, verified: (string, GateEvent) -> bool)

  /** An id is a digest over the gate too, so it is verified in one gate at most. */
  ghost predicate Binding(t: Tests) {
    forall g, h, e, f :: t.verified(g, e) && t.verified(h, f) && e.eventId == f.eventId ==> g == h
  }

  type Checks = t: Tests | Binding(t) ghost witness Tests(_ => true, _ => true, (_, _) => false)

  predicate Good(ck: Checks, gate: string, e: GateEvent) {
    ck.wellFormed(e) && ck.hexId(e) && ck.verified(gate, e)
  }

  datatype GateIngested = GateIngested(log: seq<GateEvent>, seen: Seen, accepted: nat, duplicates: nat, rejected: nat)

  /** One event of `ingest_peer_events`. */
  function Take(r: GateIngested, gate: string, e: GateEvent, ck: Checks): GateIngested {
    if !ck.wellFormed(e) then r.(rejected := r.rejected + 1)
    else if PrintOf(gate, e) in r.seen.prints then r.(duplicates := r.duplicates + 1)
    else if !ck.hexId(e) then r.(rejected := r.rejected + 1)
    else if e.eventId in r.seen.ids then r.(duplicates := r.duplicates + 1)
    else if !ck.verified(gate, e) then r.(rejected := r.rejected + 1)
    else r.(log := Insert(r.log, e), seen := Remember(r.seen, gate, e), accepted := r.accepted + 1)
  }

  function IngestGate(log: seq<GateEvent>, seen: Seen, gate: string, events: seq<GateEvent>, ck: Checks): GateIngested {
    if events == [] then GateIngested(log, seen, 0, 0, 0)
    else Take(IngestGate(log, seen, gate, events[..|events| - 1], ck), gate, events[|events| - 1], ck)
  }

  lemma IngestGateOneMore(log: seq<GateEvent>, seen: Seen, gate: string, events: seq<GateEvent>, i: nat, ck: Checks)
    requires i < |events|
    ensures IngestGate(log, seen, gate, events[..i + 1], ck)
         == Take(IngestGate(log, seen, gate, events[..i], ck), gate, events[i], ck)
  {
    assert events[..i + 1][..i] == events[..i];
  }

  ghost predicate Proper(log: seq<GateEvent>) {
    Sorted(log) && DistinctIds(log)
  }

  /** The event index covers the log. */
  ghost predicate Indexed(log: seq<GateEvent>, seen: Seen) {
    forall i :: 0 <= i < |log| ==> log[i].eventId in seen.ids
  }

  /** What the ingest adds to the indexes comes from events it put into the log. */
  ghost predicate Accounted(before: Seen, gate: string, log: seq<GateEvent>, after: Seen) {
    && before.ids <= after.ids && before.prints <= after.prints
    && (forall id :: id in after.ids && id !in before.ids ==> exists x :: x in log && x.eventId == id)
    && (forall p :: p in after.prints && p !in before.prints ==> exists x :: x in log && PrintOf(gate, x) == p)
  }

  /** Ingest keeps the log sorted and duplicate-free, drops nothing, and adds only good
      events; afterwards every good event is known; every event is counted once. */
  lemma {:induction false} IngestGateEffect(log: seq<GateEvent>, seen: Seen, gate: string, events: seq<GateEvent>,
                                            ck: Checks)
    requires Proper(log) && Indexed(log, seen)
    ensures var r := IngestGate(log, seen, gate, events, ck);
      && Proper(r.log) && Indexed(r.log, r.seen)
      && |r.log| == |log| + r.accepted
      && (forall x :: x in log ==> x in r.log)
      && (forall x :: x in r.log ==> x in log || (x in events && Good(ck, gate, x)))
      && (forall x :: x in events && Good(ck, gate, x) ==> Knows(r.seen, gate, x))
      && Accounted(seen, gate, r.log, r.seen)
  {
    if events == [] {
      assert IngestGate(log, seen, gate, events, ck).log == log;
    } else {
      var n := |events| - 1;
      var before := IngestGate(log, seen, gate, events[..n], ck);
      var e := events[n];
      IngestGateEffect(log, seen, gate, events[..n], ck);
      assert events == events[..n] + [e];
      if Good(ck, gate, e) && !Knows(before.seen, gate, e) {
        TakeInserts(before, seen, gate, e);
      }
    }
  }

  lemma TakeInserts(r: GateIngested, start: Seen, gate: string, e: GateEvent)
    requires Proper(r.log) && Indexed(r.log, r.seen) && !Knows(r.seen, gate, e) && Accounted(start, gate, r.log, r.seen)
    ensures Proper(Insert(r.log, e)) && Indexed(Insert(r.log, e), Remember(r.seen, gate, e))
    ensures forall x :: x in Insert(r.log, e) <==> x == e || x in r.log
    ensures Accounted(start, gate, Insert(r.log, e), Remember(r.seen, gate, e))
  {
    InsertKeepsOrder(r.log, e);
    forall x
      ensures x in Insert(r.log, e) <==> x == e || x in r.log
    {
      InsertElements(r.log, e, x);
    }
    hide Insert, Proper;
    assert Accounted(start, gate, Insert(r.log, e), Remember(r.seen, gate, e)) by {
      assert e in Insert(r.log, e);
    }
  }

  /** Every event of a batch is counted once. */
  lemma {:induction false} IngestCounts(log: seq<GateEvent>, seen: Seen, gate: string, events: seq<GateEvent>,
                                        ck: Checks)
    ensures var r := IngestGate(log, seen, gate, events, ck);
      r.accepted + r.duplicates + r.rejected == |events|
  {
    if events == [] {
      assert IngestGate(log, seen, gate, events, ck).accepted == 0;
    } else {
      IngestCounts(log, seen, gate, events[..|events| - 1], ck);
    }
  }

  /** What each kind of event is counted as. */
  lemma VerdictByKind(r: GateIngested, gate: string, e: GateEvent, ck: Checks)
    ensures var after := Take(r, gate, e, ck);
      && (!ck.wellFormed(e) ==> after == r.(rejected := r.rejected + 1))
      && (ck.wellFormed(e) && PrintOf(gate, e) in r.seen.prints ==> after == r.(duplicates := r.duplicates + 1))
      && (ck.wellFormed(e) && ck.hexId(e) && e.eventId in r.seen.ids ==> after == r.(duplicates := r.duplicates + 1))
      && (ck.wellFormed(e) && !Knows(r.seen, gate, e) && !Good(ck, gate, e) ==> after == r.(rejected := r.rejected + 1))
      && (Good(ck, gate, e) && !Knows(r.seen, gate, e) ==>
            && after.accepted == r.accepted + 1 && e in after.log
            && after.seen == Seen(r.seen.ids + {e.eventId}, r.seen.prints + {Print(gate, e.timestamp, e.ciphertext)}))
  {
  }

  /** Sending known events again changes nothing and counts them all as duplicates, whether or
      not they would still be verified. */
  lemma {:induction false} KnownEventsAreDuplicates(log: seq<GateEvent>, seen: Seen, gate: string,
      events: seq<GateEvent>,
                                                    ck: Checks)
    requires forall x :: x in events ==> ck.wellFormed(x) && ck.hexId(x) && Knows(seen, gate, x)
    ensures IngestGate(log, seen, gate, events, ck) == GateIngested(log, seen, 0, |events|, 0)
  {
    if events == [] {
      assert IngestGate(log, seen, gate, events, ck) == GateIngested(log, seen, 0, 0, 0);
    } else {
      var n := |events| - 1;
      assert events == events[..n] + [events[n]];
      KnownEventsAreDuplicates(log, seen, gate, events[..n], ck);
    }
  }

  /** So delivering a batch of good events twice changes nothing the second time. */
  lemma RedeliveryChangesNothing(log: seq<GateEvent>, seen: Seen, gate: string, events: seq<GateEvent>, ck: Checks)
    requires Proper(log) && Indexed(log, seen) && forall x :: x in events ==> Good(ck, gate, x)
    ensures var r := IngestGate(log, seen, gate, events, ck);
      IngestGate(r.log, r.seen, gate, events, ck) == GateIngested(r.log, r.seen, 0, |events|, 0)
  {
    IngestGateEffect(log, seen, gate, events, ck);
    var r := IngestGate(log, seen, gate, events, ck);
    KnownEventsAreDuplicates(r.log, r.seen, gate, events, ck);
  }

  // ---------------------------------------------------------------- gates do not disturb each other

  /** `more` goes beyond `seen` only by what can never matter to this gate. */
  ghost predicate Elsewhere(gate: string, ck: Checks, seen: Seen, more: Seen) {
    && seen.ids <= more.ids && seen.prints <= more.prints
    && (forall e: GateEvent :: e.eventId in more.ids && e.eventId !in seen.ids ==> !ck.verified(gate, e))
    && (forall p: Print :: p in more.prints && p !in seen.prints ==> p.gate != gate)
  }

  lemma NothingElsewhere(gate: string, seen: Seen, ck: Checks)
    ensures Elsewhere(gate, ck, seen, seen)
  {
  }

  /** What was seen in other gates does not change what a gate takes in. */
  lemma {:induction false} SeenElsewhere(log: seq<GateEvent>, seen: Seen, more: Seen, gate: string,
                                         events: seq<GateEvent>, ck: Checks)
    requires Elsewhere(gate, ck, seen, more)
    ensures var r, s := IngestGate(log, seen, gate, events, ck), IngestGate(log, more, gate, events, ck);
      r.log == s.log && r.accepted == s.accepted && Elsewhere(gate, ck, r.seen, s.seen)
  {
    if events == [] {
      assert IngestGate(log, seen, gate, events, ck).log == log;
    } else {
      SeenElsewhere(log, seen, more, gate, events[..|events| - 1], ck);
    }
  }

  /** Ingesting into one gate leaves every other gate undisturbed. */
  lemma {:induction false} OthersUndisturbed(log: seq<GateEvent>, seen: Seen, now: Seen, gate: string, other: string,
                                             events: seq<GateEvent>, ck: Checks)
    requires gate != other && Elsewhere(other, ck, seen, now)
    ensures Elsewhere(other, ck, seen, IngestGate(log, now, gate, events, ck).seen)
  {
    if events == [] {
      assert IngestGate(log, now, gate, events, ck).seen == now;
    } else {
      OthersUndisturbed(log, seen, now, gate, other, events[..|events| - 1], ck);
    }
  }

  // ---------------------------------------------------------------- ingesting parts of another store's log

  /** A log as a store can hold it: no two events with the same id or fingerprint. */
  ghost predicate Honest(log: seq<GateEvent>, gate: string) {
    && DistinctIds(log)
    && (forall i, j :: 0 <= i < j < |log| ==> PrintOf(gate, log[i]) != PrintOf(gate, log[j]))
  }

  /** An event that can arrive in such a log. */
  ghost predicate NewIn(log: seq<GateEvent>, gate: string, e: GateEvent) {
    forall x :: x in log ==> x.eventId != e.eventId && PrintOf(gate, x) != PrintOf(gate, e)
  }

  lemma InsertStaysHonest(log: seq<GateEvent>, gate: string, e: GateEvent)
    requires Sorted(log) && Honest(log, gate) && NewIn(log, gate, e)
    ensures Sorted(Insert(log, e)) && Honest(Insert(log, e), gate)
  {
    InsertKeepsOrder(log, e);
    InsertKeepsPrints(log, gate, e);
  }

  lemma InsertKeepsPrints(log: seq<GateEvent>, gate: string, e: GateEvent)
    requires forall i, j :: 0 <= i < j < |log| ==> PrintOf(gate, log[i]) != PrintOf(gate, log[j])
    requires forall x :: x in log ==> PrintOf(gate, x) != PrintOf(gate, e)
    ensures var longer := Insert(log, e);
      forall i, j :: 0 <= i < j < |longer| ==> PrintOf(gate, longer[i]) != PrintOf(gate, longer[j])
  {
  }

  lemma SameOrUnknown(seen: Seen, gate: string, remote: seq<GateEvent>, e: GateEvent, x: GateEvent)
    requires Honest(remote, gate) && e in remote && x in remote && Knows(Remember(seen, gate, e), gate, x)
    ensures x == e || Knows(seen, gate, x)
  {
  }

  /** What an ingest of events of another store's log makes known of that log. */
  lemma {:induction false} KnownAfterIngest(log: seq<GateEvent>, seen: Seen, gate: string, remote: seq<GateEvent>,
                                            events: seq<GateEvent>, ck: Checks, x: GateEvent)
    requires Honest(remote, gate) && x in remote && forall y :: y in events ==> y in remote
    ensures Knows(IngestGate(log, seen, gate, events, ck).seen, gate, x) <==>
            Knows(seen, gate, x) || (x in events && Good(ck, gate, x))
    ensures |IngestGate(log, seen, gate, events, ck).log| <= |log| + |events|
  {
    if events == [] {
      assert IngestGate(log, seen, gate, events, ck).seen == seen;
    } else {
      var n := |events| - 1;
      var e, before := events[n], IngestGate(log, seen, gate, events[..n], ck);
      KnownAfterIngest(log, seen, gate, remote, events[..n], ck, x);
      assert events == events[..n] + [e];
      if Good(ck, gate, e) && !Knows(before.seen, gate, e) && Knows(Remember(before.seen, gate, e), gate, x) {
        SameOrUnknown(before.seen, gate, remote, e, x);
      }
    }
  }
}
