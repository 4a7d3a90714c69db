/** Copying gate messages from the chain into the gate store after an ingest
    (`_hydrate_gate_store_from_chain` in backend/main.py). */
module Hydration {
  import opened Chain
  import opened InfonetNode
  import opened Locator
  import opened GateLog
  import opened GateStore

  datatype Copy = Copy(gate: string, event: Event)

  function CopyOf(chain: seq<Event>, e: Event): seq<Copy> {
    if e.body.eventType != "gate_message" || e.eventId == Missing || !Contains(chain, e.eventId) then []
    else
      var canonical := chain[IndexOf(chain, e.eventId)];
      if canonical.body.gate == "" then [] else [Copy(canonical.body.gate, canonical)]
  }

  /** What is offered to the gate store, in batch order. */
  function Copies(chain: seq<Event>, batch: seq<Event>): seq<Copy> {
    if batch == [] then [] else Copies(chain, batch[..|batch| - 1]) + CopyOf(chain, batch[|batch| - 1])
  }

  /** The store after the copies were appended one by one; `clean` is its sanitizing of a
      chain event. */
  function AppendAll(s: Gates, copies: seq<Copy>, clean: Event -> GateEvent): Gates {
    if copies == [] then s
    else
      var last := copies[|copies| - 1];
      Appended(AppendAll(s, copies[..|copies| - 1], clean), last.gate, clean(last.event))
  }

  lemma AppendOneMore(s: Gates, copies: seq<Copy>, c: Copy, clean: Event -> GateEvent)
    ensures AppendAll(s, copies + [c], clean) == Appended(AppendAll(s, copies, clean), c.gate, clean(c.event))
  {
    assert (copies + [c])[..|copies|] == copies;
  }

  method Hydrate(infonet: Infonet, store: GateStore, batch: seq<Event>, clean: Event -> GateEvent)
    requires infonet.Valid() && store.Valid()
    modifies store
    ensures store.Valid()
    ensures store.View() == AppendAll(old(store.View()), Copies(infonet.events, batch), clean)
  {
    hide Appended, AppendAll;
    ghost var copies: seq<Copy> := [];
    ghost var start := store.View();
    NothingAppended(start, clean);
    assert batch[..0] == [];
    for i := 0 to |batch|
      invariant infonet.Valid() && store.Valid()
      invariant copies == Copies(infonet.events, batch[..i]) && store.View() == AppendAll(start, copies, clean)
    {
      assert batch[..i + 1][..i] == batch[..i];
      assert copies + [] == copies;
      var evt := batch[i];
      if evt.body.eventType != "gate_message" {
        continue;
      }
      infonet.IndexTellsMembership(evt.eventId);
      if evt.eventId == Missing || evt.eventId !in infonet.eventIndex {
        continue;
      }
      var canonical := infonet.events[infonet.eventIndex[evt.eventId]];
      if canonical.body.gate == "" {
        continue;
      }
      AppendOneMore(start, copies, Copy(canonical.body.gate, canonical), clean);
      store.Append(canonical.body.gate, clean(canonical));
      copies := copies + [Copy(canonical.body.gate, canonical)];
    }
    assert batch[..|batch|] == batch;
  }

  lemma NothingAppended(s: Gates, clean: Event -> GateEvent)
    ensures AppendAll(s, [], clean) == s
  {
  }

  /** Only events that are resident in the chain are copied, each under its own gate. */
  lemma {:induction false} CopiesAreResident(chain: seq<Event>, batch: seq<Event>)
    ensures forall c :: c in Copies(chain, batch) ==> c.event in chain && c.gate == c.event.body.gate && c.gate != ""
  {
    if batch == [] {
      assert Copies(chain, batch) == [];
    } else {
      CopiesAreResident(chain, batch[..|batch| - 1]);
    }
  }

  /** A batch event asks for the chain's event of the same id. */
  ghost predicate AsksFor(batch: seq<Event>, i: nat, e: Event) {
    i < |batch| && batch[i].body.eventType == "gate_message" && batch[i].eventId == e.eventId
  }

  /** Exactly what is copied: the chain's own events, under their own gates, whose ids some
      gate message of the batch carries. */
  lemma {:induction false} CopiedExactlyWhen(chain: seq<Event>, batch: seq<Event>, c: Copy)
    requires WellLinked(chain)
    ensures c in Copies(chain, batch) <==>
      && c.event in chain && c.gate == c.event.body.gate && c.gate != ""
      && exists i: nat :: AsksFor(batch, i, c.event)
  {
    if batch == [] {
      assert Copies(chain, batch) == [];
    } else {
      var n := |batch| - 1;
      CopiedExactlyWhen(chain, batch[..n], c);
      CopyOfOne(chain, batch[n], c);
      assert batch[..n] + [batch[n]] == batch;
      AsksForOneMore(batch[..n], batch[n], c.event);
      hide CopyOf, AsksFor;
    }
  }

  lemma AsksForOneMore(batch: seq<Event>, last: Event, e: Event)
    ensures (exists i: nat :: AsksFor(batch + [last], i, e)) <==>
            (exists i: nat :: AsksFor(batch, i, e)) || AsksFor([last], 0, e)
  {
    var longer, n := batch + [last], |batch|;
    if i: nat :| AsksFor(longer, i, e) {
      assert if i < n then AsksFor(batch, i, e) else AsksFor([last], 0, e);
    }
    if i: nat :| AsksFor(batch, i, e) {
      assert AsksFor(longer, i, e);
    }
    assert AsksFor([last], 0, e) ==> AsksFor(longer, n, e);
  }

  lemma CopyOfOne(chain: seq<Event>, e: Event, c: Copy)
    requires WellLinked(chain)
    ensures c in CopyOf(chain, e) <==>
      c.event in chain && c.gate == c.event.body.gate && c.gate != "" && AsksFor([e], 0, c.event)
  {
    if c.event in chain && c.event.eventId == e.eventId {
      var i :| 0 <= i < |chain| && chain[i] == c.event;
      PrevIsNotMissing(chain, i);
      SameIdSameHistory(chain, chain, i, IndexOf(chain, e.eventId));
    }
  }

  /** Copies keep the order of the batch. */
  lemma {:induction false} CopiesOfSum(chain: seq<Event>, a: seq<Event>, b: seq<Event>)
    ensures Copies(chain, a + b) == Copies(chain, a) + Copies(chain, b)
  {
    if b == [] {
      assert a + b == a;
      assert Copies(chain, a) + [] == Copies(chain, a);
    } else {
      var n := |b| - 1;
      CopiesOfSum(chain, a, b[..n]);
      assert (a + b)[..|a + b| - 1] == a + b[..n];
      SumsAssociate(Copies(chain, a), Copies(chain, b[..n]), CopyOf(chain, b[n]));
      hide CopyOf;
    }
  }

  lemma SumsAssociate(a: seq<Copy>, b: seq<Copy>, c: seq<Copy>)
    ensures a + (b + c) == (a + b) + c
  {
  }

  /** End to end: after hydration the store knows, under its gate, every resident gate message
      that the batch names. */
  lemma NamedEventsAreKnown(s: Gates, chain: seq<Event>, batch: seq<Event>, clean: Event -> GateEvent, i: nat, e: Event)
    requires WellLinked(chain) && e in chain && e.body.gate != "" && AsksFor(batch, i, e)
    ensures var after := AppendAll(s, Copies(chain, batch), clean);
      e.body.gate in after.logs && Knows(after.seen, e.body.gate, clean(e))
  {
    CopiedExactlyWhen(chain, batch, Copy(e.body.gate, e));
    CopiesAreResident(chain, batch);
    CopiesBecomeKnown(s, Copies(chain, batch), clean, Copy(e.body.gate, e));
  }

  /** Whatever a gate's log holds after hydration was there before or is the chain's own
      event of that gate. */
  lemma {:induction false} HydratedFromTheChain(s: Gates, copies: seq<Copy>, clean: Event -> GateEvent, gate: string,
                                                x: GateEvent)
    requires x in LogIn(AppendAll(s, copies, clean).logs, gate) && x !in LogIn(s.logs, gate)
    ensures exists c :: c in copies && c.gate == gate && clean(c.event) == x
  {
    assert copies != [];
    var n := |copies| - 1;
    var last, before := copies[n], AppendAll(s, copies[..n], clean);
    if x in LogIn(before.logs, gate) {
      HydratedFromTheChain(s, copies[..n], clean, gate, x);
    } else {
      InsertElements(LogIn(before.logs, last.gate), clean(last.event), x);
      assert last in copies;
    }
  }

  ghost predicate SameIdsAndTypes(a: seq<Event>, b: seq<Event>) {
    && |a| == |b|
    && forall i :: 0 <= i < |a| ==> a[i].eventId == b[i].eventId && a[i].body.eventType == b[i].body.eventType
  }

  lemma {:induction false} SameCopies(chain: seq<Event>, a: seq<Event>, b: seq<Event>)
    requires SameIdsAndTypes(a, b)
    ensures Copies(chain, a) == Copies(chain, b)
  {
    if a == [] {
      assert Copies(chain, a) == [];
    } else {
      SameCopies(chain, a[..|a| - 1], b[..|b| - 1]);
    }
  }

  /** A forged payload under a known id has no influence: two batches with the same ids
      and types leave every store in the same state. */
  lemma PayloadsDoNotMatter(s: Gates, chain: seq<Event>, a: seq<Event>, b: seq<Event>, clean: Event -> GateEvent)
    requires SameIdsAndTypes(a, b)
    ensures AppendAll(s, Copies(chain, a), clean) == AppendAll(s, Copies(chain, b), clean)
  {
    SameCopies(chain, a, b);
  }

  /** Every copy is known to the store afterwards. */
  lemma {:induction false} CopiesBecomeKnown(s: Gates, copies: seq<Copy>, clean: Event -> GateEvent, c: Copy)
    requires c in copies && forall d :: d in copies ==> d.gate != ""
    ensures var after := AppendAll(s, copies, clean);
      c.gate in after.logs && Knows(after.seen, c.gate, clean(c.event))
  {
    var n := |copies| - 1;
    assert copies == copies[..n] + [copies[n]];
    if c in copies[..n] {
      CopiesBecomeKnown(s, copies[..n], clean, c);
    }
  }

  lemma {:induction false} KnownCopiesChangeNothing(s: Gates, copies: seq<Copy>, clean: Event -> GateEvent)
    requires forall c :: c in copies ==> c.gate != "" && c.gate in s.logs && Knows(s.seen, c.gate, clean(c.event))
    ensures AppendAll(s, copies, clean) == s
  {
    if copies == [] {
      NothingAppended(s, clean);
    } else {
      var n := |copies| - 1;
      assert copies == copies[..n] + [copies[n]];
      KnownCopiesChangeNothing(s, copies[..n], clean);
      var log := s.logs[copies[n].gate];
      assert s.logs[copies[n].gate := log] == s.logs;
    }
  }

  /** Hydrating a batch again changes nothing. */
  lemma HydratingTwice(s: Gates, chain: seq<Event>, batch: seq<Event>, clean: Event -> GateEvent)
    ensures var copies := Copies(chain, batch);
      AppendAll(AppendAll(s, copies, clean), copies, clean) == AppendAll(s, copies, clean)
  {
    var copies := Copies(chain, batch);
    CopiesAreResident(chain, batch);
    forall c | c in copies
      ensures c.gate in AppendAll(s, copies, clean).logs
      ensures Knows(AppendAll(s, copies, clean).seen, c.gate, clean(c.event))
    {
      CopiesBecomeKnown(s, copies, clean, c);
    }
    KnownCopiesChangeNothing(AppendAll(s, copies, clean), copies, clean);
  }
}
