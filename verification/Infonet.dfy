/** The node's own copy of the chain, updated in place
    (class Infonet in backend/services/mesh/mesh_hashchain.py). */
module InfonetNode {
  import opened Chain
  import opened Locator

  class Infonet {
    var events: seq<Event>
    var headHash: Hash
    var eventIndex: map<Hash, nat>

    /** The head and the index are the ones of the event list. */
    ghost predicate Valid()
      reads this
    {
      && headHash == Head(events)
      && (forall i :: 0 <= i < |events| ==> events[i].eventId in eventIndex && eventIndex[events[i].eventId] == i)
      && (forall h :: h in eventIndex ==> eventIndex[h] < |events| && events[eventIndex[h]].eventId == h)
    }

    constructor ()
      ensures Valid() && events == []
    {
      events, headHash, eventIndex := [], Genesis, map[];
    }

    method ResetChain()
      modifies this
      ensures Valid() && events == []
    {
      events, headHash, eventIndex := [], Genesis, map[];
    }

    method GetLocator(maxEntries: int) returns (locator: seq<Hash>)
      ensures locator == Locate(events, maxEntries)
    {
      if events == [] {
        return [Genesis];
      }
      hide Samples, Offset, Pow2, Picks;
      FirstOffset();
      locator := [];
      var idx, step, count := |events| - 1, 1, 0;
      ghost var room := if maxEntries > 1 then maxEntries - 1 else 0;
      while idx >= 0 && |locator| < maxEntries - 1
        invariant count == |locator| <= room
        invariant idx == |events| - Offset(count)
        invariant step == if count <= 9 then 1 else Pow2(count - 9)
        invariant forall k :: 0 <= k < count ==> Offset(k) <= |events|
        invariant forall k :: 0 <= k < count ==> locator[k] == events[|events| - Offset(k)].eventId
        decreases maxEntries - |locator|
      {
        locator := locator + [events[idx].eventId];
        if count >= 9 {
          step := step * 2;
        }
        OffsetsGrow(count);
        StepDoubles(count);
        idx := idx - step;
        count := count + 1;
      }
      SamplesUnique(|events|, room, count);
      assert locator == Picks(events, count);
      locator := locator + [Genesis];
    }

    method GetEventsAfterLocator(locator: seq<Hash>, limit: nat) returns (m: Match)
      requires Valid()
      ensures m == AfterLocator(events, locator, limit)
    {
      var wanted := if locator == [] then [Genesis] else locator;
      var i := 0;
      while i < |wanted|
        invariant i <= |wanted|
        invariant AfterLocator(events, locator, limit) == Search(events, wanted, i, limit)
      {
        var hsh := wanted[i];
        if hsh == Genesis {
          return Match(Genesis, 0, Page(events, 0, limit));
        }
        if hsh in eventIndex {
          var start := eventIndex[hsh] + 1;
          return Match(hsh, start, Page(events, start, limit));
        }
        i := i + 1;
      }
      return Match(Missing, -1, []);
    }

    method IngestEvents(batch: seq<Event>, p: Policy) returns (accepted: nat, duplicates: nat, rejected: nat)
      requires Valid()
      modifies this
      ensures Valid()
      ensures Ingested(events, accepted, duplicates, rejected) == Ingest(old(events), batch, p)
    {
      hide Ingest, Contains;
      accepted, duplicates, rejected := 0, 0, 0;
      var expectedPrev := headHash;
      var i := 0;
      IngestNothing(events, p);
      assert batch[..0] == [];
      while i < |batch|
        invariant i <= |batch|
        invariant Valid() && expectedPrev == headHash
        invariant Ingested(events, accepted, duplicates, rejected) == Ingest(old(events), batch[..i], p)
      {
        var evt := batch[i];
        IngestOneMore(old(events), batch, i, p);
        IndexTellsMembership(evt.eventId);
        if !p.supported(evt) {
          rejected := rejected + 1;
        } else if evt.eventId == Missing || evt.prevHash == Missing {
          rejected := rejected + 1;
        } else if evt.eventId in eventIndex {
          duplicates := duplicates + 1;
        } else if evt.prevHash != expectedPrev {
          rejected := rejected + 1;
        } else if !p.admit(events, evt) {
          rejected := rejected + 1;
        } else if Digest(evt.prevHash, evt.body) != evt.eventId {
          rejected := rejected + 1;
        } else {
          events := events + [evt];
          eventIndex := eventIndex[evt.eventId := |events| - 1];
          headHash := evt.eventId;
          accepted := accepted + 1;
          expectedPrev := evt.eventId;
        }
        i := i + 1;
      }
      assert batch[..i] == batch;
    }

    lemma IndexTellsMembership(h: Hash)
      requires Valid()
      ensures h in eventIndex <==> Contains(events, h)
    {}
  }

  lemma StepDoubles(count: nat)
    ensures count >= 9 ==> Pow2(count - 8) == 2 * (if count == 9 then 1 else Pow2(count - 9))
  {}

  lemma FirstOffset()
    ensures Offset(0) == 1
  {}

  /** The number of samples is the only count that stops where the loop stops. */
  lemma SamplesUnique(length: nat, room: nat, count: nat)
    requires count <= room
    requires forall k :: 0 <= k < count ==> Offset(k) <= length
    requires count < room ==> Offset(count) > length
    ensures count == Samples(length, room)
  {
  }
}
