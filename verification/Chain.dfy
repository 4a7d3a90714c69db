/** The Infonet event chain (backend/services/mesh/mesh_hashchain.py): events linked by
    `prev_hash`, the strict batch ingest, and how two chains can relate. */
module Chain {

  datatype Body = Body(eventType: string, nodeId: string, sequence: int, timestamp: int, gate: string, payload: string)

  /** A collision-free hash: a digest is the very pair it was computed from. `Missing`
      is the empty string, `Genesis` the all-zero hash that precedes the first event. */
  datatype Hash = Missing | Genesis | Digest(prev: Hash, body: Body)

  datatype Event = Event(eventId: Hash, prevHash: Hash, body: Body)

  /** The checks of the ingest that look beyond the linkage. `supported` is the event-type
      test made before the duplicate test; `admit` stands for everything checked after it
      (network, sequence, freshness, payload, signature, key binding, spool limits), which
      may depend on the chain so far. */
  datatype Policy = Policy(supported: Event -> bool, admit: (seq<Event>, Event) -> bool)

  function Head(chain: seq<Event>): Hash {
    if chain == [] then Genesis else chain[|chain| - 1].eventId
  }

  predicate Contains(chain: seq<Event>, h: Hash) {
    exists i :: 0 <= i < |chain| && chain[i].eventId == h
  }

  /** Event `i` names its predecessor and carries the digest of its own content. */
  predicate LinkedAt(chain: seq<Event>, i: nat)
    requires i < |chain|
  {
    && chain[i].prevHash == Head(chain[..i])
    && chain[i].eventId == Digest(chain[i].prevHash, chain[i].body)
  }

  ghost predicate WellLinked(chain: seq<Event>) {
    forall i :: 0 <= i < |chain| ==> LinkedAt(chain, i)
  }

  predicate AdmittedAt(p: Policy, chain: seq<Event>, i: nat)
    requires i < |chain|
  {
    p.supported(chain[i]) && p.admit(chain[..i], chain[i])
  }

  /** Where a node that holds the chain up to `from` stops taking it in order: the first
      position before `to` that the policy refuses, or `to`. */
  function FirstRefused(p: Policy, chain: seq<Event>, from: nat, to: nat): (stop: nat)
    requires from <= to <= |chain|
    ensures from <= stop <= to
    ensures forall i :: from <= i < stop ==> AdmittedAt(p, chain, i)
    ensures stop < to ==> !AdmittedAt(p, chain, stop)
    decreases (to - from)
  {
    if from == to || !AdmittedAt(p, chain, from) then from else FirstRefused(p, chain, from + 1, to)
  }

  /** The events of a stretch whose type the policy does not know. */
  function Unsupported(p: Policy, chain: seq<Event>, from: nat, to: nat): (u: nat)
    requires to <= |chain|
    ensures from <= to ==> u <= to - from
  {
    if from >= to then 0 else Unsupported(p, chain, from, to - 1) + (if p.supported(chain[to - 1]) then 0 else 1)
  }

  // ---------------------------------------------------------------- ingest

  datatype Verdict = Accepted | Duplicate | Rejected

  /** What the ingest does with one event when the chain is `chain`. */
  function Judge(chain: seq<Event>, e: Event, p: Policy): Verdict {
    if !p.supported(e) then Rejected
    else if e.eventId == Missing || e.prevHash == Missing then Rejected
    else if Contains(chain, e.eventId) then Duplicate
    else if e.prevHash != Head(chain) then Rejected
    else if !p.admit(chain, e) then Rejected
    else if e.eventId != Digest(e.prevHash, e.body) then Rejected
    else Accepted
  }

  datatype Ingested = Ingested(chain: seq<Event>, accepted: nat, duplicates: nat, rejected: nat)

  function Count(r: Ingested, e: Event, p: Policy): Ingested {
    match Judge(r.chain, e, p)
    case Accepted => r.(chain := r.chain + [e], accepted := r.accepted + 1)
    case Duplicate => r.(duplicates := r.duplicates + 1)
    case Rejected => r.(rejected := r.rejected + 1)
  }

  function Ingest(chain: seq<Event>, events: seq<Event>, p: Policy): Ingested {
    if events == [] then Ingested(chain, 0, 0, 0)
    else Count(Ingest(chain, events[..|events| - 1], p), events[|events| - 1], p)
  }

  lemma IngestNothing(chain: seq<Event>, p: Policy)
    ensures Ingest(chain, [], p) == Ingested(chain, 0, 0, 0)
  {}

  lemma IngestOneMore(chain: seq<Event>, events: seq<Event>, i: nat, p: Policy)
    requires i < |events|
    ensures Ingest(chain, events[..i + 1], p) == Count(Ingest(chain, events[..i], p), events[i], p)
  {
    assert events[..i + 1][..i] == events[..i];
  }

  /** Whatever the batch holds: the old chain is kept as a prefix, linkage is kept, the
      growth is exactly the accepted count and every event is counted once. */
  lemma {:induction false} IngestKeepsHistory(chain: seq<Event>, events: seq<Event>, p: Policy)
    ensures var r := Ingest(chain, events, p);
      && chain <= r.chain
      && |r.chain| == |chain| + r.accepted
      && r.accepted + r.duplicates + r.rejected == |events|
      && (WellLinked(chain) ==> WellLinked(r.chain))
  {
    if events == [] {
    } else {
      var before := Ingest(chain, events[..|events| - 1], p);
      var e := events[|events| - 1];
      IngestKeepsHistory(chain, events[..|events| - 1], p);
      if WellLinked(chain) && Judge(before.chain, e, p).Accepted? {
        LinkOne(before.chain, e);
      }
    }
  }

  lemma LinkOne(chain: seq<Event>, e: Event)
    requires WellLinked(chain) && e.prevHash == Head(chain) && e.eventId == Digest(e.prevHash, e.body)
    ensures WellLinked(chain + [e])
  {
    var longer := chain + [e];
    forall i | 0 <= i < |longer|
      ensures LinkedAt(longer, i)
    {
      assert longer[..i] == chain[..i];
      if i == |chain| {
        assert chain[..i] == chain;
      } else {
        assert LinkedAt(chain, i);
      }
    }
  }

  lemma PrefixWellLinked(chain: seq<Event>, n: nat)
    requires WellLinked(chain) && n <= |chain|
    ensures WellLinked(chain[..n])
  {
    forall i | 0 <= i < n
      ensures LinkedAt(chain[..n], i)
    {
      assert LinkedAt(chain, i);
      assert chain[..n][..i] == chain[..i];
    }
  }

  // ---------------------------------------------------------------- how two chains relate

  function Depth(h: Hash): nat {
    match h
    case Missing => 0
    case Genesis => 0
    case Digest(prev, _) => 1 + Depth(prev)
  }

  /** The id of an event tells its position. */
  lemma {:induction false} DepthAt(chain: seq<Event>, i: nat)
    requires WellLinked(chain) && i < |chain|
    ensures Depth(chain[i].eventId) == i + 1
  {
    assert LinkedAt(chain, i);
    if i == 0 {
    } else {
      DepthAt(chain, i - 1);
      assert Head(chain[..i]) == chain[i - 1].eventId;
    }
  }

  /** The id of an event determines its whole history. */
  lemma {:induction false} SameIdSameHistory(a: seq<Event>, b: seq<Event>, i: nat, j: nat)
    requires WellLinked(a) && WellLinked(b) && i < |a| && j < |b|
    requires a[i].eventId == b[j].eventId
    ensures i == j && a[..i + 1] == b[..i + 1]
  {
    DepthAt(a, i);
    DepthAt(b, j);
    assert LinkedAt(a, i) && LinkedAt(b, j);
    assert a[i] == b[i];
    if i == 0 {
    } else {
      assert Head(a[..i]) == a[i - 1].eventId && Head(b[..i]) == b[i - 1].eventId;
      SameIdSameHistory(a, b, i - 1, i - 1);
      assert a[..i + 1] == a[..i] + [a[i]] && b[..i + 1] == b[..i] + [b[i]];
    }
  }

  /** Length of the longest common prefix. */
  function Common(a: seq<Event>, b: seq<Event>): (c: nat)
    ensures c <= |a| && c <= |b|
    ensures a[..c] == b[..c]
    ensures c < |a| && c < |b| ==> a[c] != b[c]
  {
    if a == [] || b == [] || a[0] != b[0] then 0
    else
      var c := Common(a[1..], b[1..]);
      assert a[..c + 1] == [a[0]] + a[1..][..c] && b[..c + 1] == [b[0]] + b[1..][..c];
      c + 1
  }

  lemma CommonOfPrefix(a: seq<Event>, b: seq<Event>, c: nat)
    requires c <= |a| && c <= |b| && a[..c] == b[..c]
    ensures c <= Common(a, b)
    ensures c == |a| ==> Common(a, b) == c
  {
  }

  lemma {:induction false} CommonUpToDifference(a: seq<Event>, b: seq<Event>, c: nat)
    requires c < |a| && c < |b| && a[..c] == b[..c] && a[c] != b[c]
    ensures Common(a, b) == c
  {
    if c == 0 {
      assert Common(a, b) == 0;
    } else {
      assert a[..c][0] == b[..c][0];
      assert a[1..][..c - 1] == a[..c][1..] && b[1..][..c - 1] == b[..c][1..];
      CommonUpToDifference(a[1..], b[1..], c - 1);
    }
  }

  /** Two chains share exactly the ids of their common prefix. */
  lemma SharedIds(a: seq<Event>, b: seq<Event>, i: nat)
    requires WellLinked(a) && WellLinked(b) && i < |a|
    ensures Contains(b, a[i].eventId) <==> i < Common(a, b)
  {
    var c := Common(a, b);
    if i < c {
      assert a[..c][i] == b[..c][i];
      assert b[i].eventId == a[i].eventId;
    }
    if Contains(b, a[i].eventId) {
      var j :| 0 <= j < |b| && b[j].eventId == a[i].eventId;
      SameIdSameHistory(a, b, i, j);
      CommonOfPrefix(a, b, i + 1);
    }
  }

  // ---------------------------------------------------------------- ingesting a slice of another chain

  function Inside(from: nat, c: nat, to: nat): (k: nat)
    requires from <= to
    ensures from <= k <= to && (k > from ==> k <= c)
  {
    if c <= from then from else if c < to then c else to
  }

  /** What `Ingest(local, remote[from..to], p)` is when both chains are well linked. The
      events inside the common prefix are known. If the slice starts inside or right after
      the whole local chain, the rest extends it up to the first event the policy refuses;
      everything else is rejected. */
  function SliceResult(local: seq<Event>, remote: seq<Event>, from: nat, to: nat, p: Policy): Ingested
    requires from <= to <= |remote|
  {
    var c := Common(local, remote);
    var known := Inside(from, c, to);
    var unknowable := Unsupported(p, remote, from, known);
    if c == |local| && from <= c < to then
      var stop := FirstRefused(p, remote, c, to);
      Ingested(remote[..stop], stop - c, known - from - unknowable, unknowable + (to - stop))
    else
      Ingested(local, 0, known - from - unknowable, unknowable + (to - known))
  }

  lemma {:induction false} IngestSlice(local: seq<Event>, remote: seq<Event>, from: nat, to: nat, p: Policy)
    requires WellLinked(local) && WellLinked(remote) && from <= to <= |remote|
    ensures Ingest(local, remote[from..to], p) == SliceResult(local, remote, from, to, p)
  {
    hide Ingest, Judge, Common, SliceResult;
    var slice := remote[from..to];
    if from == to {
      assert slice == [];
      IngestNothing(local, p);
      EmptySlice(local, remote, from, p);
    } else {
      IngestSlice(local, remote, from, to - 1, p);
      assert slice[..to - 1 - from] == remote[from..to - 1] && slice[..to - from] == slice;
      IngestOneMore(local, slice, to - 1 - from, p);
      JudgeNext(local, remote, from, to - 1, p);
    }
  }

  lemma EmptySlice(local: seq<Event>, remote: seq<Event>, from: nat, p: Policy)
    requires from <= |remote|
    ensures SliceResult(local, remote, from, from, p) == Ingested(local, 0, 0, 0)
  {
  }

  /** One more event of the slice: the step of `IngestSlice`. */
  lemma JudgeNext(local: seq<Event>, remote: seq<Event>, from: nat, to: nat, p: Policy)
    requires WellLinked(local) && WellLinked(remote) && from <= to < |remote|
    ensures Count(SliceResult(local, remote, from, to, p), remote[to], p) == SliceResult(local, remote, from, to + 1, p)
  {
    hide Judge, Common;
    var c := Common(local, remote);
    if to < c {
      JudgeKnown(local, remote, to, p);
    } else if c == |local| && from <= c {
      assert local == local[..c] == remote[..c];
      JudgeAfterWhole(remote, c, to, p);
      RefusedOneMore(p, remote, c, to);
    } else {
      JudgeForeign(local, remote, from, to, p);
    }
  }

  /** The next event after a node took what it could of `remote[c..to]`. */
  lemma JudgeAfterWhole(remote: seq<Event>, c: nat, to: nat, p: Policy)
    requires WellLinked(remote) && c <= to < |remote|
    ensures var stop := FirstRefused(p, remote, c, to);
      Judge(remote[..stop], remote[to], p) == if stop == to && AdmittedAt(p, remote, to) then Accepted else Rejected
    ensures remote[..to + 1] == remote[..to] + [remote[to]]
  {
    var stop := FirstRefused(p, remote, c, to);
    if stop == to {
      JudgeSuccessor(remote, to, p);
    } else {
      PrefixWellLinked(remote, stop);
      CommonOfPrefix(remote[..stop], remote, stop);
      JudgeForeign(remote[..stop], remote, to, to, p);
    }
  }

  lemma {:induction false} RefusedOneMore(p: Policy, chain: seq<Event>, from: nat, to: nat)
    requires from <= to < |chain|
    ensures var stop := FirstRefused(p, chain, from, to);
      FirstRefused(p, chain, from, to + 1) == (if stop == to && AdmittedAt(p, chain, to) then to + 1 else stop)
    decreases (to - from)
  {
    if from == to {
      assert FirstRefused(p, chain, from, to) == to;
    } else if AdmittedAt(p, chain, from) {
      RefusedOneMore(p, chain, from + 1, to);
    }
  }

  lemma JudgeKnown(local: seq<Event>, remote: seq<Event>, i: nat, p: Policy)
    requires WellLinked(local) && WellLinked(remote)
    requires i < |remote| && i < Common(local, remote)
    ensures Judge(local, remote[i], p) == if p.supported(remote[i]) then Duplicate else Rejected
  {
    SharedIdsSwapped(local, remote, i);
    PrevIsNotMissing(remote, i);
  }

  lemma JudgeSuccessor(remote: seq<Event>, i: nat, p: Policy)
    requires WellLinked(remote) && i < |remote|
    ensures Judge(remote[..i], remote[i], p) == if AdmittedAt(p, remote, i) then Accepted else Rejected
  {
    assert LinkedAt(remote, i);
    NotEarlier(remote, i);
    PrevIsNotMissing(remote, i);
  }

  lemma JudgeForeign(local: seq<Event>, remote: seq<Event>, from: nat, i: nat, p: Policy)
    requires WellLinked(local) && WellLinked(remote)
    requires from <= i < |remote|
    requires var c := Common(local, remote); c <= i && (c < |local| || from > c)
    ensures Judge(local, remote[i], p) == Rejected
  {
    SharedIdsSwapped(local, remote, i);
    if remote[i].prevHash == Head(local) {
      HeadMatchesOnlyWhole(local, remote, i);
    }
  }

  lemma PrevIsNotMissing(chain: seq<Event>, i: nat)
    requires WellLinked(chain) && i < |chain|
    ensures chain[i].prevHash != Missing && chain[i].eventId != Missing
  {
    assert LinkedAt(chain, i);
    if i > 0 {
      assert LinkedAt(chain, i - 1) && Head(chain[..i]) == chain[i - 1].eventId;
    }
  }

  lemma SharedIdsSwapped(local: seq<Event>, remote: seq<Event>, i: nat)
    requires WellLinked(local) && WellLinked(remote) && i < |remote|
    ensures Contains(local, remote[i].eventId) <==> i < Common(local, remote)
  {
    SharedIds(remote, local, i);
    CommonOfPrefix(remote, local, Common(local, remote));
    CommonOfPrefix(local, remote, Common(remote, local));
  }

  lemma NotEarlier(chain: seq<Event>, i: nat)
    requires WellLinked(chain) && i < |chain|
    ensures !Contains(chain[..i], chain[i].eventId)
  {
    forall j | 0 <= j < i
      ensures chain[..i][j].eventId != chain[i].eventId
    {
      DepthAt(chain, i);
      DepthAt(chain, j);
    }
  }

  lemma HeadMatchesOnlyWhole(local: seq<Event>, remote: seq<Event>, i: nat)
    requires WellLinked(local) && WellLinked(remote) && i < |remote|
    requires remote[i].prevHash == Head(local)
    ensures |local| == i && Common(local, remote) == |local|
  {
    if local != [] {
      assert LinkedAt(local, |local| - 1);
    }
    assert LinkedAt(remote, i);
    if i > 0 {
      DepthAt(remote, i - 1);
      assert Head(remote[..i]) == remote[i - 1].eventId;
      SameIdSameHistory(local, remote, |local| - 1, i - 1);
      assert local[..|local|] == local;
      CommonOfPrefix(local, remote, |local|);
    }
  }
}
