/** The block locator (get_locator) and the server's search for a common ancestor
    (get_events_after_locator), both in backend/services/mesh/mesh_hashchain.py. */
module Locator {
  import opened Chain

  const LOCATOR_ENTRIES: nat := 32

  function Pow2(k: nat): (r: nat)
    ensures r >= 1
  {
    if k == 0 then 1 else 2 * Pow2(k - 1)
  }

  /** Entry `k` of a locator is the event this far from the end of the chain: the last ten
      events one by one, then at exponentially growing distances. */
  function Offset(k: nat): (d: nat)
    ensures d >= 1
  {
    if k <= 9 then k + 1 else 8 + Pow2(k - 8)
  }

  /** How many entries a locator has besides genesis. */
  function Samples(length: nat, room: nat): (m: nat)
    ensures m <= room
    ensures forall k :: 0 <= k < m ==> Offset(k) <= length
    ensures m < room ==> Offset(m) > length
  {
    SamplesFrom(length, room, 0)
  }

  function SamplesFrom(length: nat, room: nat, k: nat): (m: nat)
    requires k <= room
    ensures k <= m <= room
    ensures forall i :: k <= i < m ==> Offset(i) <= length
    ensures m < room ==> Offset(m) > length
    decreases room - k
  {
    if k < room && Offset(k) <= length then SamplesFrom(length, room, k + 1) else k
  }

  function Picks(chain: seq<Event>, m: nat): (ids: seq<Hash>)
    requires forall k :: 0 <= k < m ==> Offset(k) <= |chain|
    ensures |ids| == m
    ensures forall k :: 0 <= k < m ==> ids[k] == chain[|chain| - Offset(k)].eventId
  {
    seq(m, k requires 0 <= k < m => chain[|chain| - Offset(k)].eventId)
  }

  function Locate(chain: seq<Event>, maxEntries: int): seq<Hash> {
    if chain == [] then [Genesis]
    else
      var room := if maxEntries > 1 then maxEntries - 1 else 0;
      Picks(chain, Samples(|chain|, room)) + [Genesis]
  }

  lemma OffsetsGrow(k: nat)
    ensures Offset(k + 1) == Offset(k) + (if k < 9 then 1 else Pow2(k - 8))
    ensures Offset(k) > 9 ==> Offset(k + 1) == 2 * Offset(k) - 8
    ensures Offset(k) < Offset(k + 1)
  {}

  lemma {:induction false} OffsetsIncrease(j: nat, k: nat)
    requires j <= k
    ensures Offset(j) + (k - j) <= Offset(k)
  {
    if j < k {
      OffsetsIncrease(j, k - 1);
      OffsetsGrow(k - 1);
    }
  }

  /** The locators that nodes exchange have 32 entries at most, and all of them only beyond
      four million events. */
  lemma FullLocatorExactlyWhen(chain: seq<Event>)
    ensures |Locate(chain, LOCATOR_ENTRIES)| <= 32
    ensures |Locate(chain, LOCATOR_ENTRIES)| == 32 <==> |chain| >= 4194312
  {
    assert Pow2(4) == 16 && Pow2(8) == 256 && Pow2(12) == 4096 && Pow2(16) == 65536 && Pow2(20) == 1048576;
    assert Pow2(22) == 4194304 && Offset(30) == 4194312;
    if chain != [] {
      var m := Samples(|chain|, LOCATOR_ENTRIES - 1);
      assert |Locate(chain, LOCATOR_ENTRIES)| == m + 1;
      if m < 31 {
        OffsetsIncrease(m, 30);
      }
    }
  }

  /** A chain's locator is the bare genesis marker exactly when the chain is empty. */
  lemma LocatorOfEmptyOnly(chain: seq<Event>, maxEntries: int)
    requires maxEntries >= 2
    ensures |Locate(chain, maxEntries)| == 1 <==> chain == []
    ensures |Locate(chain, maxEntries)| <= maxEntries
    ensures chain != [] ==> Locate(chain, maxEntries)[0] == Head(chain)
  {
    if chain != [] {
      var m := Samples(|chain|, maxEntries - 1);
      assert Offset(0) == 1;
      assert m >= 1;
      assert Picks(chain, m)[0] == chain[|chain| - 1].eventId;
    }
  }

  // ---------------------------------------------------------------- the server's search

  function IndexOf(chain: seq<Event>, h: Hash): (i: nat)
    requires Contains(chain, h)
    ensures i < |chain| && chain[i].eventId == h
    ensures forall j :: 0 <= j < i ==> chain[j].eventId != h
  {
    if chain[0].eventId == h then 0
    else
      assert Contains(chain[1..], h) by {
        var i :| 0 <= i < |chain| && chain[i].eventId == h;
        assert chain[1..][i - 1].eventId == h;
      }
      var i := IndexOf(chain[1..], h);
      assert forall j :: 1 <= j < i + 1 ==> chain[j] == chain[1..][j - 1];
      i + 1
  }

  datatype Match = Match(hash: Hash, start: int, events: seq<Event>)

  function Page(chain: seq<Event>, start: nat, limit: nat): seq<Event>
    requires start <= |chain|
  {
    chain[start..if start + limit < |chain| then start + limit else |chain|]
  }

  function AfterLocator(chain: seq<Event>, locator: seq<Hash>, limit: nat): Match {
    if locator == [] then Match(Genesis, 0, Page(chain, 0, limit)) else Search(chain, locator, 0, limit)
  }

  /** The first entry the server knows decides. */
  function Search(chain: seq<Event>, locator: seq<Hash>, i: nat, limit: nat): Match
    requires i <= |locator|
    decreases |locator| - i
  {
    if i == |locator| then Match(Missing, -1, [])
    else if locator[i] == Genesis then Match(Genesis, 0, Page(chain, 0, limit))
    else if Contains(chain, locator[i]) then
      var start := IndexOf(chain, locator[i]) + 1;
      Match(locator[i], start, Page(chain, start, limit))
    else Search(chain, locator, i + 1, limit)
  }

  /** The search in terms of the locator: it stops at the first entry `i` that is genesis or
      the id of an event of the chain, first carried by event `s`, and serves what follows
      that event; without such an entry it serves nothing. An empty locator asks from genesis. */
  lemma AfterLocatorMeans(chain: seq<Event>, locator: seq<Hash>, limit: nat, i: nat, s: nat)
    requires i <= |locator| && s < |chain| && NoneBefore(chain, locator, i)
    ensures var m := AfterLocator(chain, locator, limit);
      var fromStart := chain[..if limit < |chain| then limit else |chain|];
      && (locator == [] ==> m == Match(Genesis, 0, fromStart))
      && (0 < i == |locator| ==> m == Match(Missing, -1, []))
      && (i < |locator| && locator[i] == Genesis ==> m == Match(Genesis, 0, fromStart))
      && (i < |locator| && locator[i] != Genesis && chain[s].eventId == locator[i]
          && (forall r :: 0 <= r < s ==> chain[r].eventId != locator[i]) ==>
            m == Match(locator[i], s + 1, chain[s + 1..if s + 1 + limit < |chain| then s + 1 + limit else |chain|]))
  {
    if locator != [] {
      SearchSkips(chain, locator, 0, i, limit);
    }
  }

  /** The first `i` entries are neither genesis nor events of the chain. */
  ghost predicate NoneBefore(chain: seq<Event>, locator: seq<Hash>, i: nat)
    requires i <= |locator|
  {
    forall j :: 0 <= j < i ==> locator[j] != Genesis && forall s :: 0 <= s < |chain| ==> chain[s].eventId != locator[j]
  }

  /** The first sample that lies below position `c` of a chain of this length. */
  function FirstBelow(length: nat, m: nat, c: nat): (k: nat)
    requires forall i :: 0 <= i < m ==> Offset(i) <= length
    ensures k <= m
    ensures forall i :: 0 <= i < k ==> length - Offset(i) >= c
    ensures k < m ==> length - Offset(k) < c
  {
    FirstBelowFrom(length, m, c, 0)
  }

  function FirstBelowFrom(length: nat, m: nat, c: nat, k: nat): (r: nat)
    requires forall i :: 0 <= i < m ==> Offset(i) <= length
    requires k <= m
    ensures k <= r <= m
    ensures forall i :: k <= i < r ==> length - Offset(i) >= c
    ensures r < m ==> length - Offset(r) < c
    decreases m - k
  {
    if k < m && length - Offset(k) >= c then FirstBelowFrom(length, m, c, k + 1) else k
  }

  /** Where the next page starts when `local` asks a server that holds a chain sharing
      the first `c` events: just after the highest sample below `c`. */
  function ResumeAt(length: nat, c: nat): (start: nat)
    requires c <= length
    ensures start <= c
  {
    var m := Samples(length, LOCATOR_ENTRIES - 1);
    var k := FirstBelow(length, m, c);
    if k < m then length - Offset(k) + 1 else 0
  }

  /** No sample lies in the shared prefix, so the server finds nothing but genesis. */
  predicate Unshared(length: nat, c: nat) {
    c <= length && length > 0 && ResumeAt(length, c) == 0
  }

  /** The search, decided by the common prefix of the two chains alone. */
  lemma SearchFindsCommonPrefix(local: seq<Event>, remote: seq<Event>, limit: nat)
    requires WellLinked(local) && WellLinked(remote)
    ensures var c := Common(local, remote);
      var start := ResumeAt(|local|, c);
      AfterLocator(remote, Locate(local, LOCATOR_ENTRIES), limit)
        == Match(if start == 0 then Genesis else local[start - 1].eventId, start, Page(remote, start, limit))
  {
    var c := Common(local, remote);
    if local == [] {
      assert FirstBelow(0, Samples(0, LOCATOR_ENTRIES - 1), 0) == 0;
    } else {
      var m := Samples(|local|, LOCATOR_ENTRIES - 1);
      var k := FirstBelow(|local|, m, c);
      var locator := Picks(local, m) + [Genesis];
      forall j | 0 <= j < k
        ensures locator[j] != Genesis && !Contains(remote, locator[j])
      {
        UnsharedSample(local, remote, |local| - Offset(j));
      }
      SearchSkips(remote, locator, 0, k, limit);
      if k < m {
        assert locator[k] == Picks(local, m)[k] == local[|local| - Offset(k)].eventId;
        SearchStopsAt(local, remote, locator, |local| - Offset(k), k, limit);
      } else {
        assert locator[k] == Genesis;
      }
    }
  }

  /** A sample inside the shared prefix ends the search at its own position. */
  lemma SearchStopsAt(local: seq<Event>, remote: seq<Event>, locator: seq<Hash>, s: nat, k: nat, limit: nat)
    requires WellLinked(local) && WellLinked(remote) && s < Common(local, remote)
    requires k < |locator| && locator[k] == local[s].eventId
    ensures Search(remote, locator, k, limit) == Match(local[s].eventId, s + 1, Page(remote, s + 1, limit))
  {
    SharedIds(local, remote, s);
    SameIdSameHistory(local, remote, s, IndexOf(remote, local[s].eventId));
    assert LinkedAt(local, s);
  }

  lemma {:induction false} SearchSkips(chain: seq<Event>, locator: seq<Hash>, i: nat, k: nat, limit: nat)
    requires i <= k <= |locator|
    requires forall j :: i <= j < k ==> locator[j] != Genesis && !Contains(chain, locator[j])
    ensures Search(chain, locator, i, limit) == Search(chain, locator, k, limit)
    decreases k - i
  {
    if i < k {
      SearchSkips(chain, locator, i + 1, k, limit);
    }
  }

  lemma UnsharedSample(local: seq<Event>, remote: seq<Event>, s: nat)
    requires WellLinked(local) && WellLinked(remote) && Common(local, remote) <= s < |local|
    ensures local[s].eventId != Genesis && !Contains(remote, local[s].eventId)
  {
    SharedIds(local, remote, s);
    assert LinkedAt(local, s);
  }

  /** The exponential spacing bounds the events that are sent although they are already
      held: fewer than the depth of the divergence, and none while it is below ten. */
  lemma FewEventsResent(length: nat, c: nat)
    requires c <= length && !Unshared(length, c) && length > 0
    ensures c - ResumeAt(length, c) <= (if length - c < 10 then 0 else length - c - 9)
  {
    var m := Samples(length, LOCATOR_ENTRIES - 1);
    var k := FirstBelow(length, m, c);
    var d := length - c;
    assert k < m && Offset(k) > d;
    if k > 0 {
      OffsetsGrow(k - 1);
      assert Offset(k - 1) <= d;
    }
  }

  /** On the short chains that may be reset (under twenty events) a shared prefix can only
      be overlooked when it has at most three events. */
  lemma ShortChainsSampleAlmostAll(length: nat, c: nat)
    requires c <= length < 20 && length > 0
    ensures Unshared(length, c) ==> c <= 3
    ensures c > 3 ==> ResumeAt(length, c) > 0
    ensures length <= 10 ==> (Unshared(length, c) <==> c == 0)
  {
    var m := Samples(length, LOCATOR_ENTRIES - 1);
    var k := FirstBelow(length, m, c);
    assert Pow2(2) == 4 && Pow2(3) == 8 && Pow2(4) == 16;
    assert Offset(10) == 12 && Offset(11) == 16 && Offset(12) == 24;
    assert !(12 < m);
    if k == m {
      OffsetsUpTo(m);
      if m < 10 { assert Offset(m) == m + 1; }
    }
  }

  lemma OffsetsUpTo(m: nat)
    requires 0 < m <= 12
    ensures Offset(m - 1) == (if m <= 10 then m else if m == 11 then 12 else 16)
  {
  }
}
