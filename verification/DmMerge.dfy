/** Merging the two lanes of a direct-message poll (`_merge_dm_poll_messages` and the
    duplicate ranks in backend/main.py). String fields are taken as stripped and, where the
    source lowers them, lower-case. */
module DmMerge {

  datatype Msg = Msg(
    msgId: string,
    senderId: string,
    senderSeal: string,
    deliveryClass: string,
    contractVersion: string,
    recoveryRequired: bool,
    recoveryState: string,
    timestamp: int,
    body: string)

  const REDUCED_VERSION := "request-v2-reduced-v3"

  // ---------------------------------------------------------------- ranks

  predicate IsCanonicalReducedRequest(m: Msg) {
    m.deliveryClass == "request" && m.contractVersion == REDUCED_VERSION && m.recoveryRequired
  }

  predicate IsBlinded(senderId: string) {
    "sealed:" <= senderId || "sender_token:" <= senderId
  }

  /** Marks a sealed contact request for sender recovery. */
  function Annotate(m: Msg): Msg {
    if m.deliveryClass != "request" || !IsBlinded(m.senderId) || !("v3:" <= m.senderSeal) then m
    else
      m.(contractVersion := if m.contractVersion == "" then REDUCED_VERSION else m.contractVersion,
         recoveryRequired := true,
         recoveryState := if m.recoveryState in {"pending", "verified", "failed"} then m.recoveryState else "pending")
  }

  function AuthorityRank(m: Msg): int {
    if m.deliveryClass != "request" then 0
    else if IsCanonicalReducedRequest(m) then 3
    else if IsBlinded(m.senderId) then 1
    else if m.senderId != "" then 2
    else 0
  }

  function RecoveryRank(m: Msg): int {
    if !IsCanonicalReducedRequest(m) then 0
    else if m.recoveryState == "verified" then 2
    else if m.recoveryState == "pending" then 1
    else 0
  }

  function SourceRank(source: string): int {
    if source == "relay" then 2 else if source == "reticulum" then 1 else 0
  }

  /** A message together with the lane it came from. */
  datatype Tagged = Tagged(msg: Msg, source: string)

  function ShouldReplace(existing: Tagged, candidate: Tagged): bool {
    var ca, ea := AuthorityRank(candidate.msg), AuthorityRank(existing.msg);
    if ca != ea then ca > ea
    else
      var cr, er := RecoveryRank(candidate.msg), RecoveryRank(existing.msg);
      if cr != er then cr > er
      else
        var cs, es := SourceRank(candidate.source), SourceRank(existing.source);
        if cs != es then cs > es else candidate.msg.timestamp > existing.msg.timestamp
  }

  /** The replace test is a strict weak order: nothing beats itself, beating is transitive,
      and so is not beating. */
  lemma ReplaceIsStrictWeakOrder(a: Tagged, b: Tagged, c: Tagged)
    ensures !ShouldReplace(a, a)
    ensures ShouldReplace(a, b) && ShouldReplace(b, c) ==> ShouldReplace(a, c)
    ensures !ShouldReplace(a, b) && !ShouldReplace(b, c) ==> !ShouldReplace(a, c)
  {}

  // ---------------------------------------------------------------- the running merge

  /** The position of the entry with a given id. */
  function Slot(merged: seq<Tagged>, id: string): (k: nat)
    ensures k <= |merged|
    ensures forall i :: 0 <= i < k ==> merged[i].msg.msgId != id
    ensures k < |merged| ==> merged[k].msg.msgId == id
  {
    if merged == [] || merged[0].msg.msgId == id then 0 else 1 + Slot(merged[1..], id)
  }

  function AddOne(merged: seq<Tagged>, t: Tagged): seq<Tagged> {
    var k := Slot(merged, t.msg.msgId);
    if t.msg.msgId == "" || k == |merged| then merged + [t]
    else if ShouldReplace(merged[k], t) then merged[k := t]
    else merged
  }

  function Collapse(all: seq<Tagged>): seq<Tagged> {
    if all == [] then [] else AddOne(Collapse(all[..|all| - 1]), all[|all| - 1])
  }

  lemma CollapseOneMore(all: seq<Tagged>, t: Tagged)
    ensures Collapse(all + [t]) == AddOne(Collapse(all), t)
  {
  }

  function Tag(items: seq<Msg>, source: string): (r: seq<Tagged>)
    ensures |r| == |items|
    ensures forall i :: 0 <= i < |items| ==> r[i] == Tagged(items[i], source)
  {
    seq(|items|, i requires 0 <= i < |items| => Tagged(items[i], source))
  }

  function Untag(merged: seq<Tagged>): (r: seq<Msg>)
    ensures |r| == |merged|
    ensures forall i :: 0 <= i < |merged| ==> r[i] == merged[i].msg
  {
    seq(|merged|, i requires 0 <= i < |merged| => merged[i].msg)
  }

  function Lanes(relay: seq<Msg>, direct: seq<Msg>): (all: seq<Tagged>)
    ensures |all| == |relay| + |direct|
  {
    Tag(relay, "relay") + Tag(direct, "reticulum")
  }

  ghost predicate UniqueSlots(merged: seq<Tagged>) {
    forall i, j :: 0 <= i < j < |merged| && merged[i].msg.msgId != "" ==> merged[i].msg.msgId != merged[j].msg.msgId
  }

  lemma AddOneKeepsUnique(merged: seq<Tagged>, t: Tagged)
    requires UniqueSlots(merged)
    ensures UniqueSlots(AddOne(merged, t))
  {}

  lemma {:induction false} CollapseIsUnique(all: seq<Tagged>)
    ensures UniqueSlots(Collapse(all))
  {
    if all == [] {
    } else {
      CollapseIsUnique(all[..|all| - 1]);
      AddOneKeepsUnique(Collapse(all[..|all| - 1]), all[|all| - 1]);
    }
  }

  // ---------------------------------------------------------------- the survivor is the first maximum

  /** `all[k]` is the first of the messages with its id that no other of them beats. */
  ghost predicate FirstBest(all: seq<Tagged>, k: nat)
    requires k < |all|
  {
    && (forall j :: 0 <= j < |all| && all[j].msg.msgId == all[k].msg.msgId ==> !ShouldReplace(all[k], all[j]))
    && (forall j :: 0 <= j < k && all[j].msg.msgId == all[k].msg.msgId ==> ShouldReplace(all[j], all[k]))
  }

  lemma FirstBestOfMore(all: seq<Tagged>, t: Tagged, k: nat)
    requires k < |all| && FirstBest(all, k)
    ensures t.msg.msgId != all[k].msg.msgId || !ShouldReplace(all[k], t) ==> FirstBest(all + [t], k)
    ensures t.msg.msgId == all[k].msg.msgId && ShouldReplace(all[k], t) ==> FirstBest(all + [t], |all|)
  {
  }

  /** Argmax: for every id that occurs, the one entry kept for it is the first message of
      relay ++ direct that is maximal under authority, recovery, source and timestamp. */
  lemma {:induction false} SurvivorIsFirstBest(all: seq<Tagged>, id: string) returns (k: nat)
    requires id != "" && exists i :: 0 <= i < |all| && all[i].msg.msgId == id
    ensures k < |all| && all[k].msg.msgId == id && FirstBest(all, k)
    ensures var slot := Slot(Collapse(all), id);
      slot < |Collapse(all)| && Collapse(all)[slot] == all[k]
  {
    hide AddOne, Slot, ShouldReplace;
    var n := |all| - 1;
    var t := all[n];
    var before := Collapse(all[..n]);
    assert all == all[..n] + [t];
    if i :| 0 <= i < n && all[i].msg.msgId == id {
      assert all[..n][i].msg.msgId == id;
      k := SurvivorIsFirstBest(all[..n], id);
      FirstBestOfMore(all[..n], t, k);
      AddOneAtSlot(before, t, id);
      if t.msg.msgId == id && ShouldReplace(all[k], t) {
        k := n;
      }
    } else {
      k := n;
      ReplaceIsStrictWeakOrder(t, t, t);
      NoSlotWithoutMessage(all[..n], id);
      AddOneCases(before, t);
      assert t.msg.msgId == id && AddOne(before, t) == before + [t];
      SlotOfAppended(before, t);
    }
  }

  lemma AddOneAtSlot(merged: seq<Tagged>, t: Tagged, id: string)
    requires id != "" && Slot(merged, id) < |merged|
    ensures var k := Slot(merged, id);
      && Slot(AddOne(merged, t), id) == k < |AddOne(merged, t)|
      && AddOne(merged, t)[k] == (if t.msg.msgId == id && ShouldReplace(merged[k], t) then t else merged[k])
  {
    var k := Slot(merged, id);
    var after := AddOne(merged, t);
    assert forall i :: 0 <= i < k ==> after[i].msg.msgId == merged[i].msg.msgId;
    assert after[k].msg.msgId == id;
  }

  lemma SlotOfAppended(merged: seq<Tagged>, t: Tagged)
    requires Slot(merged, t.msg.msgId) == |merged|
    ensures Slot(merged + [t], t.msg.msgId) == |merged|
  {
    assert (merged + [t])[|merged|] == t;
  }

  lemma {:induction false} NoSlotWithoutMessage(all: seq<Tagged>, id: string)
    requires id != "" && forall i :: 0 <= i < |all| ==> all[i].msg.msgId != id
    ensures Slot(Collapse(all), id) == |Collapse(all)|
  {
    if all == [] {
    } else {
      var n := |all| - 1;
      NoSlotWithoutMessage(all[..n], id);
      var before := Collapse(all[..n]);
      assert forall i :: 0 <= i < |before| ==> before[i].msg.msgId != id;
      NoSlotAdded(before, all[n], id);
    }
  }

  lemma NoSlotAdded(merged: seq<Tagged>, t: Tagged, id: string)
    requires t.msg.msgId != id && forall i :: 0 <= i < |merged| ==> merged[i].msg.msgId != id
    ensures Slot(AddOne(merged, t), id) == |AddOne(merged, t)|
  {
  }

  // ---------------------------------------------------------------- what is kept, and where

  /** The messages that open a slot: those without an id and the first of each id. */
  function Openers(all: seq<Tagged>): seq<Tagged> {
    if all == [] then []
    else
      var n := |all| - 1;
      var before := Openers(all[..n]);
      if all[n].msg.msgId != "" && Slot(before, all[n].msg.msgId) < |before| then before else before + [all[n]]
  }

  /** Slots stay where they were opened; messages without an id stay as they are. */
  lemma {:induction false} CollapseKeepsSlots(all: seq<Tagged>)
    ensures InSlots(Collapse(all), Openers(all))
  {
    if all == [] {
    } else {
      hide InSlots, AddOne, Slot;
      var n := |all| - 1;
      CollapseKeepsSlots(all[..n]);
      AddOneInSlots(Collapse(all[..n]), Openers(all[..n]), all[n]);
    }
  }

  /** The same id, and the same message if it has none. */
  ghost predicate Paired(x: Tagged, y: Tagged) {
    x.msg.msgId == y.msg.msgId && (x.msg.msgId == "" ==> x == y)
  }

  ghost predicate InSlots(c: seq<Tagged>, o: seq<Tagged>) {
    |c| == |o| && forall i :: 0 <= i < |c| ==> Paired(c[i], o[i])
  }

  lemma AddOneInSlots(c: seq<Tagged>, o: seq<Tagged>, t: Tagged)
    requires InSlots(c, o)
    ensures InSlots(AddOne(c, t), if t.msg.msgId != "" && Slot(o, t.msg.msgId) < |o| then o else o + [t])
  {
    SameSlots(c, o, t.msg.msgId);
    AddOneCases(c, t);
    AppendInSlots(c, o, t);
    var k := Slot(c, t.msg.msgId);
    if t.msg.msgId != "" && k < |c| {
      UpdateInSlots(c, o, k, t);
    }
    hide AddOne, Slot, InSlots, ShouldReplace;
  }

  lemma AppendInSlots(c: seq<Tagged>, o: seq<Tagged>, t: Tagged)
    requires InSlots(c, o)
    ensures InSlots(c + [t], o + [t])
  {
  }

  lemma UpdateInSlots(c: seq<Tagged>, o: seq<Tagged>, k: nat, t: Tagged)
    requires InSlots(c, o) && k < |c| && c[k].msg.msgId == t.msg.msgId != ""
    ensures InSlots(c[k := t], o)
  {
  }

  lemma SameSlots(a: seq<Tagged>, b: seq<Tagged>, id: string)
    requires |a| == |b| && forall i :: 0 <= i < |a| ==> a[i].msg.msgId == b[i].msg.msgId
    ensures Slot(a, id) == Slot(b, id)
  {
  }

  // ---------------------------------------------------------------- the final sort

  function Position(sorted: seq<Msg>, m: Msg): (k: nat)
    ensures k <= |sorted|
    ensures forall i :: 0 <= i < k ==> sorted[i].timestamp <= m.timestamp
    ensures k < |sorted| ==> sorted[k].timestamp > m.timestamp
  {
    if sorted == [] || sorted[0].timestamp > m.timestamp then 0 else 1 + Position(sorted[1..], m)
  }

  function InsertByTime(sorted: seq<Msg>, m: Msg): (longer: seq<Msg>)
    ensures |longer| == |sorted| + 1 && longer[Position(sorted, m)] == m
    ensures forall i :: 0 <= i < Position(sorted, m) ==> longer[i] == sorted[i]
    ensures forall i :: Position(sorted, m) < i < |longer| ==> longer[i] == sorted[i - 1]
  {
    var k := Position(sorted, m);
    sorted[..k] + [m] + sorted[k..]
  }

  /** The built-in stable sort by timestamp. */
  function SortByTime(items: seq<Msg>): seq<Msg> {
    if items == [] then [] else InsertByTime(SortByTime(items[..|items| - 1]), items[|items| - 1])
  }

  ghost predicate ByTime(items: seq<Msg>) {
    forall i, j :: 0 <= i < j < |items| ==> items[i].timestamp <= items[j].timestamp
  }

  function AtTime(items: seq<Msg>, t: int): seq<Msg> {
    if items == [] then []
    else AtTime(items[..|items| - 1], t) + (if items[|items| - 1].timestamp == t then [items[|items| - 1]] else [])
  }

  lemma {:induction false} AtTimeOfSum(a: seq<Msg>, b: seq<Msg>, t: int)
    ensures AtTime(a + b, t) == AtTime(a, t) + AtTime(b, t)
  {
    if b == [] {
      assert a + b == a;
    } else {
      var n := |b| - 1;
      AtTimeOfSum(a, b[..n], t);
      assert (a + b)[..|a + b| - 1] == a + b[..n];
    }
  }

  lemma {:induction false} NoneAtOtherTimes(items: seq<Msg>, t: int)
    requires forall i :: 0 <= i < |items| ==> items[i].timestamp != t
    ensures AtTime(items, t) == []
  {
    if items == [] {
    } else {
      NoneAtOtherTimes(items[..|items| - 1], t);
    }
  }

  lemma LaterThanInserted(sorted: seq<Msg>, m: Msg)
    requires ByTime(sorted)
    ensures forall i :: Position(sorted, m) <= i < |sorted| ==> sorted[i].timestamp > m.timestamp
  {
  }

  lemma InsertIsStable(sorted: seq<Msg>, m: Msg, t: int)
    requires ByTime(sorted)
    ensures AtTime(InsertByTime(sorted, m), t) == AtTime(sorted + [m], t)
  {
    hide *;
    LaterThanInserted(sorted, m);
    InsertSplits(sorted, m);
    var k := Position(sorted, m);
    SumsAtTime(sorted[..k], [m], sorted[k..], t);
    if t == m.timestamp {
      NoneAtOtherTimes(sorted[k..], t);
    } else {
      NoneAtOtherTimes([m], t);
    }
  }

  lemma InsertSplits(sorted: seq<Msg>, m: Msg)
    ensures var k := Position(sorted, m);
      InsertByTime(sorted, m) == sorted[..k] + [m] + sorted[k..] && sorted + [m] == sorted[..k] + sorted[k..] + [m]
  {}

  lemma SumsAtTime(head: seq<Msg>, mid: seq<Msg>, tail: seq<Msg>, t: int)
    ensures AtTime(head + mid + tail, t) == AtTime(head, t) + AtTime(mid, t) + AtTime(tail, t)
    ensures AtTime(head + tail + mid, t) == AtTime(head, t) + AtTime(tail, t) + AtTime(mid, t)
  {
    AtTimeOfSum(head, tail, t);
    AtTimeOfSum(head + tail, mid, t);
    AtTimeOfSum(head, mid, t);
    AtTimeOfSum(head + mid, tail, t);
  }

  lemma InsertKeepsByTime(sorted: seq<Msg>, m: Msg)
    requires ByTime(sorted)
    ensures ByTime(InsertByTime(sorted, m))
  {
  }

  lemma InsertKeepsMessages(sorted: seq<Msg>, m: Msg)
    ensures multiset(InsertByTime(sorted, m)) == multiset(sorted + [m])
  {
    hide *;
    InsertSplits(sorted, m);
    var k := Position(sorted, m);
    assert sorted[..k] + sorted[k..] == sorted;
  }

  lemma SortOneMore(items: seq<Msg>, m: Msg)
    ensures SortByTime(items + [m]) == InsertByTime(SortByTime(items), m)
  {
  }

  lemma {:induction false} SortOrders(items: seq<Msg>)
    ensures ByTime(SortByTime(items))
  {
    if items == [] {
    } else {
      SortOrders(items[..|items| - 1]);
      InsertKeepsByTime(SortByTime(items[..|items| - 1]), items[|items| - 1]);
    }
  }

  lemma {:induction false} SortKeepsMessages(items: seq<Msg>)
    ensures multiset(SortByTime(items)) == multiset(items)
    ensures |SortByTime(items)| == |items|
  {
    if items == [] {
    } else {
      hide InsertByTime, Position;
      var init, m := items[..|items| - 1], items[|items| - 1];
      assert init + [m] == items;
      SortKeepsMessages(init);
      InsertKeepsMessages(SortByTime(init), m);
    }
  }

  /** The sort keeps the order of messages with equal times. */
  lemma {:induction false} SortIsStable(items: seq<Msg>, t: int)
    ensures AtTime(SortByTime(items), t) == AtTime(items, t)
  {
    if items == [] {
    } else {
      hide ByTime, InsertByTime, AtTime, Position, SortByTime;
      var init, m := items[..|items| - 1], items[|items| - 1];
      SortIsStable(init, t);
      SortOrders(init);
      SortOneMore(init, m);
      InsertIsStable(SortByTime(init), m, t);
      AtTimeOfSum(SortByTime(init), [m], t);
      AtTimeOfSum(init, [m], t);
      assert items == init + [m];
    }
  }

  lemma {:induction false} SortOfOrdered(items: seq<Msg>)
    requires ByTime(items)
    ensures SortByTime(items) == items
  {
    if items == [] {
      assert SortByTime(items) == [];
    } else {
      var n := |items| - 1;
      var before, last := items[..n], items[n];
      assert items == before + [last];
      ByTimeUpToLast(before, last);
      SortOfOrdered(before);
      hide SortByTime, ByTime, InsertByTime, Position;
      SortOneMore(before, last);
      PositionAtEnd(before, last);
    }
  }

  lemma ByTimeUpToLast(items: seq<Msg>, last: Msg)
    requires ByTime(items + [last])
    ensures ByTime(items) && forall i :: 0 <= i < |items| ==> items[i].timestamp <= last.timestamp
  {
    var all := items + [last];
    assert all[|items|] == last && forall i :: 0 <= i < |items| ==> all[i] == items[i];
  }

  lemma PositionAtEnd(sorted: seq<Msg>, m: Msg)
    requires forall i :: 0 <= i < |sorted| ==> sorted[i].timestamp <= m.timestamp
    ensures InsertByTime(sorted, m) == sorted + [m]
  {}

  // ---------------------------------------------------------------- the whole merge

  function Merge(relay: seq<Msg>, direct: seq<Msg>): seq<Msg> {
    SortByTime(Untag(Collapse(Lanes(relay, direct))))
  }

  ghost predicate UniqueIds(items: seq<Msg>) {
    forall i, j :: 0 <= i < j < |items| && items[i].msgId != "" ==> items[i].msgId != items[j].msgId
  }

  predicate HasMsgId(items: seq<Msg>, id: string) {
    exists i :: 0 <= i < |items| && items[i].msgId == id
  }

  lemma InsertKeepsUniqueIds(sorted: seq<Msg>, m: Msg)
    requires UniqueIds(sorted) && (m.msgId == "" || !HasMsgId(sorted, m.msgId))
    ensures UniqueIds(InsertByTime(sorted, m))
  {
  }

  lemma InsertHasIds(sorted: seq<Msg>, m: Msg, id: string)
    ensures HasMsgId(InsertByTime(sorted, m), id) <==> id == m.msgId || HasMsgId(sorted, id)
  {
    hide InsertByTime, Position;
    var k := Position(sorted, m);
    var longer := InsertByTime(sorted, m);
    if i :| 0 <= i < |sorted| && sorted[i].msgId == id {
      assert longer[if i < k then i else i + 1].msgId == id;
    }
    assert longer[k].msgId == m.msgId;
    if i :| 0 <= i < |longer| && longer[i].msgId == id && i != k {
      assert sorted[if i < k then i else i - 1].msgId == id;
    }
  }

  lemma {:induction false} SortKeepsIds(items: seq<Msg>, id: string)
    ensures HasMsgId(SortByTime(items), id) <==> HasMsgId(items, id)
  {
    if items == [] {
    } else {
      var n := |items| - 1;
      SortKeepsIds(items[..n], id);
      InsertHasIds(SortByTime(items[..n]), items[n], id);
      PrefixIds(items, id);
    }
  }

  lemma PrefixIds(items: seq<Msg>, id: string)
    requires items != []
    ensures HasMsgId(items, id) <==> HasMsgId(items[..|items| - 1], id) || items[|items| - 1].msgId == id
  {
  }

  lemma {:induction false} SortKeepsUniqueIds(items: seq<Msg>)
    requires UniqueIds(items)
    ensures UniqueIds(SortByTime(items))
  {
    if items == [] {
    } else {
      var n := |items| - 1;
      SortKeepsUniqueIds(items[..n]);
      SortKeepsIds(items[..n], items[n].msgId);
      InsertKeepsUniqueIds(SortByTime(items[..n]), items[n]);
    }
  }

  lemma UntagKeepsUnique(merged: seq<Tagged>)
    ensures UniqueSlots(merged) ==> UniqueIds(Untag(merged))
  {}

  /** Shape of the result: sorted by time, each id of the inputs exactly once and no other. */
  lemma MergeShape(relay: seq<Msg>, direct: seq<Msg>, id: string)
    ensures var r := Merge(relay, direct);
      && ByTime(r) && UniqueIds(r)
      && (id != "" ==> (HasMsgId(r, id) <==> HasMsgId(relay, id) || HasMsgId(direct, id)))
      && |r| <= |relay| + |direct|
  {
    var all := Lanes(relay, direct);
    var merged := Collapse(all);
    hide Collapse, Lanes, SortByTime, ByTime, UniqueIds, Slot;
    SortOrders(Untag(merged));
    SortKeepsMessages(Untag(merged));
    UntagKeepsUnique(merged);
    CollapseIsUnique(all);
    SortKeepsUniqueIds(Untag(merged));
    SortKeepsIds(Untag(merged), id);
    CollapseIsShort(all);
    if id != "" {
      LaneIds(relay, direct, id);
      if exists i :: 0 <= i < |all| && all[i].msg.msgId == id {
        var k := SurvivorIsFirstBest(all, id);
        assert Untag(merged)[Slot(merged, id)].msgId == id;
      } else {
        NoSlotWithoutMessage(all, id);
      }
    }
  }

  /** Argmax on the result: of each id that occurs in the inputs, the merge holds one
      message, the first of relay ++ direct that no other of that id beats. */
  lemma MergeKeepsFirstBest(relay: seq<Msg>, direct: seq<Msg>, id: string) returns (k: nat)
    requires id != "" && (HasMsgId(relay, id) || HasMsgId(direct, id))
    ensures k < |Lanes(relay, direct)| && FirstBest(Lanes(relay, direct), k)
    ensures var best := Lanes(relay, direct)[k].msg;
      && best.msgId == id && best in Merge(relay, direct)
      && forall m :: m in Merge(relay, direct) && m.msgId == id ==> m == best
  {
    var all := Lanes(relay, direct);
    LaneIds(relay, direct, id);
    hide Collapse, Lanes, SortByTime, FirstBest, Slot, ByTime;
    k := SurvivorIsFirstBest(all, id);
    var merged := Collapse(all);
    var items := Untag(merged);
    assert items[Slot(merged, id)] == all[k].msg;
    SortKeepsMessages(items);
    InSorted(items, all[k].msg);
    MergeShape(relay, direct, id);
  }

  lemma InSorted(items: seq<Msg>, m: Msg)
    ensures m in SortByTime(items) <==> m in items
  {
    SortKeepsMessages(items);
    assert m in SortByTime(items) <==> m in multiset(SortByTime(items));
    assert m in items <==> m in multiset(items);
  }

  // ---------------------------------------------------------------- the survivor in terms of the fields

  ghost predicate CanonicalRequest(m: Msg) {
    m.deliveryClass == "request" && m.contractVersion == "request-v2-reduced-v3" && m.recoveryRequired
  }

  ghost predicate BlindSender(m: Msg) {
    "sealed:" <= m.senderId || "sender_token:" <= m.senderId
  }

  /** Any other request that says who sends it, in the clear or blinded. */
  ghost predicate NamedRequest(m: Msg) {
    m.deliveryClass == "request" && !CanonicalRequest(m) && !BlindSender(m) && m.senderId != ""
  }

  ghost predicate BlindedRequest(m: Msg) {
    m.deliveryClass == "request" && !CanonicalRequest(m) && BlindSender(m)
  }

  ghost predicate SameKind(x: Msg, y: Msg) {
    && (CanonicalRequest(x) <==> CanonicalRequest(y))
    && (NamedRequest(x) <==> NamedRequest(y))
    && (BlindedRequest(x) <==> BlindedRequest(y))
  }

  ghost predicate SameRecovery(x: Msg, y: Msg) {
    CanonicalRequest(x) ==>
      && (x.recoveryState == "verified" <==> y.recoveryState == "verified")
      && (x.recoveryState == "pending" <==> y.recoveryState == "pending")
  }

  /** How two copies of a message compare: a canonical request stands above one with a plain
      sender, that above one with a blinded sender, and that above anything else; among
      canonical requests a verified one above a pending one, and that above the rest; at equal
      standing the relay's copy above the direct lane's; within a lane the later one. */
  ghost predicate StandsAbove(x: Tagged, y: Tagged) {
    var a, b := x.msg, y.msg;
    if !SameKind(a, b) then
      CanonicalRequest(a) || (NamedRequest(a) && !CanonicalRequest(b)) ||
      (BlindedRequest(a) && !CanonicalRequest(b) && !NamedRequest(b))
    else if !SameRecovery(a, b) then
      a.recoveryState == "verified" || (a.recoveryState == "pending" && b.recoveryState != "verified")
    else if x.source != y.source then x.source == "relay"
    else a.timestamp > b.timestamp
  }

  lemma ReplacesExactlyWhenAbove(x: Tagged, y: Tagged)
    requires x.source in {"relay", "reticulum"} && y.source in {"relay", "reticulum"}
    ensures ShouldReplace(x, y) <==> StandsAbove(y, x)
  {
  }

  /** Which copy survives, for all lists: the one that no other copy stands above, and among
      equals the first. The lanes are the two inputs. */
  lemma SurvivorStandsHighest(relay: seq<Msg>, direct: seq<Msg>, id: string) returns (best: Tagged, k: nat)
    requires id != "" && (HasMsgId(relay, id) || HasMsgId(direct, id))
    ensures best.msg.msgId == id && best.msg in Merge(relay, direct)
    ensures forall m :: m in Merge(relay, direct) && m.msgId == id ==> m == best.msg
    ensures k < |relay| + |direct|
    ensures best == if k < |relay| then Tagged(relay[k], "relay") else Tagged(direct[k - |relay|], "reticulum")
    ensures forall i :: 0 <= i < |relay| && relay[i].msgId == id ==>
      && !StandsAbove(Tagged(relay[i], "relay"), best)
      && (i < k ==> StandsAbove(best, Tagged(relay[i], "relay")))
    ensures forall i :: 0 <= i < |direct| && direct[i].msgId == id ==>
      && !StandsAbove(Tagged(direct[i], "reticulum"), best)
      && (|relay| + i < k ==> StandsAbove(best, Tagged(direct[i], "reticulum")))
  {
    k := MergeKeepsFirstBest(relay, direct, id);
    var all := Lanes(relay, direct);
    best := all[k];
    LanesByPosition(relay, direct);
    FirstBestStandsHighest(all, k);
    ByLanes(relay, direct, id, best, k);
    hide StandsAbove, Merge, Lanes, FirstBest, HasMsgId;
  }

  /** The copies of one id, told by their place in the two lanes together and by lane. */
  lemma ByLanes(relay: seq<Msg>, direct: seq<Msg>, id: string, best: Tagged, k: nat)
    requires forall i :: 0 <= i < |relay| + |direct| && Lanes(relay, direct)[i].msg.msgId == id ==>
      && !StandsAbove(Lanes(relay, direct)[i], best)
      && (i < k ==> StandsAbove(best, Lanes(relay, direct)[i]))
    ensures forall i :: 0 <= i < |relay| && relay[i].msgId == id ==>
      && !StandsAbove(Tagged(relay[i], "relay"), best)
      && (i < k ==> StandsAbove(best, Tagged(relay[i], "relay")))
    ensures forall i :: 0 <= i < |direct| && direct[i].msgId == id ==>
      && !StandsAbove(Tagged(direct[i], "reticulum"), best)
      && (|relay| + i < k ==> StandsAbove(best, Tagged(direct[i], "reticulum")))
  {
    var all := Lanes(relay, direct);
    LanesByPosition(relay, direct);
    hide StandsAbove, Lanes;
    forall i | 0 <= i < |relay| && relay[i].msgId == id
      ensures !StandsAbove(Tagged(relay[i], "relay"), best) && (i < k ==> StandsAbove(best, Tagged(relay[i], "relay")))
    {
      assert all[i] == Tagged(relay[i], "relay");
    }
    forall i | 0 <= i < |direct| && direct[i].msgId == id
      ensures !StandsAbove(Tagged(direct[i], "reticulum"), best)
      ensures |relay| + i < k ==> StandsAbove(best, Tagged(direct[i], "reticulum"))
    {
      assert all[|relay| + i] == Tagged(direct[i], "reticulum");
    }
  }

  lemma FirstBestStandsHighest(all: seq<Tagged>, k: nat)
    requires k < |all| && FirstBest(all, k) && forall i :: 0 <= i < |all| ==> all[i].source in {"relay", "reticulum"}
    ensures forall i :: 0 <= i < |all| && all[i].msg.msgId == all[k].msg.msgId ==>
      !StandsAbove(all[i], all[k]) && (i < k ==> StandsAbove(all[k], all[i]))
  {
    hide StandsAbove, ShouldReplace;
    forall i | 0 <= i < |all| && all[i].msg.msgId == all[k].msg.msgId
      ensures !StandsAbove(all[i], all[k]) && (i < k ==> StandsAbove(all[k], all[i]))
    {
      ReplacesExactlyWhenAbove(all[k], all[i]);
      ReplacesExactlyWhenAbove(all[i], all[k]);
    }
  }

  lemma LanesByPosition(relay: seq<Msg>, direct: seq<Msg>)
    ensures var all := Lanes(relay, direct);
      && (forall i :: 0 <= i < |relay| ==> all[i] == Tagged(relay[i], "relay"))
      && (forall i :: 0 <= i < |direct| ==> all[|relay| + i] == Tagged(direct[i], "reticulum"))
      && (forall i :: 0 <= i < |all| ==> all[i].source in {"relay", "reticulum"})
  {
  }

  /** So a relay copy is never lost to a direct copy of the same message. */
  lemma RelayCopyWins(m: Msg, relayTime: int, directTime: int)
    requires m.msgId != ""
    ensures Merge([m.(timestamp := relayTime)], [m.(timestamp := directTime)]) == [m.(timestamp := relayTime)]
  {
    var a, b := m.(timestamp := relayTime), m.(timestamp := directTime);
    var all := Lanes([a], [b]);
    assert all == [Tagged(a, "relay"), Tagged(b, "reticulum")];
    assert all[..1] == [Tagged(a, "relay")] && all[..1][..0] == [];
    assert Collapse(all[..1]) == [Tagged(a, "relay")];
    assert Collapse(all) == [Tagged(a, "relay")];
    assert Untag(Collapse(all)) == [a] && [a][..0] == [];
    assert SortByTime([a]) == InsertByTime([], a) == [a];
  }

  /** The annotation: it touches only requests from a blinded sender with a version-3 seal, and
      only their contract and recovery fields. Those without a contract version become canonical
      requests, with their recovery pending unless they say otherwise. */
  lemma AnnotationInFields(m: Msg)
    ensures var a := Annotate(m);
      && m == a.(contractVersion := m.contractVersion, recoveryRequired := m.recoveryRequired,
                 recoveryState := m.recoveryState)
      && (if m.deliveryClass == "request" && BlindSender(m) && "v3:" <= m.senderSeal then
            && (m.contractVersion == "" || m.contractVersion == "request-v2-reduced-v3" ==> CanonicalRequest(a))
            && (m.contractVersion != "" ==> a.contractVersion == m.contractVersion)
            && (m.recoveryState == "verified" || m.recoveryState == "pending" || m.recoveryState == "failed" ==>
                  a.recoveryState == m.recoveryState)
            && (m.recoveryState != "verified" && m.recoveryState != "failed" ==> a.recoveryState == "pending")
            && a.recoveryRequired
          else a == m)
  {
  }

  /** Messages without an id are neither dropped nor doubled. */
  lemma IdlessUnchanged(relay: seq<Msg>, direct: seq<Msg>, m: Msg)
    requires m.msgId == ""
    ensures multiset(Merge(relay, direct))[m] == multiset(relay + direct)[m]
  {
    var all := Lanes(relay, direct);
    UntagLanes(relay, direct);
    hide Collapse, Untag, Lanes, SortByTime;
    SortKeepsMessages(Untag(Collapse(all)));
    CollapseKeepsIdless(all, m);
  }

  lemma UntagLanes(relay: seq<Msg>, direct: seq<Msg>)
    ensures Untag(Lanes(relay, direct)) == relay + direct
  {
  }

  lemma {:induction false} CollapseKeepsIdless(all: seq<Tagged>, m: Msg)
    requires m.msgId == ""
    ensures multiset(Untag(Collapse(all)))[m] == multiset(Untag(all))[m]
  {
    if all == [] {
    } else {
      var rest, t := all[..|all| - 1], all[|all| - 1];
      CollapseKeepsIdless(rest, m);
      assert all == rest + [t];
      UntagAppend(rest, t);
      hide Collapse, Untag;
      CollapseOneMore(rest, t);
      AddOneKeepsIdless(Collapse(rest), t, m);
    }
  }

  lemma AddOneKeepsIdless(c: seq<Tagged>, t: Tagged, m: Msg)
    requires m.msgId == ""
    ensures multiset(Untag(AddOne(c, t)))[m] == multiset(Untag(c))[m] + (if t.msg == m then 1 else 0)
  {
    var k := Slot(c, t.msg.msgId);
    UntagAppend(c, t);
    if t.msg.msgId != "" && k < |c| {
      UntagUpdate(c, k, t);
    }
  }

  lemma LaneIds(relay: seq<Msg>, direct: seq<Msg>, id: string)
    ensures (exists i :: 0 <= i < |relay| + |direct| && Lanes(relay, direct)[i].msg.msgId == id)
       <==> HasMsgId(relay, id) || HasMsgId(direct, id)
  {
    var all := Lanes(relay, direct);
    if i :| 0 <= i < |relay| && relay[i].msgId == id {
      assert all[i].msg.msgId == id;
    }
    if i :| 0 <= i < |direct| && direct[i].msgId == id {
      assert all[|relay| + i].msg.msgId == id;
    }
    if i :| 0 <= i < |all| && all[i].msg.msgId == id {
      assert if i < |relay| then relay[i].msgId == id else direct[i - |relay|].msgId == id;
    }
  }

  lemma {:induction false} CollapseIsShort(all: seq<Tagged>)
    ensures |Collapse(all)| <= |all|
  {
    if all == [] {
    } else {
      CollapseIsShort(all[..|all| - 1]);
    }
  }

  lemma {:induction false} CollapseOfUnique(all: seq<Tagged>)
    requires UniqueSlots(all)
    ensures Collapse(all) == all
  {
    if all == [] {
    } else {
      var n := |all| - 1;
      CollapseOfUnique(all[..n]);
      assert all == all[..n] + [all[n]];
      assert all[n].msg.msgId != "" ==> forall i :: 0 <= i < n ==> all[i].msg.msgId != all[n].msg.msgId;
      hide Collapse, UniqueSlots;
      CollapseOneMore(all[..n], all[n]);
    }
  }

  /** Merging a result once more changes nothing. */
  lemma MergeIsIdempotent(relay: seq<Msg>, direct: seq<Msg>)
    ensures Merge(Merge(relay, direct), []) == Merge(relay, direct)
  {
    var r := Merge(relay, direct);
    MergeShape(relay, direct, "");
    var again := Lanes(r, []);
    assert again == Tag(r, "relay");
    assert UniqueSlots(again);
    CollapseOfUnique(again);
    assert Untag(again) == r;
    SortOfOrdered(r);
  }

  // ---------------------------------------------------------------- the imperative merge

  class DmMerger {
    var merged: seq<Msg>
    var indexByMsgId: map<string, (nat, string)>
    ghost var seen: seq<Tagged>

    /** The list and the index are what the messages seen so far collapse to. */
    ghost predicate Valid()
      reads this
    {
      merged == Untag(Collapse(seen)) && indexByMsgId == Index(Collapse(seen))
    }

    constructor ()
      ensures Valid() && seen == []
    {
      merged, indexByMsgId, seen := [], map[], [];
    }

    method AddMessages(items: seq<Msg>, source: string)
      requires Valid()
      modifies this
      ensures Valid() && seen == old(seen) + Tag(items, source)
    {
      assert old(seen) + Tag(items, source)[..0] == old(seen);
      for i := 0 to |items|
        invariant Valid() && seen == old(seen) + Tag(items, source)[..i]
      {
        AddMessage(items[i], source);
        assert Tag(items, source)[..i + 1] == Tag(items, source)[..i] + [Tagged(items[i], source)];
      }
      assert Tag(items, source)[..|items|] == Tag(items, source);
    }

    method AddMessage(item: Msg, source: string)
      requires Valid()
      modifies this
      ensures Valid() && seen == old(seen) + [Tagged(item, source)]
    {
      hide Collapse, AddOne, Slot, ShouldReplace, Index, Untag;
      ghost var c, t := Collapse(seen), Tagged(item, source);
      CollapseOneMore(seen, t);
      ListAfterAddOne(c, t);
      IndexAfterAddOne(c, t);
      seen := seen + [t];
      if item.msgId == "" {
        merged := merged + [item];
      } else if item.msgId !in indexByMsgId {
        indexByMsgId := indexByMsgId[item.msgId := (|merged|, source)];
        merged := merged + [item];
      } else {
        var (index, existingSource) := indexByMsgId[item.msgId];
        if ShouldReplace(Tagged(merged[index], existingSource), Tagged(item, source)) {
          merged := merged[index := item];
          indexByMsgId := indexByMsgId[item.msgId := (index, source)];
        }
      }
    }
  }

  /** The index that goes with a list: position and lane of each id. */
  function Index(c: seq<Tagged>): map<string, (nat, string)> {
    map t | t in c && t.msg.msgId != "" :: t.msg.msgId := (Slot(c, t.msg.msgId), c[Slot(c, t.msg.msgId)].source)
  }

  lemma AddOneCases(c: seq<Tagged>, t: Tagged)
    ensures var k := Slot(c, t.msg.msgId);
      AddOne(c, t) ==
        if t.msg.msgId == "" || k == |c| then c + [t] else if ShouldReplace(c[k], t) then c[k := t] else c
  {}

  lemma ListAfterAddOne(c: seq<Tagged>, t: Tagged)
    ensures var k := Slot(c, t.msg.msgId);
      Untag(AddOne(c, t)) == (if t.msg.msgId == "" || k == |c| then Untag(c) + [t.msg]
                              else if ShouldReplace(c[k], t) then Untag(c)[k := t.msg]
                              else Untag(c))
  {
    hide Slot, ShouldReplace, Untag, AddOne;
    AddOneCases(c, t);
    UntagAppend(c, t);
    if Slot(c, t.msg.msgId) < |c| {
      UntagUpdate(c, Slot(c, t.msg.msgId), t);
    }
  }

  lemma UntagAppend(c: seq<Tagged>, t: Tagged)
    ensures Untag(c + [t]) == Untag(c) + [t.msg]
  {}

  lemma UntagUpdate(c: seq<Tagged>, k: nat, t: Tagged)
    requires k < |c|
    ensures Untag(c[k := t]) == Untag(c)[k := t.msg]
  {}

  ghost predicate Indexed(c: seq<Tagged>, index: map<string, (nat, string)>, id: string) {
    && (id in index <==> id != "" && Slot(c, id) < |c|)
    && (id in index ==> index[id] == (Slot(c, id), c[Slot(c, id)].source))
  }

  lemma IndexedIsIndex(c: seq<Tagged>, index: map<string, (nat, string)>)
    requires forall id :: Indexed(c, index, id)
    ensures index == Index(c)
  {
    hide Slot, Index;
    IndexDomain(c);
    forall id
      ensures id in index <==> id in Index(c)
      ensures id in index ==> index[id] == Index(c)[id]
    {
      assert Indexed(c, index, id);
    }
  }

  function IndexWith(c: seq<Tagged>, t: Tagged): map<string, (nat, string)> {
    var k := Slot(c, t.msg.msgId);
    if t.msg.msgId == "" || (k < |c| && !ShouldReplace(c[k], t)) then Index(c)
    else Index(c)[t.msg.msgId := (k, t.source)]
  }

  /** What one more message does to the index. */
  lemma IndexAfterAddOne(c: seq<Tagged>, t: Tagged)
    ensures Index(AddOne(c, t)) == IndexWith(c, t)
    ensures var k := Slot(c, t.msg.msgId);
      t.msg.msgId != "" ==>
        && (t.msg.msgId in Index(c) <==> k < |c|)
        && (k < |c| ==> Index(c)[t.msg.msgId] == (k, c[k].source))
  {
    hide AddOne, Slot, ShouldReplace, Index, IndexWith, Indexed;
    forall id
      ensures Indexed(AddOne(c, t), IndexWith(c, t), id)
    {
      IndexedAfterAddOne(c, t, id);
    }
    IndexedIsIndex(AddOne(c, t), IndexWith(c, t));
    IndexDomain(c);
  }

  lemma IndexedAfterAddOne(c: seq<Tagged>, t: Tagged, id: string)
    ensures Indexed(AddOne(c, t), IndexWith(c, t), id)
  {
    hide AddOne, Slot, ShouldReplace, Index;
    IndexDomain(c);
    AddOneCases(c, t);
    if id != "" {
      SlotAfterAddOne(c, t, id);
    }
  }

  lemma SlotAfterAddOne(c: seq<Tagged>, t: Tagged, id: string)
    requires id != ""
    ensures var after := AddOne(c, t);
      && (Slot(after, id) < |after| <==> Slot(c, id) < |c| || id == t.msg.msgId)
      && (Slot(c, id) < |c| || id == t.msg.msgId ==> Slot(after, id) == Slot(c, id))
      && (Slot(c, id) < |c| && id != t.msg.msgId ==> after[Slot(c, id)] == c[Slot(c, id)])
  {
    if Slot(c, id) < |c| {
      AddOneAtSlot(c, t, id);
    } else if id == t.msg.msgId {
      SlotOfAppended(c, t);
    } else {
      NoSlotAdded(c, t, id);
    }
  }

  lemma IndexDomain(c: seq<Tagged>)
    ensures forall id :: id in Index(c) <==> id != "" && Slot(c, id) < |c|
    ensures forall id :: id in Index(c) ==> Index(c)[id] == (Slot(c, id), c[Slot(c, id)].source)
  {
  }

  method MergeDmPollMessages(relay: seq<Msg>, direct: seq<Msg>) returns (result: seq<Msg>)
    ensures result == Merge(relay, direct)
  {
    hide Collapse, Index;
    var merger := new DmMerger();
    merger.AddMessages(relay, "relay");
    merger.AddMessages(direct, "reticulum");
    assert merger.seen == Lanes(relay, direct);
    result := SortByTime(merger.merged);
  }
}
