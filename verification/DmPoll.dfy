/** Draining mailboxes under a budget: `_collect_from_keys` and `collect_private_dm`
    (backend/services/mesh), and the polls built on them (`_dm_poll_secure_from_signed_request`
    and `dm_poll` in backend/main.py). */
module DmPoll {
  import opened DmMerge

  const BATCH_LIMIT: nat := 8
  const LEGACY_TOKENS: nat := 32

  type Boxes = map<string, seq<Msg>>

  function Box(boxes: Boxes, key: string): seq<Msg> {
    if key in boxes then boxes[key] else []
  }

  // ---------------------------------------------------------------- one collection

  /** The queued messages of some keys, key by key. */
  function Gather(boxes: Boxes, keys: seq<string>): seq<Msg> {
    if keys == [] then [] else Gather(boxes, keys[..|keys| - 1]) + Box(boxes, keys[|keys| - 1])
  }

  function AddFresh(found: seq<Msg>, m: Msg): seq<Msg> {
    if HasMsgId(found, m.msgId) then found else found + [m]
  }

  /** The first message of each id. */
  function Distinct(items: seq<Msg>): seq<Msg> {
    if items == [] then [] else AddFresh(Distinct(items[..|items| - 1]), items[|items| - 1])
  }

  function Remaining(items: seq<Msg>, kept: seq<Msg>): seq<Msg> {
    if items == [] then []
    else
      var m := items[|items| - 1];
      Remaining(items[..|items| - 1], kept) + (if HasMsgId(kept, m.msgId) then [] else [m])
  }

  datatype Collected = Collected(messages: seq<Msg>, more: bool, boxes: Boxes)

  /** Limit zero means no limit. What does not fit goes back where it came from. */
  function Collect(boxes: Boxes, keys: seq<string>, limit: nat): Collected {
    var sorted := SortByTime(Distinct(Gather(boxes, keys)));
    if limit > 0 && |sorted| > limit then
      var kept := sorted[..limit];
      Collected(kept, true, PutBack(boxes, keys, kept))
    else
      Collected(sorted, false, boxes - (set k | k in keys))
  }

  function PutBack(boxes: Boxes, keys: seq<string>, kept: seq<Msg>): Boxes {
    map k | k in boxes && (k in keys ==> Remaining(boxes[k], kept) != []) ::
      if k in keys then Remaining(boxes[k], kept) else boxes[k]
  }

  ghost predicate NoRepeats(keys: seq<string>) {
    forall i, j :: 0 <= i < j < |keys| ==> keys[i] != keys[j]
  }

  class MailboxStore {
    var mailboxes: Boxes

    constructor ()
      ensures mailboxes == map[]
    {
      mailboxes := map[];
    }

    /** Takes every mailbox of the keys out and lists the first message of each id. */
    method PopKeys(keys: seq<string>) returns (messages: seq<Msg>, popped: Boxes)
      requires NoRepeats(keys)
      modifies this
      ensures messages == Distinct(Gather(old(mailboxes), keys))
      ensures mailboxes == old(mailboxes) - (set k | k in keys)
      ensures forall k :: k in keys ==> k in popped && popped[k] == Box(old(mailboxes), k)
    {
      hide Distinct, Gather;
      ghost var start := mailboxes;
      popped := map[];
      messages := [];
      NothingGathered(start);
      assert keys[..0] == [];
      for i := 0 to |keys|
        invariant messages == Distinct(Gather(start, keys[..i]))
        invariant mailboxes == start - (set k | k in keys[..i])
        invariant forall k :: k in keys[..i] ==> k in popped && popped[k] == Box(start, k)
      {
        var key := keys[i];
        PrefixOfKeys(keys, i);
        GatherOneMore(start, keys, i);
        var raw := Box(mailboxes, key);
        assert raw == Box(start, key);
        mailboxes := mailboxes - {key};
        popped := popped[key := raw];
        messages := AddAllFresh(messages, raw, Gather(start, keys[..i]));
      }
      assert keys[..|keys|] == keys;
    }

    method CollectFromKeys(keys: seq<string>, limit: nat) returns (messages: seq<Msg>, more: bool)
      requires NoRepeats(keys)
      modifies this
      ensures Collected(messages, more, mailboxes) == Collect(old(mailboxes), keys, limit)
    {
      hide Distinct, Gather, Remaining, SortByTime;
      ghost var start := mailboxes;
      var popped;
      messages, popped := PopKeys(keys);
      messages := SortByTime(messages);
      more := false;
      if limit > 0 && |messages| > limit {
        more := true;
        messages := messages[..limit];
        Restore(keys, popped, messages, start);
        PutBackIsRestore(start, keys, messages);
      }
    }

    /** Puts what was not kept back under its own key. */
    method Restore(keys: seq<string>, popped: Boxes, kept: seq<Msg>, ghost start: Boxes)
      requires NoRepeats(keys)
      requires mailboxes == start - (set k | k in keys)
      requires forall k :: k in keys ==> k in popped && popped[k] == Box(start, k)
      modifies this
      ensures mailboxes == old(mailboxes) + Leftover(start, keys, kept)
    {
      ghost var cleared := mailboxes;
      assert Leftover(start, keys[..0], kept) == map[];
      for i := 0 to |keys|
        invariant mailboxes == cleared + Leftover(start, keys[..i], kept)
      {
        hide Remaining, Leftover;
        PrefixOfKeys(keys, i);
        LeftoverOneMore(start, keys, i, kept);
        var remaining := Remaining(popped[keys[i]], kept);
        if remaining != [] {
          assert keys[i] in keys && keys[i] !in mailboxes && [] + remaining == remaining;
          UpdateOfSum(cleared, Leftover(start, keys[..i], kept), keys[i], remaining);
          mailboxes := mailboxes[keys[i] := Box(mailboxes, keys[i]) + remaining];
        }
      }
      assert keys[..|keys|] == keys;
    }
  }

  function Leftover(boxes: Boxes, keys: seq<string>, kept: seq<Msg>): Boxes {
    map k | k in keys && Remaining(Box(boxes, k), kept) != [] :: Remaining(Box(boxes, k), kept)
  }

  lemma LeftoverOneMore(boxes: Boxes, keys: seq<string>, i: nat, kept: seq<Msg>)
    requires i < |keys| && keys[i] !in keys[..i] && keys[..i + 1] == keys[..i] + [keys[i]]
    ensures var r := Remaining(Box(boxes, keys[i]), kept);
      Leftover(boxes, keys[..i + 1], kept) ==
        if r == [] then Leftover(boxes, keys[..i], kept) else Leftover(boxes, keys[..i], kept)[keys[i] := r]
    ensures keys[i] !in Leftover(boxes, keys[..i], kept)
  {
  }

  lemma UpdateOfSum(a: Boxes, b: Boxes, k: string, v: seq<Msg>)
    ensures (a + b)[k := v] == a + b[k := v]
  {}

  method AddAllFresh(found: seq<Msg>, raw: seq<Msg>, ghost gathered: seq<Msg>) returns (messages: seq<Msg>)
    requires found == Distinct(gathered)
    ensures messages == Distinct(gathered + raw)
  {
    hide Distinct;
    messages := found;
    assert gathered + raw[..0] == gathered;
    for j := 0 to |raw|
      invariant messages == Distinct(gathered + raw[..j])
    {
      DistinctOneMore(gathered, raw, j);
      if !HasMsgId(messages, raw[j].msgId) {
        messages := messages + [raw[j]];
      }
    }
    assert raw[..|raw|] == raw;
  }

  lemma NothingGathered(boxes: Boxes)
    ensures Distinct(Gather(boxes, [])) == []
  {}

  lemma PrefixOfKeys(keys: seq<string>, i: nat)
    requires i < |keys| && forall a, b :: 0 <= a < b < |keys| ==> keys[a] != keys[b]
    ensures keys[..i + 1] == keys[..i] + [keys[i]] && keys[i] !in keys[..i]
  {}

  lemma GatherOneMore(boxes: Boxes, keys: seq<string>, i: nat)
    requires i < |keys|
    ensures Gather(boxes, keys[..i + 1]) == Gather(boxes, keys[..i]) + Box(boxes, keys[i])
  {
    assert keys[..i + 1][..i] == keys[..i];
  }

  lemma DistinctOneMore(gathered: seq<Msg>, raw: seq<Msg>, j: nat)
    requires j < |raw|
    ensures Distinct(gathered + raw[..j + 1]) == AddFresh(Distinct(gathered + raw[..j]), raw[j])
  {
    var all := gathered + raw[..j + 1];
    assert all[..|all| - 1] == gathered + raw[..j] && all[|all| - 1] == raw[j];
  }

  lemma PutBackIsRestore(boxes: Boxes, keys: seq<string>, kept: seq<Msg>)
    ensures PutBack(boxes, keys, kept)
         == (boxes - (set k | k in keys)) + Leftover(boxes, keys, kept)
  {}

  // ---------------------------------------------------------------- ids: conservation of one collection

  /** The ids queued under some keys. */
  function Pending(boxes: Boxes, keys: seq<string>): set<string> {
    set m | m in Gather(boxes, keys) :: m.msgId
  }

  function Ids(items: seq<Msg>): set<string> {
    set m | m in items :: m.msgId
  }

  lemma IdsOfSum(a: seq<Msg>, b: seq<Msg>)
    ensures Ids(a + b) == Ids(a) + Ids(b)
  {}

  lemma IdsOfOne(m: Msg)
    ensures Ids([m]) == {m.msgId} && Ids([]) == {}
  {}

  lemma IdsOfNone()
    ensures Ids([]) == {}
  {}

  lemma InIds(items: seq<Msg>, id: string)
    ensures id in Ids(items) <==> HasMsgId(items, id)
  {}

  ghost predicate AllDistinct(items: seq<Msg>) {
    forall i, j :: 0 <= i < j < |items| ==> items[i].msgId != items[j].msgId
  }

  lemma {:induction false} CountIds(items: seq<Msg>)
    requires AllDistinct(items)
    ensures |Ids(items)| == |items|
  {
    hide Ids;
    if items == [] {
      IdsOfNone();
    } else {
      var init, m := items[..|items| - 1], items[|items| - 1];
      InIds(init, m.msgId);
      assert forall i :: 0 <= i < |init| ==> init[i].msgId != m.msgId;
      CountIds(init);
      assert items == init + [m];
      IdsOfSum(init, [m]);
      IdsOfOne(m);
    }
  }

  lemma {:induction false} DistinctKeepsIds(items: seq<Msg>)
    ensures AllDistinct(Distinct(items)) && Ids(Distinct(items)) == Ids(items)
  {
    if items == [] {
    } else {
      var init, m := items[..|items| - 1], items[|items| - 1];
      DistinctKeepsIds(init);
      assert items == init + [m];
      IdsOfSum(init, [m]);
      IdsOfSum(Distinct(init), [m]);
      IdsOfOne(m);
      InIds(Distinct(init), m.msgId);
      hide Ids, Distinct;
      DistinctOneMore(init, [m], 0);
      assert init + [m][..0] == init && [m][..1] == [m];
      AddFreshKeepsDistinct(Distinct(init), m);
    }
  }

  lemma AddFreshKeepsDistinct(found: seq<Msg>, m: Msg)
    requires AllDistinct(found)
    ensures AllDistinct(AddFresh(found, m))
  {}

  lemma {:induction false} SortKeepsDistinct(items: seq<Msg>)
    requires AllDistinct(items)
    ensures AllDistinct(SortByTime(items)) && Ids(SortByTime(items)) == Ids(items)
  {
    SortKeepsMessages(items);
    forall m
      ensures m in SortByTime(items) <==> m in items
    {
      assert m in multiset(SortByTime(items)) <==> m in multiset(items);
    }
    if items == [] {
    } else {
      var init, m := items[..|items| - 1], items[|items| - 1];
      SortKeepsDistinct(init);
      InIds(init, m.msgId);
      InIds(SortByTime(init), m.msgId);
      InsertKeepsDistinct(SortByTime(init), m);
    }
  }

  lemma InsertKeepsDistinct(sorted: seq<Msg>, m: Msg)
    requires AllDistinct(sorted) && !HasMsgId(sorted, m.msgId)
    ensures AllDistinct(InsertByTime(sorted, m))
  {
  }

  lemma {:induction false} RemainingIds(items: seq<Msg>, kept: seq<Msg>)
    ensures Ids(Remaining(items, kept)) == Ids(items) - Ids(kept)
  {
    if items == [] {
    } else {
      var init, m := items[..|items| - 1], items[|items| - 1];
      RemainingIds(init, kept);
      InIds(kept, m.msgId);
      IdsOfOne(m);
      IdsOfSum(init, [m]);
      IdsOfSum(Remaining(init, kept), if HasMsgId(kept, m.msgId) then [] else [m]);
      assert items == init + [m];
      hide Ids;
    }
  }

  lemma {:induction false} PendingByBox(boxes: Boxes, keys: seq<string>, id: string)
    ensures id in Pending(boxes, keys) <==> exists k :: k in keys && id in Ids(Box(boxes, k))
  {
    if keys == [] {
    } else {
      var n := |keys| - 1;
      PendingByBox(boxes, keys[..n], id);
      assert keys == keys[..n] + [keys[n]];
      assert id in Pending(boxes, keys) <==> id in Pending(boxes, keys[..n]) || id in Ids(Box(boxes, keys[n]));
    }
  }

  /** The part of a mailbox's ids that a collection leaves behind. */
  lemma BoxAfterCollect(boxes: Boxes, keys: seq<string>, limit: nat, k: string)
    ensures var c := Collect(boxes, keys, limit);
      Ids(Box(c.boxes, k)) == (if k !in keys then Ids(Box(boxes, k))
                               else if c.more then Ids(Box(boxes, k)) - Ids(c.messages)
                               else {})
  {
    hide SortByTime, Distinct, Gather, Remaining;
    var c := Collect(boxes, keys, limit);
    if k in boxes {
      RemainingIds(boxes[k], c.messages);
    }
  }

  /** Conservation: a collection splits the pending ids into the returned and the left,
      loses none, returns as many as the limit allows, and says whether any are left. */
  lemma CollectConserves(boxes: Boxes, keys: seq<string>, limit: nat)
    requires limit > 0
    ensures var c := Collect(boxes, keys, limit);
      var before := Pending(boxes, keys);
      && Ids(c.messages) <= before
      && Pending(c.boxes, keys) == before - Ids(c.messages)
      && |Ids(c.messages)| == |c.messages| == (if |before| > limit then limit else |before|)
      && (c.more <==> |before| > limit)
      && (!c.more ==> Pending(c.boxes, keys) == {})
  {
    var c := Collect(boxes, keys, limit);
    CollectedIds(boxes, keys, limit);
    hide Collect, Pending, Gather, Ids;
    forall id
      ensures id in Pending(c.boxes, keys) <==> id in Pending(boxes, keys) && id !in Ids(c.messages)
    {
      PendingByBox(boxes, keys, id);
      PendingByBox(c.boxes, keys, id);
      forall k | k in keys
        ensures id in Ids(Box(c.boxes, k)) <==> id in Ids(Box(boxes, k)) && id !in Ids(c.messages)
      {
        BoxAfterCollect(boxes, keys, limit, k);
      }
    }
  }

  lemma CollectedIds(boxes: Boxes, keys: seq<string>, limit: nat)
    requires limit > 0
    ensures var c := Collect(boxes, keys, limit);
      var before := Pending(boxes, keys);
      && AllDistinct(c.messages)
      && Ids(c.messages) <= before
      && |Ids(c.messages)| == |c.messages| == (if |before| > limit then limit else |before|)
      && (c.more <==> |before| > limit)
      && (!c.more ==> Ids(c.messages) == before)
  {
    hide SortByTime, Distinct, Gather;
    var all := Gather(boxes, keys);
    DistinctKeepsIds(all);
    SortKeepsDistinct(Distinct(all));
    var sorted := SortByTime(Distinct(all));
    CountIds(sorted);
    var c := Collect(boxes, keys, limit);
    assert Pending(boxes, keys) == Ids(all);
    assert forall i :: 0 <= i < |c.messages| ==> c.messages[i] == sorted[i];
    CountIds(c.messages);
  }

  // ---------------------------------------------------------------- which messages are collected

  /** The mailboxes are read key by key. */
  lemma {:induction false} GatherOfSum(boxes: Boxes, a: seq<string>, b: seq<string>)
    ensures Gather(boxes, a + b) == Gather(boxes, a) + Gather(boxes, b)
  {
    if b == [] {
      assert a + b == a;
      assert Gather(boxes, a) + [] == Gather(boxes, a);
    } else {
      var n := |b| - 1;
      GatherOfSum(boxes, a, b[..n]);
      assert (a + b)[..|a + b| - 1] == a + b[..n];
      hide Box;
      SumsAssociate(Gather(boxes, a), Gather(boxes, b[..n]), Box(boxes, b[n]));
    }
  }

  lemma GatherOfOne(boxes: Boxes, k: string)
    ensures Gather(boxes, [k]) == if k in boxes then boxes[k] else []
  {
    assert [k][..0] == [] && Gather(boxes, []) == [];
    assert [] + Box(boxes, k) == Box(boxes, k);
  }

  lemma SumsAssociate(a: seq<Msg>, b: seq<Msg>, c: seq<Msg>)
    ensures a + (b + c) == (a + b) + c
  {
  }

  /** Position `i` holds the first message of its id. */
  ghost predicate FirstOfId(items: seq<Msg>, i: nat)
    requires i < |items|
  {
    forall j :: 0 <= j < i ==> items[j].msgId != items[i].msgId
  }

  /** `idx` lists the positions of the first copies, in order. */
  ghost predicate ListsFirst(idx: seq<nat>, items: seq<Msg>, copies: seq<Msg>) {
    && |idx| == |copies|
    && (forall k :: 0 <= k < |idx| ==> idx[k] < |items| && copies[k] == items[idx[k]])
    && (forall j, k :: 0 <= j < k < |idx| ==> idx[j] < idx[k])
    && (forall i :: 0 <= i < |items| ==> (i in idx <==> FirstOfId(items, i)))
  }

  lemma ListsOneMore(idx: seq<nat>, items: seq<Msg>, copies: seq<Msg>, m: Msg)
    requires ListsFirst(idx, items, copies)
    requires HasMsgId(copies, m.msgId) <==> HasMsgId(items, m.msgId)
    ensures if HasMsgId(copies, m.msgId) then ListsFirst(idx, items + [m], copies)
            else ListsFirst(idx + [|items|], items + [m], copies + [m])
  {
    var longer := items + [m];
    FirstOfMore(items, m);
    hide FirstOfId, HasMsgId;
    var more := idx + [|items|];
    assert more[|idx|] == |items|;
    assert forall i :: 0 <= i < |items| ==> (i in more <==> i in idx);
    assert |items| !in idx;
  }

  lemma FirstOfMore(items: seq<Msg>, m: Msg)
    ensures forall i :: 0 <= i < |items| ==> (FirstOfId(items + [m], i) <==> FirstOfId(items, i))
    ensures FirstOfId(items + [m], |items|) <==> !HasMsgId(items, m.msgId)
  {
    var longer := items + [m];
    assert longer[|items|] == m;
    assert forall j :: 0 <= j < |items| ==> longer[j] == items[j];
  }

  /** Of several copies of a message the first one is listed, in the order of the queues. */
  lemma {:induction false} DistinctAreFirstCopies(items: seq<Msg>) returns (idx: seq<nat>)
    ensures ListsFirst(idx, items, Distinct(items))
  {
    if items == [] {
      idx := [];
    } else {
      var init, m := items[..|items| - 1], items[|items| - 1];
      var before := DistinctAreFirstCopies(init);
      assert items == init + [m];
      DistinctKeepsIds(init);
      InIds(init, m.msgId);
      InIds(Distinct(init), m.msgId);
      ListsOneMore(before, init, Distinct(init), m);
      hide ListsFirst, HasMsgId;
      idx := if HasMsgId(Distinct(init), m.msgId) then before else before + [|init|];
    }
  }

  /** The oldest go first: what a collection returns is in time order, made of first copies,
      and none of it is newer than a first copy that has to wait. */
  lemma OldestGoFirst(boxes: Boxes, keys: seq<string>, limit: nat)
    ensures var c := Collect(boxes, keys, limit);
      var copies := Distinct(Gather(boxes, keys));
      && (forall i, j :: 0 <= i < j < |c.messages| ==> c.messages[i].timestamp <= c.messages[j].timestamp)
      && (forall y :: y in c.messages ==> y in copies)
      && (forall x, y :: x in copies && y in c.messages && !HasMsgId(c.messages, x.msgId) ==>
            y.timestamp <= x.timestamp)
  {
    var copies := Distinct(Gather(boxes, keys));
    var sorted := SortByTime(copies);
    SortOrders(copies);
    var c := Collect(boxes, keys, limit);
    hide Distinct, Gather, SortByTime;
    forall x
      ensures x in sorted <==> x in copies
    {
      InSorted(copies, x);
    }
    assert c.messages == sorted[..|c.messages|];
    forall x, y | x in copies && y in c.messages && !HasMsgId(c.messages, x.msgId)
      ensures y.timestamp <= x.timestamp
    {
      assert x in sorted;
      var i :| 0 <= i < |sorted| && sorted[i] == x;
      var j :| 0 <= j < |c.messages| && c.messages[j] == y;
      InFront(sorted, |c.messages|, i);
    }
  }

  lemma InFront(items: seq<Msg>, n: nat, i: nat)
    requires n <= |items| && i < |items|
    ensures i < n ==> HasMsgId(items[..n], items[i].msgId)
  {
    assert i < n ==> exists j :: 0 <= j < n && items[..n][j].msgId == items[i].msgId by {
      if i < n {
        assert items[..n][i] == items[i];
      }
    }
  }

  /** Without a limit everything is returned and nothing is left. */
  lemma NoLimitReturnsAll(boxes: Boxes, keys: seq<string>)
    ensures var c := Collect(boxes, keys, 0);
      && !c.more && Ids(c.messages) == Pending(boxes, keys)
      && (forall k :: k in keys ==> k !in c.boxes)
      && (forall k :: k !in keys ==> Box(c.boxes, k) == Box(boxes, k))
  {
    var all := Gather(boxes, keys);
    DistinctKeepsIds(all);
    SortKeepsDistinct(Distinct(all));
  }

  /** What waits stays as it is, in its box and in its order. */
  lemma WaitingMessagesStay(boxes: Boxes, keys: seq<string>, limit: nat, k: string, m: Msg)
    ensures var c := Collect(boxes, keys, limit);
      m in Box(c.boxes, k) <==>
        m in Box(boxes, k) && (k in keys ==> c.more && !HasMsgId(c.messages, m.msgId))
  {
    hide SortByTime, Distinct, Gather;
    var c := Collect(boxes, keys, limit);
    if k in boxes {
      RemainingMessages(boxes[k], c.messages, m);
    }
  }

  lemma {:induction false} RemainingMessages(items: seq<Msg>, kept: seq<Msg>, m: Msg)
    ensures m in Remaining(items, kept) <==> m in items && !HasMsgId(kept, m.msgId)
  {
    if items == [] {
    } else {
      var n := |items| - 1;
      RemainingMessages(items[..n], kept, m);
      assert items == items[..n] + [items[n]];
    }
  }

  lemma {:induction false} RemainingOfSum(a: seq<Msg>, b: seq<Msg>, kept: seq<Msg>)
    ensures Remaining(a + b, kept) == Remaining(a, kept) + Remaining(b, kept)
  {
    if b == [] {
      assert a + b == a;
      assert Remaining(a, kept) + [] == Remaining(a, kept);
    } else {
      var n := |b| - 1;
      RemainingOfSum(a, b[..n], kept);
      assert (a + b)[..|a + b| - 1] == a + b[..n];
      hide HasMsgId;
      SumsAssociate(Remaining(a, kept), Remaining(b[..n], kept), if HasMsgId(kept, b[n].msgId) then [] else [b[n]]);
    }
  }
}
