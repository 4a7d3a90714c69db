/** Whole polls over both lanes, sequences of polls, and the legacy poll
    (`_dm_poll_secure_from_signed_request` and `dm_poll` in backend/main.py). */
module DmPollRuns {
  import opened DmMerge
  import opened DmPoll

  datatype Queues = Queues(relay: Boxes, direct: Boxes)

  /** `anonymous` is the requested hidden-transport mode, `directFails` an exception of the
      direct lane's collector. */
  datatype Request = Request(relayKeys: seq<string>, directKeys: seq<string>, anonymous: bool, directFails: bool)

  datatype Answer = Answer(messages: seq<Msg>, hasMore: bool)

  datatype Polled = Polled(answer: Answer, queues: Queues)

  function AnnotateAll(items: seq<Msg>): (r: seq<Msg>)
    ensures |r| == |items|
    ensures forall i :: 0 <= i < |items| ==> r[i] == Annotate(items[i])
  {
    seq(|items|, i requires 0 <= i < |items| => Annotate(items[i]))
  }

  function Capped(items: seq<Msg>): seq<Msg> {
    if |items| > BATCH_LIMIT then items[..BATCH_LIMIT] else items
  }

  function Respond(relay: seq<Msg>, direct: seq<Msg>, hasMore: bool): Answer {
    Answer(Capped(Merge(AnnotateAll(relay), AnnotateAll(direct))), hasMore)
  }

  function Poll(q: Queues, r: Request): Polled {
    var relay := Collect(q.relay, r.relayKeys, BATCH_LIMIT);
    var budget := BATCH_LIMIT - |relay.messages|;
    if budget > 0 && !r.anonymous && !r.directFails then
      var direct := Collect(q.direct, r.directKeys, budget);
      Polled(Respond(relay.messages, direct.messages, relay.more || direct.more), Queues(relay.boxes, direct.boxes))
    else
      Polled(Respond(relay.messages, [], relay.more || (budget <= 0 && !r.anonymous)), Queues(relay.boxes, q.direct))
  }

  method PollSecure(relayStore: MailboxStore, directStore: MailboxStore, r: Request) returns (answer: Answer)
    requires relayStore != directStore && NoRepeats(r.relayKeys) && NoRepeats(r.directKeys)
    modifies relayStore, directStore
    ensures Polled(answer, Queues(relayStore.mailboxes, directStore.mailboxes))
         == Poll(old(Queues(relayStore.mailboxes, directStore.mailboxes)), r)
  {
    hide Collect, Merge;
    var relayMsgs, relayMore := relayStore.CollectFromKeys(r.relayKeys, BATCH_LIMIT);
    var directMsgs, directMore := [], false;
    var directBudget := BATCH_LIMIT - |relayMsgs|;
    if directBudget > 0 && !r.anonymous {
      if !r.directFails {
        directMsgs, directMore := directStore.CollectFromKeys(r.directKeys, directBudget);
      }
    } else if directBudget <= 0 {
      directMore := !r.anonymous;
    }
    var merged := MergeDmPollMessages(AnnotateAll(relayMsgs), AnnotateAll(directMsgs));
    answer := Answer(Capped(merged), relayMore || directMore);
    assert relayMsgs + [] == relayMsgs;
  }

  // ---------------------------------------------------------------- one poll

  lemma AnnotateKeepsIds(items: seq<Msg>, id: string)
    ensures HasMsgId(AnnotateAll(items), id) <==> HasMsgId(items, id)
  {
  }

  /** Truncation never drops anything that fitted the budget: the answer holds exactly the
      ids of the two batches. */
  lemma RespondKeepsIds(relay: seq<Msg>, direct: seq<Msg>, hasMore: bool, id: string)
    requires |relay| + |direct| <= 8 && id != ""
    ensures id in Ids(Respond(relay, direct, hasMore).messages) <==> id in Ids(relay) || id in Ids(direct)
  {
    hide Merge, Ids;
    var a, b := AnnotateAll(relay), AnnotateAll(direct);
    MergeShape(a, b, id);
    AnnotateKeepsIds(relay, id);
    AnnotateKeepsIds(direct, id);
    InIds(relay, id);
    InIds(direct, id);
    InIds(Merge(a, b), id);
  }

  /** What an answer is made of: the merge of the two batches, relay first, each message
      annotated; the cut at eight takes nothing away. */
  lemma RespondMergesAnnotated(relay: seq<Msg>, direct: seq<Msg>, hasMore: bool, a: seq<Msg>, b: seq<Msg>)
    requires |relay| + |direct| <= 8
    requires |a| == |relay| && forall i :: 0 <= i < |a| ==> a[i] == Annotate(relay[i])
    requires |b| == |direct| && forall i :: 0 <= i < |b| ==> b[i] == Annotate(direct[i])
    ensures Respond(relay, direct, hasMore) == Answer(Merge(a, b), hasMore)
  {
    assert a == AnnotateAll(relay) && b == AnnotateAll(direct);
    MergeShape(a, b, "");
    hide Merge, AnnotateAll;
  }

  /** One poll, exactly: the ids that leave the queues are the ids of the answer. */
  lemma PollConserves(q: Queues, r: Request, id: string)
    requires id != ""
    ensures var p := Poll(q, r);
      var relay, direct := Pending(q.relay, r.relayKeys), Pending(q.direct, r.directKeys);
      var relayLeft, directLeft := Pending(p.queues.relay, r.relayKeys), Pending(p.queues.direct, r.directKeys);
      && (id in Ids(p.answer.messages) <==> id in relay - relayLeft || id in direct - directLeft)
      && relayLeft <= relay && directLeft <= direct
  {
    hide Collect, Respond, Pending, Ids;
    var c := Collect(q.relay, r.relayKeys, BATCH_LIMIT);
    CollectConserves(q.relay, r.relayKeys, BATCH_LIMIT);
    var budget := BATCH_LIMIT - |c.messages|;
    if budget > 0 && !r.anonymous && !r.directFails {
      var d := Collect(q.direct, r.directKeys, budget);
      CollectConserves(q.direct, r.directKeys, budget);
      RespondKeepsIds(c.messages, d.messages, c.more || d.more, id);
    } else {
      IdsOfNone();
      RespondKeepsIds(c.messages, [], c.more || (budget <= 0 && !r.anonymous), id);
    }
  }

  /** When both lanes are open, `has_more` is exact up to one case: it also says so when
      the relay alone filled the batch. False therefore means both queues are drained, and
      true means exactly eight ids were taken out. */
  lemma HasMoreIsExact(q: Queues, r: Request)
    requires !r.anonymous && !r.directFails
    ensures var p := Poll(q, r);
      var relay, direct := |Pending(q.relay, r.relayKeys)|, |Pending(q.direct, r.directKeys)|;
      var relayLeft, directLeft := |Pending(p.queues.relay, r.relayKeys)|, |Pending(p.queues.direct, r.directKeys)|;
      && (p.answer.hasMore <==> relay >= 8 || relay + direct > 8)
      && relayLeft + directLeft == (if p.answer.hasMore then relay + direct - 8 else 0)
  {
    hide Collect, Pending, Ids, Merge;
    var relay := Pending(q.relay, r.relayKeys);
    var c := Collect(q.relay, r.relayKeys, BATCH_LIMIT);
    CollectConserves(q.relay, r.relayKeys, BATCH_LIMIT);
    CountDifference(relay, Ids(c.messages));
    var budget := BATCH_LIMIT - |c.messages|;
    if budget > 0 {
      var direct := Pending(q.direct, r.directKeys);
      var d := Collect(q.direct, r.directKeys, budget);
      CollectConserves(q.direct, r.directKeys, budget);
      CountDifference(direct, Ids(d.messages));
    }
  }

  lemma CountDifference(a: set<string>, b: set<string>)
    requires b <= a
    ensures |a - b| == |a| - |b|
  {
  }

  /** A closed direct lane is left alone. In anonymous mode `has_more` then speaks of the
      relay only; when the direct collector failed it also covers a batch that the relay
      filled. */
  lemma ClosedLaneIsLeftAlone(q: Queues, r: Request)
    requires r.anonymous || r.directFails
    ensures var p := Poll(q, r);
      var relay := |Pending(q.relay, r.relayKeys)|;
      && p.queues.direct == q.direct
      && (r.anonymous ==> (p.answer.hasMore <==> relay > 8))
      && (!r.anonymous ==> (p.answer.hasMore <==> relay >= 8))
      && |Pending(p.queues.relay, r.relayKeys)| == if relay > 8 then relay - 8 else 0
  {
    hide Collect, Pending, Ids, Merge;
    var c := Collect(q.relay, r.relayKeys, BATCH_LIMIT);
    CollectConserves(q.relay, r.relayKeys, BATCH_LIMIT);
    CountDifference(Pending(q.relay, r.relayKeys), Ids(c.messages));
  }

  /** The relay goes first: the direct lane gets what the relay leaves of the eight. */
  lemma LanesShareTheBatch(q: Queues, r: Request)
    requires !r.anonymous && !r.directFails
    ensures var p := Poll(q, r);
      var relay, direct := |Pending(q.relay, r.relayKeys)|, |Pending(q.direct, r.directKeys)|;
      && |Pending(p.queues.relay, r.relayKeys)| == (if relay > 8 then relay - 8 else 0)
      && |Pending(p.queues.direct, r.directKeys)|
           == (if relay >= 8 then direct else if relay + direct > 8 then relay + direct - 8 else 0)
  {
    hide Collect, Pending, Ids, Merge;
    var c := Collect(q.relay, r.relayKeys, BATCH_LIMIT);
    CollectConserves(q.relay, r.relayKeys, BATCH_LIMIT);
    CountDifference(Pending(q.relay, r.relayKeys), Ids(c.messages));
    var budget := BATCH_LIMIT - |c.messages|;
    if budget > 0 {
      var d := Collect(q.direct, r.directKeys, budget);
      CollectConserves(q.direct, r.directKeys, budget);
      CountDifference(Pending(q.direct, r.directKeys), Ids(d.messages));
    }
  }

  /** Nothing newer is taken while an older message waits in the same lane. */
  lemma PollTakesOldest(q: Queues, r: Request, lane: Lane, x: Msg, y: Msg)
    requires var copies := Distinct(Gather(BoxesOf(q, lane), KeysFor(r, lane))); x in copies && y in copies
    requires var left := Pending(BoxesOf(Poll(q, r).queues, lane), KeysFor(r, lane));
      y.msgId !in left && x.msgId in left
    ensures y.timestamp <= x.timestamp
  {
    var limit := LaneAfterPoll(q, r, lane);
    hide Poll, Collect, Distinct, Gather, Pending;
    if limit > 0 {
      TakenAreOldest(BoxesOf(q, lane), KeysFor(r, lane), limit, x, y);
    } else {
      CopiesArePending(BoxesOf(q, lane), KeysFor(r, lane), y);
    }
  }

  /** A poll either collects from a lane, with some of the eight, or leaves it alone. */
  lemma LaneAfterPoll(q: Queues, r: Request, lane: Lane) returns (limit: nat)
    ensures BoxesOf(Poll(q, r).queues, lane) ==
      if limit > 0 then Collect(BoxesOf(q, lane), KeysFor(r, lane), limit).boxes else BoxesOf(q, lane)
  {
    hide Collect, Respond;
    var c := Collect(q.relay, r.relayKeys, BATCH_LIMIT);
    if lane == Relay {
      limit := BATCH_LIMIT;
    } else if BATCH_LIMIT - |c.messages| > 0 && !r.anonymous && !r.directFails {
      limit := BATCH_LIMIT - |c.messages|;
    } else {
      limit := 0;
    }
  }

  lemma CopiesArePending(boxes: Boxes, keys: seq<string>, y: Msg)
    requires y in Distinct(Gather(boxes, keys))
    ensures y.msgId in Pending(boxes, keys)
  {
    DistinctKeepsIds(Gather(boxes, keys));
    hide Distinct, Gather;
    assert y.msgId in Ids(Distinct(Gather(boxes, keys)));
  }

  lemma TakenAreOldest(boxes: Boxes, keys: seq<string>, limit: nat, x: Msg, y: Msg)
    requires limit > 0 && x in Distinct(Gather(boxes, keys)) && y in Distinct(Gather(boxes, keys))
    requires var left := Pending(Collect(boxes, keys, limit).boxes, keys); y.msgId !in left && x.msgId in left
    ensures y.timestamp <= x.timestamp
  {
    var c := Collect(boxes, keys, limit);
    var copies := Distinct(Gather(boxes, keys));
    CollectConserves(boxes, keys, limit);
    OldestGoFirst(boxes, keys, limit);
    CopiesArePending(boxes, keys, y);
    DistinctKeepsIds(Gather(boxes, keys));
    InIds(c.messages, x.msgId);
    hide Collect, Distinct, Gather, Pending;
    var z :| z in c.messages && z.msgId == y.msgId;
    assert z == y by { OneOfEachId(copies, z, y); }
  }

  lemma OneOfEachId(items: seq<Msg>, a: Msg, b: Msg)
    requires AllDistinct(items) && a in items && b in items && a.msgId == b.msgId
    ensures a == b
  {
  }

  // ---------------------------------------------------------------- polling until nothing is left

  function QueuesAfter(q: Queues, r: Request, polls: nat): Queues {
    if polls == 0 then q else Poll(QueuesAfter(q, r, polls - 1), r).queues
  }

  ghost predicate ReturnedBy(q: Queues, r: Request, polls: nat, id: string) {
    polls > 0 && (ReturnedBy(q, r, polls - 1, id) || id in Ids(Poll(QueuesAfter(q, r, polls - 1), r).answer.messages))
  }

  function Waiting(q: Queues, r: Request): nat {
    |Pending(q.relay, r.relayKeys)| + |Pending(q.direct, r.directKeys)|
  }

  /** The first `polls` polls all said that there is more. */
  ghost predicate AllMore(q: Queues, r: Request, polls: nat) {
    polls > 0 ==> AllMore(q, r, polls - 1) && Poll(QueuesAfter(q, r, polls - 1), r).answer.hasMore
  }

  /** Termination: every poll that says there is more takes out eight, so with n pending
      ids at most floor(n / 8) polls in a row can say so. */
  lemma {:induction false} MoreMeansEightFewer(q: Queues, r: Request, polls: nat)
    requires !r.anonymous && !r.directFails && AllMore(q, r, polls)
    ensures Waiting(QueuesAfter(q, r, polls), r) + 8 * polls == Waiting(q, r)
    ensures polls <= Waiting(q, r) / 8
  {
    hide Poll, Pending;
    if polls == 0 {
    } else {
      MoreMeansEightFewer(q, r, polls - 1);
      HasMoreIsExact(QueuesAfter(q, r, polls - 1), r);
    }
  }

  /** Nothing gets lost on the way: what was pending was returned or is still pending. */
  lemma {:induction false} PollsLoseNothing(q: Queues, r: Request, polls: nat, id: string)
    requires id != ""
    requires id in Pending(q.relay, r.relayKeys) || id in Pending(q.direct, r.directKeys)
    ensures var left := QueuesAfter(q, r, polls);
      ReturnedBy(q, r, polls, id) || id in Pending(left.relay, r.relayKeys) || id in Pending(left.direct, r.directKeys)
  {
    hide Poll, Pending, Ids;
    if polls == 0 {
    } else {
      PollsLoseNothing(q, r, polls - 1, id);
      PollConserves(QueuesAfter(q, r, polls - 1), r, id);
    }
  }

  /** Polling until the first `has_more = false` returns every pending id. */
  lemma PollingUntilNoMoreReturnsAll(q: Queues, r: Request, polls: nat, id: string)
    requires !r.anonymous && !r.directFails && id != ""
    requires !Poll(QueuesAfter(q, r, polls), r).answer.hasMore
    requires id in Pending(q.relay, r.relayKeys) || id in Pending(q.direct, r.directKeys)
    ensures ReturnedBy(q, r, polls + 1, id)
  {
    hide Poll, Pending, Ids;
    PollsLoseNothing(q, r, polls + 1, id);
    HasMoreIsExact(QueuesAfter(q, r, polls), r);
  }

  // ---------------------------------------------------------------- runs with arriving messages

  datatype Lane = Relay | Direct

  datatype Step = Deposit(lane: Lane, key: string, msg: Msg) | PollStep(request: Request)

  function BoxesOf(q: Queues, lane: Lane): Boxes {
    if lane == Relay then q.relay else q.direct
  }

  function KeysFor(r: Request, lane: Lane): seq<string> {
    if lane == Relay then r.relayKeys else r.directKeys
  }

  function Deposited(boxes: Boxes, key: string, m: Msg): Boxes {
    boxes[key := Box(boxes, key) + [m]]
  }

  function Apply(q: Queues, step: Step): Queues {
    match step
    case Deposit(Relay, key, msg) => q.(relay := Deposited(q.relay, key, msg))
    case Deposit(Direct, key, msg) => q.(direct := Deposited(q.direct, key, msg))
    case PollStep(request) => Poll(q, request).queues
  }

  function Exec(q: Queues, steps: seq<Step>): Queues {
    if steps == [] then q else Apply(Exec(q, steps[..|steps| - 1]), steps[|steps| - 1])
  }

  /** The id waits in the mailbox of a key. */
  ghost predicate InBox(q: Queues, lane: Lane, key: string, id: string) {
    id in Ids(Box(BoxesOf(q, lane), key))
  }

  /** A request that names the key is answered with the id. */
  ghost predicate AnsweredNow(q: Queues, step: Step, lane: Lane, key: string, id: string) {
    step.PollStep? && key in KeysFor(step.request, lane) && id in Ids(Poll(q, step.request).answer.messages)
  }

  ghost predicate Answered(q: Queues, steps: seq<Step>, lane: Lane, key: string, id: string) {
    steps != [] &&
    var n := |steps| - 1;
    Answered(q, steps[..n], lane, key, id) || AnsweredNow(Exec(q, steps[..n]), steps[n], lane, key, id)
  }

  /** The id is put into the mailbox of the key during the run. */
  predicate DepositedIn(steps: seq<Step>, lane: Lane, key: string, id: string) {
    exists i :: 0 <= i < |steps| && steps[i].Deposit? &&
      steps[i].lane == lane && steps[i].key == key && steps[i].msg.msgId == id
  }

  /** A collection takes an id out of a box only into its messages, and only if it names
      the key. */
  lemma CollectAtBox(boxes: Boxes, keys: seq<string>, limit: nat, key: string, id: string)
    requires limit > 0 && id in Ids(Box(boxes, key))
    ensures var c := Collect(boxes, keys, limit);
      id in Ids(Box(c.boxes, key)) || (key in keys && id in Ids(c.messages))
  {
    hide Collect, Ids, Pending;
    CollectConserves(boxes, keys, limit);
    BoxAfterCollect(boxes, keys, limit, key);
    PendingByBox(boxes, keys, id);
  }

  lemma PollAtBox(q: Queues, r: Request, lane: Lane, key: string, id: string)
    requires id != "" && InBox(q, lane, key, id)
    ensures InBox(Poll(q, r).queues, lane, key, id) || AnsweredNow(q, PollStep(r), lane, key, id)
  {
    hide Collect, Respond, Ids;
    var c := Collect(q.relay, r.relayKeys, BATCH_LIMIT);
    CollectConserves(q.relay, r.relayKeys, BATCH_LIMIT);
    if lane == Relay {
      CollectAtBox(q.relay, r.relayKeys, BATCH_LIMIT, key, id);
    }
    var budget := BATCH_LIMIT - |c.messages|;
    if budget > 0 && !r.anonymous && !r.directFails {
      var d := Collect(q.direct, r.directKeys, budget);
      CollectConserves(q.direct, r.directKeys, budget);
      if lane == Direct {
        CollectAtBox(q.direct, r.directKeys, budget, key, id);
      }
      RespondKeepsIds(c.messages, d.messages, c.more || d.more, id);
    } else {
      IdsOfNone();
      RespondKeepsIds(c.messages, [], c.more || (budget <= 0 && !r.anonymous), id);
    }
  }

  lemma DepositAtBox(boxes: Boxes, key: string, m: Msg, k: string, id: string)
    ensures id in Ids(Box(boxes, k)) ==> id in Ids(Box(Deposited(boxes, key, m), k))
    ensures m.msgId in Ids(Box(Deposited(boxes, key, m), key))
  {
    hide Ids;
    IdsOfSum(Box(boxes, key), [m]);
    IdsOfOne(m);
  }

  lemma StepAtBox(q: Queues, step: Step, lane: Lane, key: string, id: string)
    requires id != ""
    requires InBox(q, lane, key, id) || DepositedIn([step], lane, key, id)
    ensures InBox(Apply(q, step), lane, key, id) || AnsweredNow(q, step, lane, key, id)
  {
    hide Poll, Ids, Box, Deposited, AnsweredNow;
    match step
    case Deposit(to, k, msg) => DepositAtBox(BoxesOf(q, to), k, msg, key, id);
    case PollStep(r) => PollAtBox(q, r, lane, key, id);
  }

  /** Conservation over every run of deposits and polls of any agents, in any mode, mailbox
      by mailbox: an id that was in a box or came into it is still there, or was in the
      answer to a request that named this box. */
  lemma {:induction false} RunsLoseNothing(q: Queues, steps: seq<Step>, lane: Lane, key: string, id: string)
    requires id != "" && (InBox(q, lane, key, id) || DepositedIn(steps, lane, key, id))
    ensures InBox(Exec(q, steps), lane, key, id) || Answered(q, steps, lane, key, id)
  {
    if steps == [] {
      assert Exec(q, steps) == q;
    } else {
      hide InBox, AnsweredNow, Apply;
      var n := |steps| - 1;
      var before := Exec(q, steps[..n]);
      if DepositedIn(steps, lane, key, id) {
        LastDeposit(steps, lane, key, id);
      }
      if InBox(q, lane, key, id) || DepositedIn(steps[..n], lane, key, id) {
        RunsLoseNothing(q, steps[..n], lane, key, id);
      }
      if InBox(before, lane, key, id) || DepositedIn([steps[n]], lane, key, id) {
        StepAtBox(before, steps[n], lane, key, id);
      }
    }
  }

  lemma LastDeposit(steps: seq<Step>, lane: Lane, key: string, id: string)
    requires steps != [] && DepositedIn(steps, lane, key, id)
    ensures var n := |steps| - 1; DepositedIn(steps[..n], lane, key, id) || DepositedIn([steps[n]], lane, key, id)
  {
    var n := |steps| - 1;
    var i :| 0 <= i < |steps| && steps[i].Deposit? &&
      steps[i].lane == lane && steps[i].key == key && steps[i].msg.msgId == id;
    if i < n {
      assert steps[..n][i] == steps[i];
    } else {
      assert [steps[n]][0] == steps[n];
    }
  }

  // ---------------------------------------------------------------- the legacy poll

  /** The id waits somewhere. */
  ghost predicate Queued(boxes: Boxes, id: string) {
    exists k :: k in boxes && id in Ids(boxes[k])
  }

  lemma CollectKeepsKnown(boxes: Boxes, keys: seq<string>, limit: nat, id: string)
    requires limit > 0 && Queued(boxes, id)
    ensures Queued(Collect(boxes, keys, limit).boxes, id) || id in Ids(Collect(boxes, keys, limit).messages)
  {
    var k :| k in boxes && id in Ids(boxes[k]);
    hide Collect, Ids;
    CollectAtBox(boxes, keys, limit, k, id);
    IdsOfNone();
  }

  /** The id waits in the box of a key. */
  ghost predicate Waits(boxes: Boxes, key: string, id: string) {
    id in Ids(Box(boxes, key))
  }

  lemma LegacyAtBox(boxes: Boxes, keys: seq<string>, limit: nat, key: string, id: string)
    requires limit > 0 && Waits(boxes, key, id)
    ensures var c := Collect(boxes, keys, limit); Waits(c.boxes, key, id) || id in Ids(c.messages)
  {
    hide Collect, Ids;
    CollectAtBox(boxes, keys, limit, key, id);
  }

  /** The tokens without their repetitions, in order. */
  function Unique(tokens: seq<string>): (r: seq<string>)
    ensures NoRepeats(r) && forall t :: t in r <==> t in tokens
  {
    if tokens == [] then []
    else
      var n := |tokens| - 1;
      assert tokens == tokens[..n] + [tokens[n]];
      if tokens[n] in Unique(tokens[..n]) then Unique(tokens[..n]) else Unique(tokens[..n]) + [tokens[n]]
  }

  /** The tokens that one poll serves: the first 32 distinct ones. */
  function FirstTokens(tokens: seq<string>): (r: seq<string>)
    ensures r <= Unique(tokens) && |r| <= 32 && (|r| < 32 ==> r == Unique(tokens))
    ensures |Unique(tokens)| <= 32 ==> forall t :: t in tokens ==> t in r
  {
    var unique := Unique(tokens);
    if |unique| > LEGACY_TOKENS then unique[..LEGACY_TOKENS] else unique
  }

  /** Later tokens come after earlier ones. */
  lemma {:induction false} UniqueKeepsOrder(tokens: seq<string>, more: seq<string>)
    ensures Unique(tokens) <= Unique(tokens + more)
  {
    if more == [] {
      assert tokens + more == tokens;
    } else {
      UniqueKeepsOrder(tokens, more[..|more| - 1]);
      assert (tokens + more)[..|tokens + more| - 1] == tokens + more[..|more| - 1];
    }
  }

  method Deduplicate(tokens: seq<string>) returns (unique: seq<string>)
    ensures unique == Unique(tokens)
  {
    var seen: set<string> := {};
    unique := [];
    for i := 0 to |tokens|
      invariant unique == Unique(tokens[..i])
      invariant forall t :: t in seen <==> t in unique
    {
      assert tokens[..i + 1][..i] == tokens[..i];
      if tokens[i] in seen {
        continue;
      }
      seen := seen + {tokens[i]};
      unique := unique + [tokens[i]];
    }
    assert tokens[..|tokens|] == tokens;
  }

  /** Nothing got lost or invented between two states of the mailboxes: every id is in its
      box or among the messages. */
  ghost predicate Accounted(start: Boxes, now: Boxes, msgs: seq<Msg>) {
    && (forall k, id :: Waits(start, k, id) ==> Waits(now, k, id) || id in Ids(msgs))
    && (forall id :: Queued(now, id) || id in Ids(msgs) ==> Queued(start, id))
  }

  ghost predicate Drained(boxes: Boxes, tokens: seq<string>, keysOf: string -> seq<string>) {
    forall t :: t in tokens ==> Pending(boxes, keysOf(t)) == {}
  }

  /** Drains the mailboxes of the first 32 distinct tokens in turn until the batch is full. */
  method PollLegacy(store: MailboxStore, tokens: seq<string>, keysOf: string -> seq<string>) returns (answer: Answer)
    requires forall t :: t in tokens ==> NoRepeats(keysOf(t))
    modifies store
    ensures Serving(store.mailboxes, answer.messages) == Serve(old(store.mailboxes), FirstTokens(tokens), keysOf)
    ensures |answer.messages| <= 8 && (answer.hasMore <==> |answer.messages| == 8)
    ensures Accounted(old(store.mailboxes), store.mailboxes, answer.messages)
    ensures !answer.hasMore ==> Drained(store.mailboxes, FirstTokens(tokens), keysOf)
  {
    var unique := Deduplicate(tokens);
    var asked := if |unique| > LEGACY_TOKENS then unique[..LEGACY_TOKENS] else unique;
    assert forall i :: 0 <= i < |asked| ==> asked[i] == unique[i] && asked[i] in tokens;
    answer := ServeTokens(store, asked, keysOf);
  }

  method ServeTokens(store: MailboxStore, asked: seq<string>, keysOf: string -> seq<string>) returns (answer: Answer)
    requires forall i :: 0 <= i < |asked| ==> NoRepeats(keysOf(asked[i]))
    modifies store
    ensures Serving(store.mailboxes, answer.messages) == Serve(old(store.mailboxes), asked, keysOf)
    ensures |answer.messages| <= BATCH_LIMIT && (answer.hasMore <==> |answer.messages| == BATCH_LIMIT)
    ensures Accounted(old(store.mailboxes), store.mailboxes, answer.messages)
    ensures !answer.hasMore ==> Drained(store.mailboxes, asked, keysOf)
  {
    var msgs: seq<Msg>, hasMore := [], false;
    NothingServed(store.mailboxes, asked, keysOf);
    hide Collect, Served, NoRepeats;
    for i := 0 to |asked|
      invariant |msgs| < BATCH_LIMIT && !hasMore
      invariant Served(old(store.mailboxes), store.mailboxes, msgs, asked, i, keysOf)
    {
      ghost var before := store.mailboxes;
      var limit := BATCH_LIMIT - |msgs|;
      var batch, more := store.CollectFromKeys(keysOf(asked[i]), limit);
      ServeToken(old(store.mailboxes), before, msgs, asked, i, keysOf);
      msgs := msgs + batch;
      hasMore := hasMore || more;
      if |msgs| >= BATCH_LIMIT {
        FullBatch(old(store.mailboxes), store.mailboxes, msgs, asked, i + 1, keysOf);
        return Answer(Capped(msgs), true);
      }
    }
    AllServed(old(store.mailboxes), store.mailboxes, msgs, asked, keysOf);
    return Answer(msgs, hasMore);
  }

  /** The state of the loop after `i` tokens. */
  ghost predicate Served(start: Boxes, now: Boxes, msgs: seq<Msg>, asked: seq<string>, i: nat,
                         keysOf: string -> seq<string>)
    requires i <= |asked|
  {
    && Serving(now, msgs) == Serve(start, asked[..i], keysOf)
    && Accounted(start, now, msgs)
    && (|msgs| < BATCH_LIMIT ==> Drained(now, asked[..i], keysOf))
  }

  datatype Serving = Serving(boxes: Boxes, messages: seq<Msg>)

  /** Token by token, each gets what is left of the batch. */
  function Serve(boxes: Boxes, asked: seq<string>, keysOf: string -> seq<string>): Serving {
    if asked == [] then Serving(boxes, [])
    else
      var before := Serve(boxes, asked[..|asked| - 1], keysOf);
      if |before.messages| >= BATCH_LIMIT then before
      else
        var c := Collect(before.boxes, keysOf(asked[|asked| - 1]), BATCH_LIMIT - |before.messages|);
        Serving(c.boxes, before.messages + c.messages)
  }

  lemma ServeOneMore(boxes: Boxes, asked: seq<string>, i: nat, keysOf: string -> seq<string>)
    requires i < |asked|
    ensures var before := Serve(boxes, asked[..i], keysOf);
      |before.messages| < BATCH_LIMIT ==>
        var c := Collect(before.boxes, keysOf(asked[i]), BATCH_LIMIT - |before.messages|);
        Serve(boxes, asked[..i + 1], keysOf) == Serving(c.boxes, before.messages + c.messages)
  {
    assert asked[..i + 1][..i] == asked[..i];
  }

  lemma {:induction false} FullBatchStops(boxes: Boxes, asked: seq<string>, keysOf: string -> seq<string>, i: nat)
    requires i <= |asked| && |Serve(boxes, asked[..i], keysOf).messages| >= BATCH_LIMIT
    ensures Serve(boxes, asked, keysOf) == Serve(boxes, asked[..i], keysOf)
    decreases |asked|
  {
    if i == |asked| {
      assert asked[..i] == asked;
    } else {
      var init := asked[..|asked| - 1];
      assert init[..i] == asked[..i];
      FullBatchStops(boxes, init, keysOf, i);
    }
  }

  lemma NothingServed(boxes: Boxes, asked: seq<string>, keysOf: string -> seq<string>)
    ensures Served(boxes, boxes, [], asked, 0, keysOf)
  {
    IdsOfNone();
    assert asked[..0] == [];
  }

  lemma AllServed(start: Boxes, now: Boxes, msgs: seq<Msg>, asked: seq<string>, keysOf: string -> seq<string>)
    requires Served(start, now, msgs, asked, |asked|, keysOf)
    ensures Serving(now, msgs) == Serve(start, asked, keysOf) && Accounted(start, now, msgs)
    ensures |msgs| < BATCH_LIMIT ==> Drained(now, asked, keysOf)
  {
    assert asked[..|asked|] == asked;
  }

  lemma FullBatch(start: Boxes, now: Boxes, msgs: seq<Msg>, asked: seq<string>, i: nat, keysOf: string -> seq<string>)
    requires i <= |asked| && Served(start, now, msgs, asked, i, keysOf) && |msgs| >= BATCH_LIMIT
    ensures Serving(now, msgs) == Serve(start, asked, keysOf) && Accounted(start, now, msgs)
  {
    FullBatchStops(start, asked, keysOf, i);
  }

  /** One token's turn. */
  lemma ServeToken(start: Boxes, boxes: Boxes, msgs: seq<Msg>, asked: seq<string>, i: nat,
                   keysOf: string -> seq<string>)
    requires i < |asked| && |msgs| < BATCH_LIMIT && Served(start, boxes, msgs, asked, i, keysOf)
    ensures var limit := BATCH_LIMIT - |msgs|;
      var c := Collect(boxes, keysOf(asked[i]), limit);
      && |c.messages| <= limit && (c.more ==> |c.messages| == limit)
      && Served(start, c.boxes, msgs + c.messages, asked, i + 1, keysOf)
  {
    var limit := BATCH_LIMIT - |msgs|;
    var c := Collect(boxes, keysOf(asked[i]), limit);
    assert asked[..i + 1] == asked[..i] + [asked[i]];
    ServeOneMore(start, asked, i, keysOf);
    LegacyStep(boxes, keysOf(asked[i]), limit);
    AccountedFurther(start, boxes, msgs, keysOf(asked[i]), limit);
    DrainedFurther(boxes, asked[..i], asked[i], limit, keysOf);
    hide Collect, Serve, Accounted, Drained;
  }

  lemma AccountedFurther(start: Boxes, boxes: Boxes, msgs: seq<Msg>, keys: seq<string>, limit: nat)
    requires limit > 0 && Accounted(start, boxes, msgs)
    ensures var c := Collect(boxes, keys, limit); Accounted(start, c.boxes, msgs + c.messages)
  {
    var c := Collect(boxes, keys, limit);
    LegacyStep(boxes, keys, limit);
    IdsOfSum(msgs, c.messages);
    hide Collect, Ids, Queued, Waits, Pending;
    forall k, id | Waits(boxes, k, id)
      ensures Waits(c.boxes, k, id) || id in Ids(c.messages)
    {
      LegacyAtBox(boxes, keys, limit, k, id);
    }
  }

  lemma DrainedFurther(boxes: Boxes, served: seq<string>, token: string, limit: nat, keysOf: string -> seq<string>)
    requires limit > 0 && Drained(boxes, served, keysOf)
    ensures var c := Collect(boxes, keysOf(token), limit); !c.more ==> Drained(c.boxes, served + [token], keysOf)
  {
    var c := Collect(boxes, keysOf(token), limit);
    LegacyStep(boxes, keysOf(token), limit);
    hide Collect, Ids, Queued, Waits, Pending;
    forall t | t in served && Pending(boxes, keysOf(t)) == {}
      ensures Pending(c.boxes, keysOf(t)) == {}
    {
      CollectOnlyShrinks(boxes, keysOf(token), limit, keysOf(t));
    }
  }

  lemma LegacyStep(boxes: Boxes, keys: seq<string>, limit: nat)
    requires limit > 0
    ensures var c := Collect(boxes, keys, limit);
      && |c.messages| <= limit && (c.more ==> |c.messages| == limit)
      && (!c.more ==> Pending(c.boxes, keys) == {})
      && forall id :: Queued(boxes, id) <==> Queued(c.boxes, id) || id in Ids(c.messages)
  {
    hide Collect, Ids, Queued, Pending;
    var c := Collect(boxes, keys, limit);
    CollectConserves(boxes, keys, limit);
    forall id
      ensures Queued(boxes, id) <==> Queued(c.boxes, id) || id in Ids(c.messages)
    {
      if Queued(boxes, id) {
        CollectKeepsKnown(boxes, keys, limit, id);
      }
      if id in Ids(c.messages) {
        PendingIsQueued(boxes, keys, id);
      }
      if Queued(c.boxes, id) {
        StillQueuedWasQueued(boxes, keys, limit, id);
      }
    }
  }

  lemma PendingIsQueued(boxes: Boxes, keys: seq<string>, id: string)
    requires id in Pending(boxes, keys)
    ensures Queued(boxes, id)
  {
    hide Pending, Ids;
    PendingByBox(boxes, keys, id);
    var k :| k in keys && id in Ids(Box(boxes, k));
    IdsOfNone();
  }

  lemma StillQueuedWasQueued(boxes: Boxes, keys: seq<string>, limit: nat, id: string)
    requires Queued(Collect(boxes, keys, limit).boxes, id)
    ensures Queued(boxes, id)
  {
    hide Collect, Ids;
    var after := Collect(boxes, keys, limit).boxes;
    var k :| k in after && id in Ids(after[k]);
    BoxAfterCollect(boxes, keys, limit, k);
    IdsOfNone();
  }

  lemma CollectOnlyShrinks(boxes: Boxes, keys: seq<string>, limit: nat, others: seq<string>)
    ensures Pending(Collect(boxes, keys, limit).boxes, others) <= Pending(boxes, others)
  {
    hide Collect, Ids, Pending;
    var after := Collect(boxes, keys, limit).boxes;
    forall id | id in Pending(after, others)
      ensures id in Pending(boxes, others)
    {
      PendingByBox(after, others, id);
      PendingByBox(boxes, others, id);
      var k :| k in others && id in Ids(Box(after, k));
      BoxAfterCollect(boxes, keys, limit, k);
    }
  }
}
