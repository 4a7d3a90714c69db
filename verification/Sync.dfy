/** Pulling the chain from a peer: `_sync_from_peer` against `infonet_sync_post`
    (both in backend/main.py). */
module Sync {
  import opened Basics
  import opened Chain
  import opened Locator
  import opened InfonetNode

  /** Below this many local events a fork makes the node drop its chain and start over. */
  const SMALL_CHAIN: nat := 20

  /** What one sync request can come back with. `Failed` is any exception other than the
      rate limit; a body without an event list counts as an empty page. */
  datatype Reply =
    | RateLimit(retryAfter: nat)
    | Failed
    | Forked(count: nat)
    | NonList
    | Events(events: seq<Event>)

  /** A peer answers the n-th request of a run knowing the locator. Nothing is assumed. */
  type Peer = (nat, seq<Hash>) -> Reply

  datatype Config = Config(maxRounds: int, pageLimit: int, policy: Policy)

  /** `Raised` leaves the function by exception; `Unfinished` is a run that has used up its
      request budget without reaching an end. */
  datatype Status =
    | Synced
    | RateLimited(retryAfter: nat)
    | Raised
    | ForkDetected
    | NotAList
    | IngestRejected(rejected: nat)
    | Unfinished

  datatype Result = Result(chain: seq<Event>, status: Status)

  /** One pass through the loop body: leave, start over, or go on with the next round. */
  datatype Turn = Stop(result: Result) | StartOver | Advance(chain: seq<Event>)

  function React(local: seq<Event>, reply: Reply, cfg: Config): Turn {
    match reply
    case RateLimit(retryAfter) => Stop(Result(local, RateLimited(retryAfter)))
    case Failed => Stop(Result(local, Raised))
    case Forked(_) => if |local| < SMALL_CHAIN then StartOver else Stop(Result(local, ForkDetected))
    case NonList => Stop(Result(local, NotAList))
    case Events(events) =>
      if events == [] then Stop(Result(local, Synced))
      else
        var r := Ingest(local, events, cfg.policy);
        if r.rejected > 0 then Stop(Result(r.chain, IngestRejected(r.rejected)))
        else if r.accepted == 0 && r.duplicates >= |events| then Stop(Result(r.chain, Synced))
        else if |events| < cfg.pageLimit then Stop(Result(r.chain, Synced))
        else Advance(r.chain)
  }

  /** The loop, one request at a time. Starting over does not use up a round. */
  function Run(local: seq<Event>, peer: Peer, n: nat, rounds: nat, budget: nat, cfg: Config): Result
    decreases budget
  {
    if rounds >= cfg.maxRounds then Result(local, Synced)
    else if budget == 0 then Result(local, Unfinished)
    else
      match React(local, peer(n, Locate(local, LOCATOR_ENTRIES)), cfg)
      case Stop(result) => result
      case StartOver => Run([], peer, n + 1, rounds, budget - 1, cfg)
      case Advance(chain) => Run(chain, peer, n + 1, rounds + 1, budget - 1, cfg)
  }

  method SyncFromPeer(infonet: Infonet, peer: Peer, budget: nat, cfg: Config) returns (status: Status)
    requires infonet.Valid()
    modifies infonet
    ensures infonet.Valid()
    ensures Result(infonet.events, status) == Run(old(infonet.events), peer, 0, 0, budget, cfg)
  {
    hide Ingest, Locate;
    var rounds, requests := 0, 0;
    while rounds < cfg.maxRounds && requests < budget
      invariant infonet.Valid()
      invariant requests <= budget
      invariant Run(old(infonet.events), peer, 0, 0, budget, cfg)
             == Run(infonet.events, peer, requests, rounds, budget - requests, cfg)
      decreases budget - requests
    {
      var locator := infonet.GetLocator(LOCATOR_ENTRIES);
      var reply := peer(requests, locator);
      requests := requests + 1;
      match reply {
        case RateLimit(retryAfter) => return RateLimited(retryAfter);
        case Failed => return Raised;
        case Forked(_) =>
          if |infonet.events| < SMALL_CHAIN {
            infonet.ResetChain();
          } else {
            return ForkDetected;
          }
        case NonList => return NotAList;
        case Events(events) =>
          if events == [] {
            return Synced;
          }
          var accepted, duplicates, rejected := infonet.IngestEvents(events, cfg.policy);
          if rejected > 0 {
            return IngestRejected(rejected);
          }
          if accepted == 0 && duplicates >= |events| {
            return Synced;
          }
          if |events| < cfg.pageLimit {
            return Synced;
          }
          rounds := rounds + 1;
      }
    }
    return if rounds >= cfg.maxRounds then Synced else Unfinished;
  }

  // ---------------------------------------------------------------- any peer

  lemma ReactKeepsHistory(local: seq<Event>, reply: Reply, cfg: Config)
    ensures match React(local, reply, cfg)
      case Stop(r) => local <= r.chain && (WellLinked(local) ==> WellLinked(r.chain)) && r.status != Unfinished
      case StartOver => |local| < 20
      case Advance(chain) => local <= chain && (WellLinked(local) ==> WellLinked(chain))
  {
    if reply.Events? {
      IngestKeepsHistory(local, reply.events, cfg.policy);
    }
  }

  /** Whatever a peer answers, a chain of twenty or more events is never given up: it
      stays a prefix of the chain for the rest of the run, and linkage is always kept. */
  lemma {:induction false} HistoryIsSafe(local: seq<Event>, peer: Peer, n: nat, rounds: nat, budget: nat, cfg: Config)
    ensures var r := Run(local, peer, n, rounds, budget, cfg);
      && (|local| >= 20 ==> local <= r.chain)
      && (WellLinked(local) ==> WellLinked(r.chain))
    decreases budget
  {
    hide React;
    if rounds < cfg.maxRounds && budget > 0 {
      var reply := peer(n, Locate(local, LOCATOR_ENTRIES));
      ReactKeepsHistory(local, reply, cfg);
      match React(local, reply, cfg)
      case Stop(_) =>
      case StartOver => HistoryIsSafe([], peer, n + 1, rounds, budget - 1, cfg);
      case Advance(chain) => HistoryIsSafe(chain, peer, n + 1, rounds + 1, budget - 1, cfg);
    }
  }

  /** How often a run starts over. */
  function Resets(local: seq<Event>, peer: Peer, n: nat, rounds: nat, budget: nat, cfg: Config): nat
    decreases budget
  {
    if rounds >= cfg.maxRounds || budget == 0 then 0
    else
      match React(local, peer(n, Locate(local, LOCATOR_ENTRIES)), cfg)
      case Stop(_) => 0
      case StartOver => 1 + Resets([], peer, n + 1, rounds, budget - 1, cfg)
      case Advance(chain) => Resets(chain, peer, n + 1, rounds + 1, budget - 1, cfg)
  }

  /** Only fork answers can keep a run going beyond its rounds: an unfinished run has
      started over more often than its budget exceeds the rounds it had left. */
  lemma {:induction false} UnfinishedRunsKeepResetting(local: seq<Event>, peer: Peer, n: nat, rounds: nat,
      budget: nat, cfg: Config)
    requires rounds <= cfg.maxRounds
    requires Run(local, peer, n, rounds, budget, cfg).status == Unfinished
    ensures Resets(local, peer, n, rounds, budget, cfg) > budget - (cfg.maxRounds - rounds)
    decreases budget
  {
    hide React;
    if budget == 0 {
    } else {
      var reply := peer(n, Locate(local, LOCATOR_ENTRIES));
      ReactKeepsHistory(local, reply, cfg);
      match React(local, reply, cfg)
      case StartOver => UnfinishedRunsKeepResetting([], peer, n + 1, rounds, budget - 1, cfg);
      case Advance(chain) => UnfinishedRunsKeepResetting(chain, peer, n + 1, rounds + 1, budget - 1, cfg);
      case Stop(_) =>
    }
  }

  /** A chain that is long enough is never reset, so its run ends within its rounds. */
  lemma {:induction false} LongChainsEndInTime(local: seq<Event>, peer: Peer, n: nat, rounds: nat, budget: nat,
                                               cfg: Config)
    requires |local| >= 20
    ensures Resets(local, peer, n, rounds, budget, cfg) == 0
    ensures budget >= cfg.maxRounds - rounds ==> Run(local, peer, n, rounds, budget, cfg).status != Unfinished
    decreases budget
  {
    hide React;
    if rounds < cfg.maxRounds && budget > 0 {
      var reply := peer(n, Locate(local, LOCATOR_ENTRIES));
      ReactKeepsHistory(local, reply, cfg);
      match React(local, reply, cfg)
      case Advance(chain) => LongChainsEndInTime(chain, peer, n + 1, rounds + 1, budget - 1, cfg);
      case _ =>
    }
  }

  /** `max_rounds` does not bound the loop: a peer that reports a fork every time keeps a
      small node busy for as many requests as one likes. */
  lemma {:induction false} PersistentForkNeverEnds(local: seq<Event>, n: nat, budget: nat, cfg: Config)
    requires |local| < 20 && cfg.maxRounds > 0
    ensures Run(local, (_, _) => Forked(0), n, 0, budget, cfg).status == Unfinished
    decreases budget
  {
    if budget == 0 {
    } else {
      PersistentForkNeverEnds([], n + 1, budget - 1, cfg);
    }
  }

  /** The rounds bound the requests, whatever the peer answers, exactly when the chain is
      too long to be reset (or there are no rounds at all). */
  lemma RoundsBoundRequestsExactlyWhen(local: seq<Event>, budget: nat, cfg: Config)
    requires budget >= cfg.maxRounds
    ensures (forall peer: Peer :: Run(local, peer, 0, 0, budget, cfg).status != Unfinished)
       <==> |local| >= 20 || cfg.maxRounds <= 0
  {
    if |local| >= SMALL_CHAIN {
      forall peer: Peer
        ensures Run(local, peer, 0, 0, budget, cfg).status != Unfinished
      {
        LongChainsEndInTime(local, peer, 0, 0, budget, cfg);
      }
    } else if cfg.maxRounds > 0 {
      PersistentForkNeverEnds(local, 0, budget, cfg);
    }
  }

  /** The last request of a run: the chain it was made with, and the peer's reply. */
  datatype Asked = Nothing | Asked(chain: seq<Event>, reply: Reply)

  function LastAsked(local: seq<Event>, peer: Peer, n: nat, rounds: nat, budget: nat, cfg: Config): Asked
    decreases budget
  {
    if rounds >= cfg.maxRounds || budget == 0 then Nothing
    else
      var reply := peer(n, Locate(local, LOCATOR_ENTRIES));
      var later :=
        match React(local, reply, cfg)
        case Stop(_) => Nothing
        case StartOver => LastAsked([], peer, n + 1, rounds, budget - 1, cfg)
        case Advance(chain) => LastAsked(chain, peer, n + 1, rounds + 1, budget - 1, cfg);
      if later.Nothing? then Asked(local, reply) else later
  }

  /** What a status says about how a run ended: the failures are exactly those of the last
      reply, success needs an event page or no request at all. */
  ghost predicate StatusTells(last: Asked, r: Result, cfg: Config) {
    match last
    case Nothing => r.status == Synced || r.status == Unfinished
    case Asked(_, Failed) => r.status == Raised
    case Asked(_, RateLimit(after)) => r.status == RateLimited(after)
    case Asked(_, NonList) => r.status == NotAList
    case Asked(chain, Forked(_)) =>
      if |chain| >= 20 then r == Result(chain, ForkDetected) else r == Result([], Unfinished)
    case Asked(chain, Events(events)) =>
      var i := Ingest(chain, events, cfg.policy);
      && r.chain == i.chain
      && (i.rejected > 0 ==> r.status == IngestRejected(i.rejected))
      && (i.rejected == 0 ==> r.status == Synced || r.status == Unfinished)
  }

  lemma {:induction false} StatusTellsLastReply(local: seq<Event>, peer: Peer, n: nat, rounds: nat, budget: nat,
                                                cfg: Config)
    ensures var last := LastAsked(local, peer, n, rounds, budget, cfg);
      var r := Run(local, peer, n, rounds, budget, cfg);
      && StatusTells(last, r, cfg)
      && (r.status == Unfinished ==> last == Nothing || last.reply.Forked? || last.reply.Events?)
      && (last == Nothing ==> r.chain == local && (r.status == Unfinished <==> rounds < cfg.maxRounds))
    decreases budget
  {
    hide Locate;
    if rounds < cfg.maxRounds && budget > 0 {
      match React(local, peer(n, Locate(local, LOCATOR_ENTRIES)), cfg)
      case Stop(_) =>
      case StartOver => StatusTellsLastReply([], peer, n + 1, rounds, budget - 1, cfg);
      case Advance(chain) => StatusTellsLastReply(chain, peer, n + 1, rounds + 1, budget - 1, cfg);
    } else {
      assert LastAsked(local, peer, n, rounds, budget, cfg) == Nothing;
    }
  }

  /** Each failure status holds exactly when the last reply is that failure, and a run that
      succeeds before its rounds are used up has last seen an event page. */
  lemma FailuresAreReported(local: seq<Event>, peer: Peer, n: nat, rounds: nat, budget: nat, cfg: Config, after: nat)
    ensures var last := LastAsked(local, peer, n, rounds, budget, cfg);
      var r := Run(local, peer, n, rounds, budget, cfg);
      && (r.status == Raised <==> last.Asked? && last.reply == Failed)
      && (r.status == RateLimited(after) <==> last.Asked? && last.reply == RateLimit(after))
      && (r.status == NotAList <==> last.Asked? && last.reply == NonList)
      && (r.status == ForkDetected <==> last.Asked? && last.reply.Forked? && |last.chain| >= 20)
      && (r.status == Synced && rounds < cfg.maxRounds ==> last.Asked? && last.reply.Events?)
      && (r.status.IngestRejected? ==> last.Asked? && last.reply.Events?)
  {
    StatusTellsLastReply(local, peer, n, rounds, budget, cfg);
  }

  /** A first reply that is not a page or a fork ends the run at once, with the chain as it
      was. */
  lemma FirstFailureEndsTheRun(local: seq<Event>, peer: Peer, n: nat, rounds: nat, budget: nat, cfg: Config)
    requires rounds < cfg.maxRounds && budget > 0
    ensures var r := Run(local, peer, n, rounds, budget, cfg);
      match peer(n, Locate(local, LOCATOR_ENTRIES))
      case Failed => r == Result(local, Raised)
      case RateLimit(after) => r == Result(local, RateLimited(after))
      case NonList => r == Result(local, NotAList)
      case Forked(_) => |local| >= 20 ==> r == Result(local, ForkDetected)
      case Events(events) => events == [] ==> r == Result(local, Synced)
  {
  }

  // ---------------------------------------------------------------- the repository's own server

  function Clamp(limit: int): (page: nat)
    ensures 1 <= page <= 500
  {
    if limit < 1 then 1 else if limit > 500 then 500 else limit
  }

  /** `infonet_sync_post` on a transport that hides no event. */
  function Serve(chain: seq<Event>, locator: seq<Hash>, limit: int): Reply {
    var m := AfterLocator(chain, locator, Clamp(limit));
    if m.hash == Missing || (m.hash == Genesis && |locator| > 1) then Forked(|m.events|) else Events(m.events)
  }

  function Server(chain: seq<Event>, limit: int): Peer {
    (n, locator) => Serve(chain, locator, limit)
  }

  /** How far a run gets from position `from` of a chain of `total` events. A page limit
      above the server's cap makes the first page look short, which ends the run. */
  function Reached(from: nat, total: nat, pageLimit: int, rounds: nat): nat {
    var page := Clamp(pageLimit);
    Least(if rounds == 0 then from else if page < pageLimit then from + page else from + rounds * page, total)
  }

  /** What can be reached, in numbers: pages of the requested size, but of one event for a
      limit below one; a limit above 500 gets one page of 500. */
  lemma ReachedInNumbers(from: nat, total: nat, pageLimit: int, rounds: nat)
    requires from <= total && rounds > 0
    ensures var reach := from + if pageLimit < 1 then rounds else if pageLimit > 500 then 500 else rounds * pageLimit;
      Reached(from, total, pageLimit, rounds) == if reach < total then reach else total
  {
  }

  /** The server's answer to a chain's own locator. */
  lemma ServeOwnLocator(local: seq<Event>, remote: seq<Event>, limit: int)
    requires WellLinked(local) && WellLinked(remote)
    ensures var c := Common(local, remote);
      Serve(remote, Locate(local, LOCATOR_ENTRIES), limit)
        == (if Unshared(|local|, c) then Forked(|Page(remote, 0, Clamp(limit))|)
            else Events(Page(remote, ResumeAt(|local|, c), Clamp(limit))))
  {
    var c := Common(local, remote);
    SearchFindsCommonPrefix(local, remote, Clamp(limit));
    LocatorOfEmptyOnly(local, LOCATOR_ENTRIES);
    var start := ResumeAt(|local|, c);
    if start > 0 {
      assert LinkedAt(local, start - 1);
    }
  }

  lemma WholeChainResumesAtItsEnd(length: nat)
    ensures ResumeAt(length, length) == length
  {
  }

  /** What becomes of a page `remote[start..to]` that starts inside the shared prefix. */
  function AfterPage(local: seq<Event>, remote: seq<Event>, start: nat, to: nat, cfg: Config): Turn
    requires start <= to <= |remote| && start <= Common(local, remote)
  {
    var c := Common(local, remote);
    var known := Least(c, to);
    var unsupported := Unsupported(cfg.policy, remote, start, known);
    var stop := if c == |local| && to > c then FirstRefused(cfg.policy, remote, c, to) else known;
    var chain := if c == |local| && to > c then remote[..stop] else local;
    if unsupported + (to - stop) > 0 then Stop(Result(chain, IngestRejected(unsupported + (to - stop))))
    else if to <= c then Stop(Result(local, Synced))
    else if to - start >= cfg.pageLimit then Advance(chain)
    else Stop(Result(chain, Synced))
  }

  lemma ReactToSlice(local: seq<Event>, remote: seq<Event>, start: nat, to: nat, cfg: Config)
    requires WellLinked(local) && WellLinked(remote)
    requires start <= to <= |remote| && start <= Common(local, remote)
    ensures React(local, Events(remote[start..to]), cfg) == AfterPage(local, remote, start, to, cfg)
  {
    hide Common, Ingest;
    IngestSlice(local, remote, start, to, cfg.policy);
  }

  /** One round of a node whose locator reaches the shared prefix. */
  lemma ReactToServer(local: seq<Event>, remote: seq<Event>, cfg: Config)
    requires WellLinked(local) && WellLinked(remote)
    requires !Unshared(|local|, Common(local, remote))
    ensures var start := ResumeAt(|local|, Common(local, remote));
      React(local, Serve(remote, Locate(local, LOCATOR_ENTRIES), cfg.pageLimit), cfg)
        == AfterPage(local, remote, start, Least(start + Clamp(cfg.pageLimit), |remote|), cfg)
  {
    hide Common, Serve, Locate, React, ResumeAt, Clamp, AfterPage;
    var start := ResumeAt(|local|, Common(local, remote));
    var to := Least(start + Clamp(cfg.pageLimit), |remote|);
    ServeOwnLocator(local, remote, cfg.pageLimit);
    assert Page(remote, start, Clamp(cfg.pageLimit)) == remote[start..to];
    ReactToSlice(local, remote, start, to, cfg);
  }

  /** A node that holds the first `from` events of the server's chain. */
  function AfterOwnFuture(from: nat, remote: seq<Event>, cfg: Config): Turn
    requires from <= |remote|
  {
    var page := Clamp(cfg.pageLimit);
    var to := Least(from + page, |remote|);
    var stop := FirstRefused(cfg.policy, remote, from, to);
    if stop < to then Stop(Result(remote[..stop], IngestRejected(to - stop)))
    else if to - from == page && page >= cfg.pageLimit then Advance(remote[..to])
    else Stop(Result(remote[..to], Synced))
  }

  lemma ReactToOwnFuture(local: seq<Event>, remote: seq<Event>, cfg: Config)
    requires WellLinked(remote) && local <= remote
    ensures React(local, Serve(remote, Locate(local, LOCATOR_ENTRIES), cfg.pageLimit), cfg)
         == AfterOwnFuture(|local|, remote, cfg)
  {
    hide Common, Serve, Locate, React, ResumeAt;
    assert local == remote[..|local|] == local[..|local|];
    PrefixWellLinked(remote, |local|);
    CommonOfPrefix(local, remote, |local|);
    WholeChainResumesAtItsEnd(|local|);
    ReactToServer(local, remote, cfg);
  }

  lemma ReachedAtRest(from: nat, total: nat, pageLimit: int)
    requires from <= total
    ensures Reached(from, total, pageLimit, 0) == from
  {}

  lemma ReachedFurther(from: nat, total: nat, more: nat, pageLimit: int, rounds: nat)
    requires total <= more
    ensures Reached(from, total, pageLimit, rounds) <= Reached(from, more, pageLimit, rounds)
  {}

  lemma ReachedStep(from: nat, total: nat, pageLimit: int, left: nat)
    requires left > 0 && from <= total
    ensures var page := Clamp(pageLimit);
      var to := Least(from + page, total);
      if to - from == page && page >= pageLimit
      then Reached(to, total, pageLimit, left - 1) == Reached(from, total, pageLimit, left)
      else Reached(from, total, pageLimit, left) == to
  {
  }

  /** The end of the page that position `i` is on, when pages are counted from `from`. */
  function PageEnd(from: nat, i: nat, total: nat, page: nat): (end: nat)
    requires from <= i && page > 0
    ensures i < total ==> i < end <= total
    decreases i - from
  {
    if i < from + page then Least(from + page, total) else PageEnd(from + page, i, total, page)
  }

  /** What a run comes to that starts with the first `from` events of the server's chain:
      success at the farthest position it can reach, or the first event on the way that the
      policy refuses, which takes the rest of its page with it. */
  function Outcome(from: nat, remote: seq<Event>, left: nat, cfg: Config): Result
    requires from <= |remote|
  {
    ReachedInRange(from, |remote|, cfg.pageLimit, left);
    var want := Reached(from, |remote|, cfg.pageLimit, left);
    var stop := FirstRefused(cfg.policy, remote, from, want);
    if stop == want then Result(remote[..want], Synced)
    else Result(remote[..stop], IngestRejected(PageEnd(from, stop, |remote|, Clamp(cfg.pageLimit)) - stop))
  }

  lemma ReachedInRange(from: nat, total: nat, pageLimit: int, rounds: nat)
    requires from <= total
    ensures from <= Reached(from, total, pageLimit, rounds) <= total
  {
  }

  lemma OutcomeAtRest(from: nat, remote: seq<Event>, cfg: Config)
    requires from <= |remote|
    ensures Outcome(from, remote, 0, cfg) == Result(remote[..from], Synced)
  {
    ReachedAtRest(from, |remote|, cfg.pageLimit);
  }

  /** The outcome, one page at a time. */
  lemma OutcomeStep(from: nat, remote: seq<Event>, left: nat, cfg: Config)
    requires from <= |remote| && left > 0
    ensures match AfterOwnFuture(from, remote, cfg)
      case Stop(result) => Outcome(from, remote, left, cfg) == result
      case Advance(chain) =>
        && from <= |chain| <= |remote| && chain == remote[..|chain|]
        && Outcome(from, remote, left, cfg) == Outcome(|chain|, remote, left - 1, cfg)
      case StartOver => false
  {
    var to := Least(from + Clamp(cfg.pageLimit), |remote|);
    if FirstRefused(cfg.policy, remote, from, to) < to {
      StopsOnFirstPage(from, remote, left, cfg);
    } else {
      GoesPastFirstPage(from, remote, left, cfg);
    }
    hide Outcome, FirstRefused;
  }

  lemma StopsOnFirstPage(from: nat, remote: seq<Event>, left: nat, cfg: Config)
    requires from <= |remote| && left > 0
    requires var to := Least(from + Clamp(cfg.pageLimit), |remote|); FirstRefused(cfg.policy, remote, from, to) < to
    ensures var to := Least(from + Clamp(cfg.pageLimit), |remote|);
      var stop := FirstRefused(cfg.policy, remote, from, to);
      Outcome(from, remote, left, cfg) == Result(remote[..stop], IngestRejected(to - stop))
  {
    var to := Least(from + Clamp(cfg.pageLimit), |remote|);
    ReachedInRange(from, |remote|, cfg.pageLimit, left);
    FirstPageReached(from, |remote|, cfg.pageLimit, left);
    RefusedInTwo(cfg.policy, remote, from, to, Reached(from, |remote|, cfg.pageLimit, left));
    hide Reached, FirstRefused, Clamp, AdmittedAt;
  }

  lemma GoesPastFirstPage(from: nat, remote: seq<Event>, left: nat, cfg: Config)
    requires from <= |remote| && left > 0
    requires var to := Least(from + Clamp(cfg.pageLimit), |remote|); FirstRefused(cfg.policy, remote, from, to) == to
    ensures var page := Clamp(cfg.pageLimit);
      var to := Least(from + page, |remote|);
      Outcome(from, remote, left, cfg) ==
        if to - from == page && page >= cfg.pageLimit then Outcome(to, remote, left - 1, cfg)
        else Result(remote[..to], Synced)
  {
    var page := Clamp(cfg.pageLimit);
    var to := Least(from + page, |remote|);
    ReachedStep(from, |remote|, cfg.pageLimit, left);
    hide Reached, FirstRefused, Clamp, AdmittedAt, PageEnd, Outcome;
    if to - from == page && page >= cfg.pageLimit {
      OutcomeFromNextPage(from, remote, left, cfg);
    } else {
      OutcomeOfLastPage(from, remote, left, cfg);
    }
  }

  lemma OutcomeFromNextPage(from: nat, remote: seq<Event>, left: nat, cfg: Config)
    requires left > 0 && from + Clamp(cfg.pageLimit) <= |remote|
    requires FirstRefused(cfg.policy, remote, from, from + Clamp(cfg.pageLimit)) == from + Clamp(cfg.pageLimit)
    requires Reached(from, |remote|, cfg.pageLimit, left)
          == Reached(from + Clamp(cfg.pageLimit), |remote|, cfg.pageLimit, left - 1)
    ensures Outcome(from, remote, left, cfg) == Outcome(from + Clamp(cfg.pageLimit), remote, left - 1, cfg)
  {
    var page := Clamp(cfg.pageLimit);
    var to, want := from + page, Reached(from, |remote|, cfg.pageLimit, left);
    ReachedInRange(from, |remote|, cfg.pageLimit, left);
    ReachedInRange(to, |remote|, cfg.pageLimit, left - 1);
    RefusedInTwo(cfg.policy, remote, from, to, want);
    hide Reached, FirstRefused, Clamp, AdmittedAt, PageEnd;
    LaterPageEnd(from, FirstRefused(cfg.policy, remote, from, want), |remote|, page);
  }

  lemma OutcomeOfLastPage(from: nat, remote: seq<Event>, left: nat, cfg: Config)
    requires from <= |remote|
    requires var to := Least(from + Clamp(cfg.pageLimit), |remote|);
      FirstRefused(cfg.policy, remote, from, to) == to == Reached(from, |remote|, cfg.pageLimit, left)
    ensures Outcome(from, remote, left, cfg)
         == Result(remote[..Least(from + Clamp(cfg.pageLimit), |remote|)], Synced)
  {
    hide Reached, FirstRefused, Clamp, AdmittedAt, PageEnd;
  }

  lemma LaterPageEnd(from: nat, i: nat, total: nat, page: nat)
    requires page > 0 && from + page <= i
    ensures PageEnd(from, i, total, page) == PageEnd(from + page, i, total, page)
  {
  }

  lemma FirstPageReached(from: nat, total: nat, pageLimit: int, left: nat)
    requires from <= total && left > 0
    ensures Least(from + Clamp(pageLimit), total) <= Reached(from, total, pageLimit, left)
  {
    assert left * Clamp(pageLimit) >= Clamp(pageLimit);
  }

  /** The first refusal of a stretch, told by its two halves. */
  lemma {:induction false} RefusedInTwo(p: Policy, chain: seq<Event>, from: nat, mid: nat, to: nat)
    requires from <= mid <= to <= |chain|
    ensures FirstRefused(p, chain, from, to)
         == if FirstRefused(p, chain, from, mid) < mid then FirstRefused(p, chain, from, mid)
            else FirstRefused(p, chain, mid, to)
    decreases mid - from
  {
    if from == mid {
      assert FirstRefused(p, chain, from, mid) == mid;
    } else if AdmittedAt(p, chain, from) {
      RefusedInTwo(p, chain, from + 1, mid, to);
    }
  }

  /** Exactness, whatever the policy refuses: a node whose chain is a prefix of the server's
      fetches exactly the next pages, as far as it can. */
  lemma {:induction false} SyncExtendsPrefix(local: seq<Event>, remote: seq<Event>, n: nat, rounds: nat,
                                             budget: nat, cfg: Config)
    requires WellLinked(remote) && local <= remote
    requires rounds <= cfg.maxRounds && budget >= cfg.maxRounds - rounds
    ensures Run(local, Server(remote, cfg.pageLimit), n, rounds, budget, cfg)
         == Outcome(|local|, remote, cfg.maxRounds - rounds, cfg)
    decreases budget
  {
    hide React, Serve, Locate, Outcome, AfterOwnFuture;
    var left := cfg.maxRounds - rounds;
    if left == 0 {
      OutcomeAtRest(|local|, remote, cfg);
      assert local == remote[..|local|];
    } else {
      ReactToOwnFuture(local, remote, cfg);
      OutcomeStep(|local|, remote, left, cfg);
      match AfterOwnFuture(|local|, remote, cfg)
      case Stop(_) =>
      case Advance(chain) => SyncExtendsPrefix(chain, remote, n + 1, rounds + 1, budget - 1, cfg);
    }
  }

  /** When everything on the way is admitted, the run succeeds at the farthest position it
      can reach. */
  lemma OutcomeWhenAdmitted(from: nat, remote: seq<Event>, left: nat, cfg: Config)
    requires from <= |remote|
    ensures (forall i :: from <= i < Reached(from, |remote|, cfg.pageLimit, left) && i < |remote| ==>
               AdmittedAt(cfg.policy, remote, i)) ==>
      Outcome(from, remote, left, cfg) == Result(remote[..Reached(from, |remote|, cfg.pageLimit, left)], Synced)
  {
    ReachedInRange(from, |remote|, cfg.pageLimit, left);
  }

  /** What a whole run against the server comes to, told by how the two chains relate. */
  function Expected(local: seq<Event>, remote: seq<Event>, cfg: Config): Result
    requires cfg.maxRounds >= 0
  {
    var c := Common(local, remote);
    var start := ResumeAt(|local|, c);
    var to := Least(start + Clamp(cfg.pageLimit), |remote|);
    var rejected := Unsupported(cfg.policy, remote, start, Least(c, to)) + (to - Least(c, to));
    if cfg.maxRounds == 0 then Result(local, Synced)
    else if c == |local| then Outcome(c, remote, cfg.maxRounds, cfg)
    else if start == 0 then
      if |local| < SMALL_CHAIN then Outcome(0, remote, cfg.maxRounds, cfg) else Result(local, ForkDetected)
    else if rejected == 0 then Result(local, Synced)
    else Result(local, IngestRejected(rejected))
  }

  /** The complete classification, for every pair of chains, policy, page limit and round
      count: extension as far as the policy lets it, the same from an empty chain after a
      reset, reported fork, silent standstill, or rejection. One request beyond the rounds
      is enough. */
  lemma SyncOutcome(local: seq<Event>, remote: seq<Event>, budget: nat, cfg: Config)
    requires WellLinked(local) && WellLinked(remote)
    requires 0 <= cfg.maxRounds < budget
    ensures Run(local, Server(remote, cfg.pageLimit), 0, 0, budget, cfg) == Expected(local, remote, cfg)
  {
    hide Serve, Locate, Outcome, ResumeAt, Common, Ingest;
    var c := Common(local, remote);
    if c == |local| {
      assert local == local[..c];
      SyncExtendsPrefix(local, remote, 0, 0, budget, cfg);
      OutcomeAtRest(c, remote, cfg);
    } else if cfg.maxRounds > 0 {
      if Unshared(|local|, c) {
        ServeOwnLocator(local, remote, cfg.pageLimit);
        if |local| < SMALL_CHAIN {
          SyncExtendsPrefix([], remote, 1, 0, budget - 1, cfg);
        }
      } else {
        ReactToServer(local, remote, cfg);
      }
    }
  }

  lemma {:induction false} NoResetOnPrefix(local: seq<Event>, remote: seq<Event>, n: nat, rounds: nat,
                                           budget: nat, cfg: Config)
    requires WellLinked(remote) && local <= remote
    ensures Resets(local, Server(remote, cfg.pageLimit), n, rounds, budget, cfg) == 0
    decreases budget
  {
    hide React, Serve, Locate;
    if rounds < cfg.maxRounds && budget > 0 {
      ReactToOwnFuture(local, remote, cfg);
      match AfterOwnFuture(|local|, remote, cfg)
      case Stop(_) =>
      case Advance(chain) => NoResetOnPrefix(chain, remote, n + 1, rounds + 1, budget - 1, cfg);
    } else {
      assert Resets(local, Server(remote, cfg.pageLimit), n, rounds, budget, cfg) == 0;
    }
  }

  /** Against the server a run starts over at most once, and when it does is decided by the
      two chains: a small local chain none of whose samples is shared. */
  lemma ResetsAtMostOnce(local: seq<Event>, remote: seq<Event>, budget: nat, cfg: Config)
    requires WellLinked(local) && WellLinked(remote)
    requires 0 < cfg.maxRounds < budget
    ensures Resets(local, Server(remote, cfg.pageLimit), 0, 0, budget, cfg)
         == if |local| < 20 && Unshared(|local|, Common(local, remote)) then 1 else 0
  {
    hide Serve, Locate, ResumeAt, Common, Ingest;
    var c := Common(local, remote);
    if c == |local| {
      WholeChainResumesAtItsEnd(|local|);
      assert local == local[..c];
      NoResetOnPrefix(local, remote, 0, 0, budget, cfg);
    } else if Unshared(|local|, c) {
      ServeOwnLocator(local, remote, cfg.pageLimit);
      NoResetOnPrefix([], remote, 1, 0, budget - 1, cfg);
    } else {
      ReactToServer(local, remote, cfg);
    }
  }

  /** The chain of an outcome lies between the start and what can be reached. */
  lemma OutcomeRange(from: nat, remote: seq<Event>, left: nat, cfg: Config)
    requires from <= |remote|
    ensures var r := Outcome(from, remote, left, cfg);
      && from <= |r.chain| <= |remote| && r.chain == remote[..|r.chain|]
      && (r.status == Synced ==> |r.chain| == Reached(from, |remote|, cfg.pageLimit, left))
      && (r.status != Synced ==>
            && r.status.IngestRejected? && |r.chain| < |remote|
            && !AdmittedAt(cfg.policy, remote, |r.chain|))
      && (left > 0 && |r.chain| == from < |remote| ==> r.status != Synced)
  {
    ReachedInRange(from, |remote|, cfg.pageLimit, left);
    if left > 0 {
      ReachedGrows(from, |remote|, cfg.pageLimit, left);
    }
  }

  /** The reset loses history exactly when the chain is small and no sample lies in the
      shared prefix, whatever the policy. Nothing in this condition asks the server's chain
      to be longer, or to be acceptable. */
  lemma HistoryLostExactlyWhen(local: seq<Event>, remote: seq<Event>, budget: nat, cfg: Config)
    requires WellLinked(local) && WellLinked(remote)
    requires 0 < cfg.maxRounds < budget
    ensures !(local <= Run(local, Server(remote, cfg.pageLimit), 0, 0, budget, cfg).chain)
       <==> |local| < 20 && Unshared(|local|, Common(local, remote))
  {
    var c := Common(local, remote);
    SyncOutcome(local, remote, budget, cfg);
    hide Run, Outcome, Common, ResumeAt;
    if c == |local| {
      WholeChainResumesAtItsEnd(|local|);
      OutcomeRange(c, remote, cfg.maxRounds, cfg);
      assert local == local[..c] == remote[..c];
    } else if |local| < SMALL_CHAIN && Unshared(|local|, c) {
      OutcomeRange(0, remote, cfg.maxRounds, cfg);
      NotInsideRemote(local, remote, |Outcome(0, remote, cfg.maxRounds, cfg).chain|);
    }
  }

  lemma ReachedGrows(from: nat, total: nat, pageLimit: int, rounds: nat)
    requires from <= total && rounds > 0
    ensures from < total ==> from < Reached(from, total, pageLimit, rounds)
  {
    assert rounds * Clamp(pageLimit) >= 1;
  }

  lemma NotInsideRemote(local: seq<Event>, remote: seq<Event>, k: nat)
    requires Common(local, remote) < |local| && k <= |remote|
    ensures !(local <= remote[..k])
  {
  }

  /** A node with a few events that asks a peer with none ends up empty, with success. */
  lemma EmptyPeerWipesSmallChain(local: seq<Event>, budget: nat, cfg: Config)
    requires WellLinked(local) && 0 < |local| < 20 && 0 < cfg.maxRounds < budget
    ensures Run(local, Server([], cfg.pageLimit), 0, 0, budget, cfg) == Result([], Synced)
  {
    SyncOutcome(local, [], budget, cfg);
  }

  /** When a node with events is left with none: exactly when it is reset and the server has
      no first event, or one that the policy refuses, such as one that has expired. */
  lemma LeftEmptyExactlyWhen(local: seq<Event>, remote: seq<Event>, budget: nat, cfg: Config)
    requires WellLinked(local) && WellLinked(remote) && local != []
    requires 0 < cfg.maxRounds < budget
    ensures Run(local, Server(remote, cfg.pageLimit), 0, 0, budget, cfg).chain == [] <==>
      && |local| < 20 && Unshared(|local|, Common(local, remote))
      && (remote == [] || !AdmittedAt(cfg.policy, remote, 0))
  {
    SyncOutcome(local, remote, budget, cfg);
    hide Run, Outcome, Common, ResumeAt;
    var c := Common(local, remote);
    if c == |local| {
      WholeChainResumesAtItsEnd(|local|);
      OutcomeRange(c, remote, cfg.maxRounds, cfg);
    } else if |local| < SMALL_CHAIN && Unshared(|local|, c) {
      OutcomeRange(0, remote, cfg.maxRounds, cfg);
      FirstAdmitted(remote, cfg.maxRounds, cfg);
    }
  }

  lemma FirstAdmitted(remote: seq<Event>, left: nat, cfg: Config)
    requires left > 0
    ensures Outcome(0, remote, left, cfg).chain == [] <==> remote == [] || !AdmittedAt(cfg.policy, remote, 0)
  {
    ReachedInRange(0, |remote|, cfg.pageLimit, left);
    ReachedGrows(0, |remote|, cfg.pageLimit, left);
  }

  /** Nothing the server sends in its first page is new, and nothing in it is refused. */
  predicate NothingNew(local: seq<Event>, remote: seq<Event>, cfg: Config) {
    var c := Common(local, remote);
    if c == |local| then c == |remote|
    else
      var start := ResumeAt(|local|, c);
      var to := Least(start + Clamp(cfg.pageLimit), |remote|);
      start > 0 && to <= c && Unsupported(cfg.policy, remote, start, to) == 0
  }

  /** When a run reports success and leaves the chain as it was: exactly when the node has
      the whole remote chain already, or when it diverges from it and the first page ends
      inside the shared prefix. */
  lemma StandstillExactlyWhen(local: seq<Event>, remote: seq<Event>, budget: nat, cfg: Config)
    requires WellLinked(local) && WellLinked(remote)
    requires 0 < cfg.maxRounds < budget
    ensures Run(local, Server(remote, cfg.pageLimit), 0, 0, budget, cfg) == Result(local, Synced)
       <==> NothingNew(local, remote, cfg)
  {
    hide Run, ResumeAt, Outcome, Common, Unsupported;
    var c := Common(local, remote);
    SyncOutcome(local, remote, budget, cfg);
    if c == |local| {
      OutcomeRange(c, remote, cfg.maxRounds, cfg);
      assert local == local[..c] == remote[..c];
      StandsAtTheEnd(remote, cfg.maxRounds, cfg);
    } else {
      OutcomeRange(0, remote, cfg.maxRounds, cfg);
      NotInsideRemote(local, remote, |Outcome(0, remote, cfg.maxRounds, cfg).chain|);
    }
  }

  lemma StandsAtTheEnd(remote: seq<Event>, left: nat, cfg: Config)
    ensures Outcome(|remote|, remote, left, cfg) == Result(remote, Synced)
  {
    ReachedInRange(|remote|, |remote|, cfg.pageLimit, left);
    assert remote[..|remote|] == remote;
  }

  /** With a server that has more to offer, such a standstill needs a divergence at least a
      page and nine events deep. */
  lemma StandstillNeedsDeepDivergence(local: seq<Event>, remote: seq<Event>, budget: nat, cfg: Config)
    requires WellLinked(local) && WellLinked(remote)
    requires 0 < cfg.maxRounds < budget
    requires Run(local, Server(remote, cfg.pageLimit), 0, 0, budget, cfg) == Result(local, Synced)
    ensures Common(local, remote) == |remote| || |local| - Common(local, remote) >= Clamp(cfg.pageLimit) + 9
  {
    StandstillExactlyWhen(local, remote, budget, cfg);
    hide Run, Common;
    if Common(local, remote) < |local| {
      FewEventsResent(|local|, Common(local, remote));
    }
  }

  /** `length` events after `chain`, all by the same author. */
  function Extend(chain: seq<Event>, length: nat, author: string): (longer: seq<Event>)
    ensures |longer| == |chain| + length && chain <= longer
    ensures forall i :: |chain| <= i < |longer| ==> longer[i].body.nodeId == author
  {
    if length == 0 then chain
    else
      var before := Extend(chain, length - 1, author);
      var body := Body("message", author, length, 0, "", "");
      before + [Event(Digest(Head(before), body), Head(before), body)]
  }

  lemma {:induction false} ExtendLinks(chain: seq<Event>, length: nat, author: string)
    requires WellLinked(chain)
    ensures WellLinked(Extend(chain, length, author))
  {
    if length == 0 {
      assert Extend(chain, length, author) == chain;
    } else {
      ExtendLinks(chain, length - 1, author);
      var before := Extend(chain, length - 1, author);
      LinkOne(before, Extend(chain, length, author)[|before|]);
    }
  }

  /** A run that stands still: twelve events, two of them shared, and pages of one event.
      The server's newer events are never fetched, and the run reports success. */
  lemma DeepDivergenceGoesUnnoticed(more: nat, budget: nat, rounds: nat)
    requires 0 < rounds < budget && more > 0
    ensures var shared := Extend([], 2, "a");
      var local, remote := Extend(shared, 10, "b"), Extend(shared, more, "c");
      var cfg := Config(rounds, 1, Policy(_ => true, (_, _) => true));
      Common(local, remote) == 2 && Run(local, Server(remote, 1), 0, 0, budget, cfg) == Result(local, Synced)
  {
    var shared := Extend([], 2, "a");
    var local, remote := Extend(shared, 10, "b"), Extend(shared, more, "c");
    ExtendLinks([], 2, "a");
    ExtendLinks(shared, 10, "b");
    ExtendLinks(shared, more, "c");
    BranchesDiverge(shared, 10, more);
    hide Extend, Run, Common, WellLinked;
    TwelveStandStill(local, remote, budget, Config(rounds, 1, Policy(_ => true, (_, _) => true)));
  }

  /** Twelve events, two of them shared with a longer chain, and pages of one event. */
  lemma TwelveStandStill(local: seq<Event>, remote: seq<Event>, budget: nat, cfg: Config)
    requires WellLinked(local) && WellLinked(remote) && |local| == 12 && Common(local, remote) == 2 < |remote|
    requires 0 < cfg.maxRounds < budget && cfg.pageLimit == 1 && cfg.policy.supported(remote[1])
    ensures Run(local, Server(remote, cfg.pageLimit), 0, 0, budget, cfg) == Result(local, Synced)
  {
    TwelveSampleTheFirst();
    assert Unsupported(cfg.policy, remote, 1, 2) == 0;
    StandstillExactlyWhen(local, remote, budget, cfg);
    hide Run, Common, ResumeAt, WellLinked, Unsupported;
  }

  /** Two authors who go on from the same chain share nothing more. */
  lemma BranchesDiverge(shared: seq<Event>, a: nat, b: nat)
    requires a > 0 && b > 0
    ensures Common(Extend(shared, a, "b"), Extend(shared, b, "c")) == |shared|
  {
    var left, right := Extend(shared, a, "b"), Extend(shared, b, "c");
    hide Extend;
    var n := |shared|;
    assert left[..n] == shared == right[..n];
    assert left[n].body.nodeId != right[n].body.nodeId;
    CommonUpToDifference(left, right, n);
  }

  lemma TwelveSampleTheFirst()
    ensures ResumeAt(12, 2) == 1
  {
    var m := Samples(12, LOCATOR_ENTRIES - 1);
    var k := FirstBelow(12, m, 2);
    assert Pow2(2) == 4 && Offset(9) == 10 && Offset(10) == 12 && Offset(11) == 16;
    assert m == 11 by { SamplesUnique(12, LOCATOR_ENTRIES - 1, 11); }
    OffsetsIncrease(0, 9);
  }

  // ---------------------------------------------------------------- a server that keeps growing

  function GrowingServer(chains: nat -> seq<Event>, limit: int): Peer {
    (n: nat, locator) => Serve(chains(n), locator, limit)
  }

  ghost predicate Growing(chains: nat -> seq<Event>) {
    forall i: nat :: WellLinked(chains(i)) && chains(i) <= chains(i + 1)
  }

  lemma {:induction false} GrowthIsMonotone(chains: nat -> seq<Event>, m: nat, n: nat)
    requires m <= n && Growing(chains)
    ensures chains(m) <= chains(n)
    decreases n - m
  {
    if m < n {
      GrowthIsMonotone(chains, m + 1, n);
      assert chains(m) <= chains(m + 1);
    } else {
      assert m == n;
    }
  }

  /** The prefix relation survives a server that appends between the requests: the run only
      ever moves forward along the server's chain, and ends with success where it can reach
      or with the first event that the policy refuses. */
  lemma {:induction false} SyncFollowsGrowingServer(local: seq<Event>, chains: nat -> seq<Event>, n: nat, rounds: nat,
                                                    budget: nat, cfg: Config)
    requires Growing(chains)
    requires local <= chains(n) && rounds <= cfg.maxRounds && budget >= cfg.maxRounds - rounds
    ensures var r := Run(local, GrowingServer(chains, cfg.pageLimit), n, rounds, budget, cfg);
      var last := chains(n + budget);
      && local <= r.chain && r.chain <= last
      && (r.status == Synced || r.status.IngestRejected?)
      && (r.status == Synced ==>
            |r.chain| >= Reached(|local|, |chains(n)|, cfg.pageLimit, cfg.maxRounds - rounds))
      && (r.status.IngestRejected? ==> |r.chain| < |last| && !AdmittedAt(cfg.policy, last, |r.chain|))
    decreases budget
  {
    hide React, Serve, Locate, Reached, AdmittedAt;
    var remote := chains(n);
    GrowthIsMonotone(chains, n, n + budget);
    ReachedAtRest(|local|, |remote|, cfg.pageLimit);
    if rounds < cfg.maxRounds {
      ReactToOwnFuture(local, remote, cfg);
      ReachedStep(|local|, |remote|, cfg.pageLimit, cfg.maxRounds - rounds);
      var to := Least(|local| + Clamp(cfg.pageLimit), |remote|);
      var stop := FirstRefused(cfg.policy, remote, |local|, to);
      if stop < to {
        AdmittedInBoth(cfg.policy, remote, chains(n + budget), stop);
      } else {
        assert remote <= chains(n + 1);
        ReachedFurther(to, |remote|, |chains(n + 1)|, cfg.pageLimit, cfg.maxRounds - rounds - 1);
        if AfterOwnFuture(|local|, remote, cfg).Advance? {
          SyncFollowsGrowingServer(remote[..to], chains, n + 1, rounds + 1, budget - 1, cfg);
        }
      }
    } else {
      assert local == remote[..|local|];
    }
  }

  lemma AdmittedInBoth(p: Policy, a: seq<Event>, b: seq<Event>, i: nat)
    requires a <= b && i < |a|
    ensures AdmittedAt(p, a, i) <==> AdmittedAt(p, b, i)
  {
    assert a[..i] == b[..i];
  }
}
