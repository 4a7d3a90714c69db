/** Rebuilding the peer store from configuration, in the two versions the repository has:
    backend/main.py prunes before it upserts, backend/node_state.py filters afterwards. */
module PeerRefresh {
  import opened Basics
  import opened PeerStore

  const PRIVATE_TRANSPORT_ERROR := "private Infonet requires onion/RNS transport; no clearnet sync fallback"
  const SEED_NAME := "Vincent OS bootstrap seed"
  const SEED_SIGNER := "vincent_os-bootstrap"

  datatype ManifestPeer = ManifestPeer(url: Url, transport: Transport, role: Role, name: string)
  datatype Manifest = NoManifest(error: string) | Manifest(signerId: string, peers: seq<ManifestPeer>)

  datatype Config = Config(privateRequired: bool, operators: seq<Url>, seeds: seq<Url>, manifest: Manifest, now: nat)

  predicate IsPrivate(t: Transport) {
    t == Onion || t == Rns
  }

  // ---------------------------------------------------------------- what a refresh lists

  /** A configured peer and the records it stands for; one that is not `listed` is passed over. */
  datatype Candidate = Candidate(listed: bool, transport: Transport, records: seq<Record>)

  function Made(cfg: Config, bucket: Bucket, source: Source, url: Url, t: Transport, role: Role, name: string,
                signerId: string): Record {
    Record(bucket, source, url, t, role, name, signerId, true, cfg.now, cfg.now, 0, 0, 0, "", 0, 0, map[])
  }

  function OperatorPeer(cfg: Config, url: Url): Candidate {
    var t := TransportKind(url);
    Candidate(t != NoTransport, t,
      [Made(cfg, Sync, Operator, url, t, Relay, "", ""), Made(cfg, Push, Operator, url, t, Relay, "", "")])
  }

  function SeedPeer(cfg: Config, url: Url): Candidate {
    var t := TransportKind(url);
    Candidate(url !in cfg.operators && t != NoTransport, t,
      [Made(cfg, Bootstrap, Bundle, url, t, Seed, SEED_NAME, SEED_SIGNER),
       Made(cfg, Sync, Bundle, url, t, Seed, SEED_NAME, SEED_SIGNER)])
  }

  function ListedPeer(cfg: Config, signerId: string, p: ManifestPeer): Candidate {
    Candidate(true, p.transport,
      [Made(cfg, Bootstrap, Bundle, p.url, p.transport, p.role, p.name, signerId),
       Made(cfg, Sync, BootstrapPromoted, p.url, p.transport, p.role, p.name, signerId)])
  }

  function Operators(cfg: Config): seq<Candidate> {
    seq(|cfg.operators|, i requires 0 <= i < |cfg.operators| => OperatorPeer(cfg, cfg.operators[i]))
  }

  function Seeds(cfg: Config): seq<Candidate> {
    seq(|cfg.seeds|, i requires 0 <= i < |cfg.seeds| => SeedPeer(cfg, cfg.seeds[i]))
  }

  function ManifestPeers(cfg: Config): seq<Candidate> {
    match cfg.manifest
    case NoManifest(_) => []
    case Manifest(signerId, peers) => seq(|peers|, i requires 0 <= i < |peers| => ListedPeer(cfg, signerId, peers[i]))
  }

  function Candidates(cfg: Config): seq<Candidate> {
    Operators(cfg) + Seeds(cfg) + ManifestPeers(cfg)
  }

  predicate Refused(cfg: Config, c: Candidate) {
    c.listed && cfg.privateRequired && !IsPrivate(c.transport)
  }

  /** The records the candidates put into the store, in order. */
  function Wanted(cfg: Config, cs: seq<Candidate>): seq<Record> {
    if cs == [] then []
    else
      var c := cs[|cs| - 1];
      Wanted(cfg, cs[..|cs| - 1]) + if c.listed && !Refused(cfg, c) then c.records else []
  }

  function Skipped(cfg: Config, cs: seq<Candidate>): nat {
    if cs == [] then 0
    else Skipped(cfg, cs[..|cs| - 1]) + if Refused(cfg, cs[|cs| - 1]) then 1 else 0
  }

  function Listed(cfg: Config): seq<Record> {
    Wanted(cfg, Candidates(cfg))
  }

  function PrivatePart(m: Records): Records {
    map k | k in m && IsPrivate(m[k].transport) :: m[k]
  }

  /** What a rebuild shows of a bucket. */
  function Shown(cfg: Config, m: Records, bucket: Bucket): Records {
    if cfg.privateRequired then PrivatePart(InBucket(m, bucket)) else InBucket(m, bucket)
  }

  /** The store that main.py leaves. */
  function Pruned(cfg: Config, m: Records): Records {
    UpsertAll(if cfg.privateRequired then PrivatePart(m) else m, Listed(cfg))
  }

  /** The store that node_state.py leaves. */
  function Unpruned(cfg: Config, m: Records): Records {
    UpsertAll(m, Listed(cfg))
  }

  // ---------------------------------------------------------------- the rebuilds

  datatype Snapshot = Snapshot(skipped: nat, pruned: int, bootstrapCount: nat, syncCount: nat, pushCount: nat,
                               lastError: string)

  function BootstrapError(cfg: Config): string {
    var loadError := if cfg.manifest.NoManifest? then cfg.manifest.error else "";
    if cfg.privateRequired && Skipped(cfg, Candidates(cfg)) > 0 && loadError == "" then PRIVATE_TRANSPORT_ERROR
    else loadError
  }

  function SnapshotOf(cfg: Config, m: Records, pruned: int): Snapshot {
    Snapshot(Skipped(cfg, Candidates(cfg)), pruned,
      |Shown(cfg, m, Bootstrap)|, |Shown(cfg, m, Sync)|, |Shown(cfg, m, Push)|, BootstrapError(cfg))
  }

  lemma {:induction false} WantedAppend(cfg: Config, a: seq<Candidate>, b: seq<Candidate>)
    ensures Wanted(cfg, a + b) == Wanted(cfg, a) + Wanted(cfg, b)
    ensures Skipped(cfg, a + b) == Skipped(cfg, a) + Skipped(cfg, b)
  {
    if b == [] {
      assert a + b == a;
      assert Wanted(cfg, a) + [] == Wanted(cfg, a);
    } else {
      var n := |b| - 1;
      WantedAppend(cfg, a, b[..n]);
      assert (a + b)[..|a + b| - 1] == a + b[..n];
      var more := if b[n].listed && !Refused(cfg, b[n]) then b[n].records else [];
      assert (Wanted(cfg, a) + Wanted(cfg, b[..n])) + more == Wanted(cfg, a) + (Wanted(cfg, b[..n]) + more);
    }
  }

  /** The first `n` candidates have gone into a store that held `start`. */
  ghost predicate Added(cfg: Config, cs: seq<Candidate>, n: nat, start: Records, m: Records, skipped: nat) {
    && n <= |cs| && skipped == Skipped(cfg, cs[..n])
    && AllAccepted(Wanted(cfg, cs[..n])) && m == UpsertAll(start, Wanted(cfg, cs[..n]))
  }

  lemma AddedPassedOver(cfg: Config, cs: seq<Candidate>, n: nat, start: Records, m: Records, skipped: nat)
    requires n < |cs| && Added(cfg, cs, n, start, m, skipped)
    requires !cs[n].listed || Refused(cfg, cs[n])
    ensures Added(cfg, cs, n + 1, start, m, if cs[n].listed then skipped + 1 else skipped)
  {
    assert cs[..n + 1][..n] == cs[..n];
    assert Wanted(cfg, cs[..n]) + [] == Wanted(cfg, cs[..n]);
  }

  lemma AddedBoth(cfg: Config, cs: seq<Candidate>, n: nat, start: Records, m: Records, skipped: nat, r: Record,
                  s: Record)
    requires n < |cs| && Added(cfg, cs, n, start, m, skipped)
    requires cs[n].listed && !Refused(cfg, cs[n]) && cs[n].records == [r, s] && Accepted(r) && Accepted(s)
    ensures Added(cfg, cs, n + 1, start, Upserted(Upserted(m, r), s), skipped)
  {
    assert cs[..n + 1][..n] == cs[..n];
    var before := Wanted(cfg, cs[..n]);
    assert Wanted(cfg, cs[..n + 1]) == before + [r, s];
    assert Skipped(cfg, cs[..n + 1]) == Skipped(cfg, cs[..n]);
    assert AllAccepted([r, s]);
    hide Wanted, Skipped, UpsertAll, AllAccepted, Upserted;
    AcceptedInBoth(before, [r, s]);
    UpsertOneMore(start, before, r);
    UpsertOneMore(start, before + [r], s);
    assert before + [r, s] == before + [r] + [s];
  }

  lemma Raises(cfg: Config, cs: seq<Candidate>, n: nat, r: Record, s: Record)
    requires n < |cs| && cs[n].listed && !Refused(cfg, cs[n]) && cs[n].records == [r, s]
    requires !Accepted(r) || !Accepted(s)
    ensures !AllAccepted(Wanted(cfg, cs))
  {
    assert cs == cs[..n] + [cs[n]] + cs[n + 1..];
    WantedAppend(cfg, cs[..n] + [cs[n]], cs[n + 1..]);
    WantedAppend(cfg, cs[..n], [cs[n]]);
    assert [cs[n]][..0] == [];
    var before, all := Wanted(cfg, cs[..n]), Wanted(cfg, cs);
    assert all[|before|] == r && all[|before| + 1] == s;
  }

  method UpsertBoth(store: Store, r: Record, s: Record) returns (ok: bool)
    modifies store
    ensures ok == (Accepted(r) && Accepted(s))
    ensures ok ==> store.records == Upserted(Upserted(old(store.records), r), s)
  {
    ok := store.Upsert(r);
    if ok {
      ok := store.Upsert(s);
    }
  }

  method AddOperators(store: Store, cfg: Config) returns (ok: bool, skipped: nat)
    modifies store
    ensures ok == AllAccepted(Wanted(cfg, Operators(cfg)))
    ensures ok ==>
      && skipped == Skipped(cfg, Operators(cfg))
      && store.records == UpsertAll(old(store.records), Wanted(cfg, Operators(cfg)))
  {
    ghost var cs := Operators(cfg);
    skipped := 0;
    for i := 0 to |cfg.operators|
      invariant Added(cfg, cs, i, old(store.records), store.records, skipped)
    {
      var c := OperatorPeer(cfg, cfg.operators[i]);
      ghost var m, before := store.records, skipped;
      if c.transport == NoTransport {
        AddedPassedOver(cfg, cs, i, old(store.records), m, before);
      } else if cfg.privateRequired && !IsPrivate(c.transport) {
        AddedPassedOver(cfg, cs, i, old(store.records), m, before);
        skipped := skipped + 1;
      } else {
        ok := UpsertBoth(store, c.records[0], c.records[1]);
        if !ok {
          Raises(cfg, cs, i, c.records[0], c.records[1]);
          return;
        }
        AddedBoth(cfg, cs, i, old(store.records), m, before, c.records[0], c.records[1]);
      }
    }
    assert cs[..|cs|] == cs;
    ok := true;
  }

  method AddSeeds(store: Store, cfg: Config) returns (ok: bool, skipped: nat)
    modifies store
    ensures ok == AllAccepted(Wanted(cfg, Seeds(cfg)))
    ensures ok ==>
      skipped == Skipped(cfg, Seeds(cfg)) && store.records == UpsertAll(old(store.records), Wanted(cfg, Seeds(cfg)))
  {
    ghost var cs := Seeds(cfg);
    skipped := 0;
    for i := 0 to |cfg.seeds|
      invariant Added(cfg, cs, i, old(store.records), store.records, skipped)
    {
      var c := SeedPeer(cfg, cfg.seeds[i]);
      ghost var m, before := store.records, skipped;
      if cfg.seeds[i] in cfg.operators || c.transport == NoTransport {
        AddedPassedOver(cfg, cs, i, old(store.records), m, before);
      } else if cfg.privateRequired && !IsPrivate(c.transport) {
        AddedPassedOver(cfg, cs, i, old(store.records), m, before);
        skipped := skipped + 1;
      } else {
        ok := UpsertBoth(store, c.records[0], c.records[1]);
        if !ok {
          Raises(cfg, cs, i, c.records[0], c.records[1]);
          return;
        }
        AddedBoth(cfg, cs, i, old(store.records), m, before, c.records[0], c.records[1]);
      }
    }
    assert cs[..|cs|] == cs;
    ok := true;
  }

  method AddManifest(store: Store, cfg: Config) returns (ok: bool, skipped: nat)
    modifies store
    ensures ok == AllAccepted(Wanted(cfg, ManifestPeers(cfg)))
    ensures ok ==>
      && skipped == Skipped(cfg, ManifestPeers(cfg))
      && store.records == UpsertAll(old(store.records), Wanted(cfg, ManifestPeers(cfg)))
  {
    ghost var cs := ManifestPeers(cfg);
    skipped := 0;
    if cfg.manifest.NoManifest? {
      return true, 0;
    }
    var peers := cfg.manifest.peers;
    for i := 0 to |peers|
      invariant Added(cfg, cs, i, old(store.records), store.records, skipped)
    {
      var c := ListedPeer(cfg, cfg.manifest.signerId, peers[i]);
      ghost var m, before := store.records, skipped;
      if cfg.privateRequired && !IsPrivate(c.transport) {
        AddedPassedOver(cfg, cs, i, old(store.records), m, before);
        skipped := skipped + 1;
      } else {
        ok := UpsertBoth(store, c.records[0], c.records[1]);
        if !ok {
          Raises(cfg, cs, i, c.records[0], c.records[1]);
          return;
        }
        AddedBoth(cfg, cs, i, old(store.records), m, before, c.records[0], c.records[1]);
      }
    }
    assert cs[..|cs|] == cs;
    ok := true;
  }

  method AddAll(store: Store, cfg: Config) returns (ok: bool, skipped: nat)
    modifies store
    ensures ok == AllAccepted(Listed(cfg))
    ensures ok ==>
      skipped == Skipped(cfg, Candidates(cfg)) && store.records == UpsertAll(old(store.records), Listed(cfg))
  {
    ghost var m := store.records;
    ListedInThree(cfg, m);
    hide Operators, Seeds, ManifestPeers, Candidates, Listed, AllAccepted, Wanted, Skipped, UpsertAll;
    skipped := 0;
    var a, b, c: nat;
    ok, a := AddOperators(store, cfg);
    if ok {
      ok, b := AddSeeds(store, cfg);
      if ok {
        ok, c := AddManifest(store, cfg);
        skipped := a + b + c;
      }
    }
  }

  lemma ListedInThree(cfg: Config, m: Records)
    ensures var (a, b, c) := (Wanted(cfg, Operators(cfg)), Wanted(cfg, Seeds(cfg)), Wanted(cfg, ManifestPeers(cfg)));
      && UpsertAll(UpsertAll(UpsertAll(m, a), b), c) == UpsertAll(m, Listed(cfg))
      && (AllAccepted(Listed(cfg)) <==> AllAccepted(a) && AllAccepted(b) && AllAccepted(c))
    ensures Skipped(cfg, Candidates(cfg)) ==
      Skipped(cfg, Operators(cfg)) + Skipped(cfg, Seeds(cfg)) + Skipped(cfg, ManifestPeers(cfg))
  {
    var a, b, c := Wanted(cfg, Operators(cfg)), Wanted(cfg, Seeds(cfg)), Wanted(cfg, ManifestPeers(cfg));
    WantedAppend(cfg, Operators(cfg) + Seeds(cfg), ManifestPeers(cfg));
    WantedAppend(cfg, Operators(cfg), Seeds(cfg));
    UpsertAllAppend(m, a + b, c);
    UpsertAllAppend(m, a, b);
    AcceptedInBoth(a + b, c);
    AcceptedInBoth(a, b);
  }

  lemma AcceptedInBoth(a: seq<Record>, b: seq<Record>)
    ensures AllAccepted(a + b) <==> AllAccepted(a) && AllAccepted(b)
  {
    if AllAccepted(a + b) {
      forall i | 0 <= i < |a|
        ensures Accepted(a[i])
      {
        assert a[i] == (a + b)[i];
      }
      forall i | 0 <= i < |b|
        ensures Accepted(b[i])
      {
        assert b[i] == (a + b)[|a| + i];
      }
    }
  }

  /** What the pull of a swarm manifest came to: `Pulled` has written a new store file, and
      anything else (failed, skipped or raised) leaves the rebuild alone. */
  datatype Swarm = NotPulled | Pulled(file: seq<Record>)

  predicate PullCounts(swarm: Swarm) {
    swarm.Pulled? && AllAccepted(swarm.file)
  }

  /** The store after a pull: reloading the file replaces whatever the rebuild has put into
      the store so far. */
  function Reloaded(m: Records, swarm: Swarm): Records {
    if PullCounts(swarm) then Loaded(swarm.file) else m
  }

  datatype State = Ready | Connecting | Solo

  /** The part of main.py's snapshot that node_state.py does not have. */
  datatype Discovery = Discovery(swarmSyncCount: nat, swarmPushCount: nat, state: State)

  function FromSwarm(m: Records): Records {
    map k | k in m && m[k].source == PeerStore.Swarm :: m[k]
  }

  function DiscoveryOf(cfg: Config, m: Records, swarm: Swarm): Discovery {
    var sync, push := |FromSwarm(Shown(cfg, m, Sync))|, |FromSwarm(Shown(cfg, m, Push))|;
    Discovery(sync, push,
      if PullCounts(swarm) || cfg.manifest.Manifest? || sync > 0 then Ready
      else if cfg.seeds != [] then Connecting
      else Solo)
  }

  /** main.py's rebuild; `ok` is false when making a record raises, and nothing is saved then. */
  method RefreshPruning(entries: seq<Record>, cfg: Config, swarm: Swarm)
    returns (ok: bool, store: Store, snapshot: Snapshot, discovery: Discovery)
    ensures fresh(store) && ok == AllAccepted(Listed(cfg))
    ensures ok ==> store.records == Reloaded(Pruned(cfg, Start(entries)), swarm)
    ensures ok ==>
      var kept := if cfg.privateRequired then PrivatePart(Start(entries)) else Start(entries);
      snapshot == SnapshotOf(cfg, store.records, |Start(entries)| - |kept|)
    ensures ok ==> discovery == DiscoveryOf(cfg, store.records, swarm)
  {
    snapshot, discovery := Snapshot(0, 0, 0, 0, 0, ""), Discovery(0, 0, Solo);
    store := new Store();
    var loaded := store.Load(entries);
    var pruned := 0;
    if cfg.privateRequired {
      pruned := Prune(store);
    }
    var skipped;
    ok, skipped := AddAll(store, cfg);
    if ok {
      var swarmOk := false;
      if swarm.Pulled? {
        swarmOk := store.Load(swarm.file);
      }
      snapshot := Report(store, cfg, skipped, pruned);
      discovery := Discover(store, cfg, swarmOk, swarm);
    }
  }

  method Discover(store: Store, cfg: Config, swarmOk: bool, ghost swarm: Swarm) returns (discovery: Discovery)
    requires swarmOk == PullCounts(swarm)
    ensures discovery == DiscoveryOf(cfg, store.records, swarm)
  {
    var sync, push := store.RecordsForBucket(Sync), store.RecordsForBucket(Push);
    if cfg.privateRequired {
      sync, push := PrivatePart(sync), PrivatePart(push);
    }
    var swarmSync, swarmPush := |FromSwarm(sync)|, |FromSwarm(push)|;
    if swarmOk || cfg.manifest.Manifest? || swarmSync > 0 {
      return Discovery(swarmSync, swarmPush, Ready);
    } else if cfg.seeds != [] {
      return Discovery(swarmSync, swarmPush, Connecting);
    } else {
      return Discovery(swarmSync, swarmPush, Solo);
    }
  }

  /** node_state.py's rebuild. */
  method RefreshFiltering(entries: seq<Record>, cfg: Config) returns (ok: bool, store: Store, snapshot: Snapshot)
    ensures fresh(store) && ok == AllAccepted(Listed(cfg))
    ensures ok ==> store.records == Unpruned(cfg, Start(entries)) && snapshot == SnapshotOf(cfg, store.records, 0)
  {
    snapshot := Snapshot(0, 0, 0, 0, 0, "");
    store := new Store();
    var loaded := store.Load(entries);
    var skipped;
    ok, skipped := AddAll(store, cfg);
    if ok {
      snapshot := Report(store, cfg, skipped, 0);
    }
  }

  method Prune(store: Store) returns (pruned: int)
    modifies store
    ensures store.records == PrivatePart(old(store.records))
    ensures pruned == |old(store.records)| - |store.records|
  {
    var start := store.records;
    var pending := start.Keys;
    pruned := 0;
    while pending != {}
      invariant pending <= start.Keys && pending <= store.records.Keys <= start.Keys
      invariant forall k :: k in store.records ==> store.records[k] == start[k]
      invariant forall k :: k in start && k !in pending ==> (k in store.records <==> IsPrivate(start[k].transport))
      invariant pruned == |start| - |store.records|
    {
      var key :| key in pending;
      if !IsPrivate(store.records[key].transport) {
        RemoveOne(store.records, key);
        store.records := store.records - {key};
        pruned := pruned + 1;
      }
      pending := pending - {key};
    }
    assert store.records == PrivatePart(start);
  }

  method Report(store: Store, cfg: Config, skipped: nat, pruned: int) returns (snapshot: Snapshot)
    requires skipped == Skipped(cfg, Candidates(cfg))
    ensures snapshot == SnapshotOf(cfg, store.records, pruned)
  {
    var error := if cfg.manifest.NoManifest? then cfg.manifest.error else "";
    if cfg.privateRequired && skipped > 0 && error == "" {
      error := PRIVATE_TRANSPORT_ERROR;
    }
    var bootstrap := store.RecordsForBucket(Bootstrap);
    var sync := store.RecordsForBucket(Sync);
    var push := store.RecordsForBucket(Push);
    if cfg.privateRequired {
      bootstrap, sync, push := PrivatePart(bootstrap), PrivatePart(sync), PrivatePart(push);
    }
    snapshot := Snapshot(skipped, pruned, |bootstrap|, |sync|, |push|, error);
  }

  // ---------------------------------------------------------------- the two rebuilds agree

  ghost predicate AllPrivate(rs: seq<Record>) {
    forall i :: 0 <= i < |rs| ==> IsPrivate(rs[i].transport)
  }

  lemma {:induction false} PruneCommutes(m: Records, rs: seq<Record>)
    requires Sound(m) && AllAccepted(rs) && AllPrivate(rs)
    ensures PrivatePart(UpsertAll(m, rs)) == UpsertAll(PrivatePart(m), rs)
  {
    if rs == [] {
    } else {
      var rest, r := rs[..|rs| - 1], rs[|rs| - 1];
      PruneCommutes(m, rest);
      UpsertsStaySound(m, rest);
      PruneCommutesOnce(UpsertAll(m, rest), r);
    }
  }

  lemma PruneCommutesOnce(m: Records, r: Record)
    requires Sound(m) && Accepted(r) && IsPrivate(r.transport)
    ensures PrivatePart(Upserted(m, r)) == Upserted(PrivatePart(m), r)
  {
  }

  /** What every record that a refresh makes is like. */
  ghost predicate Fitting(cfg: Config, r: Record) {
    NoHistory(r) && (cfg.privateRequired ==> IsPrivate(r.transport))
  }

  lemma CandidateRecords(cfg: Config, i: nat, j: nat)
    requires i < |Candidates(cfg)| && !Refused(cfg, Candidates(cfg)[i]) && Candidates(cfg)[i].listed
    requires j < |Candidates(cfg)[i].records|
    ensures Fitting(cfg, Candidates(cfg)[i].records[j])
  {
  }

  lemma {:induction false} WantedRecords(cfg: Config, n: nat, j: nat)
    requires n <= |Candidates(cfg)| && j < |Wanted(cfg, Candidates(cfg)[..n])|
    ensures Fitting(cfg, Wanted(cfg, Candidates(cfg)[..n])[j])
  {
    var cs := Candidates(cfg);
    assert cs[..n][..n - 1] == cs[..n - 1];
    hide Candidates, Fitting;
    var before := |Wanted(cfg, cs[..n - 1])|;
    if j < before {
      WantedRecords(cfg, n - 1, j);
    } else {
      CandidateRecords(cfg, n - 1, j - before);
    }
  }

  lemma ListedRecords(cfg: Config)
    ensures cfg.privateRequired ==> AllPrivate(Listed(cfg))
    ensures forall j :: 0 <= j < |Listed(cfg)| ==> NoHistory(Listed(cfg)[j])
  {
    var cs := Candidates(cfg);
    assert cs[..|cs|] == cs;
    forall j | 0 <= j < |Listed(cfg)|
      ensures Fitting(cfg, Listed(cfg)[j])
    {
      WantedRecords(cfg, |cs|, j);
    }
  }

  /** Where private transport is required, main.py's store is exactly the private part of
      node_state.py's, which in addition keeps every clearnet record as it was loaded. */
  lemma PrunedIsThePrivatePart(cfg: Config, m: Records)
    requires cfg.privateRequired && Sound(m) && AllAccepted(Listed(cfg))
    ensures PrivatePart(Unpruned(cfg, m)) == Pruned(cfg, m) == PrivatePart(Pruned(cfg, m))
    ensures forall k :: k in m && !IsPrivate(m[k].transport) ==> k in Unpruned(cfg, m) && Unpruned(cfg, m)[k] == m[k]
  {
    var rs := Listed(cfg);
    ListedRecords(cfg);
    PruneCommutes(m, rs);
    UpsertedKeys(m, rs);
    forall k | k in m && !IsPrivate(m[k].transport)
      ensures k !in KeysOf(rs)
    {
      if k in KeysOf(rs) {
        var i :| 0 <= i < |rs| && rs[i].RecordKey() == k;
        TransportFollowsUrl(rs[i], m[k]);
        assert false;
      }
    }
  }

  lemma BucketsCommute(m: Records, bucket: Bucket)
    ensures PrivatePart(InBucket(m, bucket)) == PrivatePart(InBucket(PrivatePart(m), bucket))
  {
  }

  /** The two rebuilds show the same records in every bucket, whatever the store held and
      whatever is configured, so their snapshots agree but for the pruned count. */
  lemma RefreshesAgree(cfg: Config, m: Records, pruned: int)
    requires Sound(m) && AllAccepted(Listed(cfg))
    ensures forall bucket :: Shown(cfg, Pruned(cfg, m), bucket) == Shown(cfg, Unpruned(cfg, m), bucket)
    ensures SnapshotOf(cfg, Pruned(cfg, m), pruned) == SnapshotOf(cfg, Unpruned(cfg, m), 0).(pruned := pruned)
  {
    hide PrivatePart, InBucket, UpsertAll, Sound, Candidates;
    if cfg.privateRequired {
      PrunedIsThePrivatePart(cfg, m);
      hide Pruned, Unpruned;
      forall bucket
        ensures Shown(cfg, Pruned(cfg, m), bucket) == Shown(cfg, Unpruned(cfg, m), bucket)
      {
        BucketsCommute(Unpruned(cfg, m), bucket);
      }
    }
  }

  // ---------------------------------------------------------------- repeating a rebuild

  /** A rebuild is idempotent, and rebuilding with main.py after node_state.py leaves what
      main.py alone would have left. */
  lemma RebuildTwice(cfg: Config, m: Records)
    requires Sound(m) && AllAccepted(Listed(cfg))
    ensures Pruned(cfg, Pruned(cfg, m)) == Pruned(cfg, m)
    ensures Unpruned(cfg, Unpruned(cfg, m)) == Unpruned(cfg, m)
    ensures Pruned(cfg, Unpruned(cfg, m)) == Pruned(cfg, m)
  {
    ListedRecords(cfg);
    UpsertAllTwice(m, Listed(cfg));
    if cfg.privateRequired {
      UpsertAllTwice(PrivatePart(m), Listed(cfg));
      PrunedIsThePrivatePart(cfg, m);
    }
  }

  // ---------------------------------------------------------------- when a rebuild raises

  /** A manifest peer as the manifest loader lets it through. */
  predicate ValidManifestPeer(p: ManifestPeer) {
    match p.transport
    case Clearnet => p.url.scheme == "https" && !IsOnionHost(p.url.host)
    case Onion => p.url.scheme == "http" && IsOnionHost(p.url.host)
    case _ => false
  }

  predicate IsHttpsOnion(url: Url) {
    url.scheme == "https" && IsOnionHost(url.host)
  }

  lemma {:induction false} WantedAccepted(cfg: Config, cs: seq<Candidate>)
    ensures AllAccepted(Wanted(cfg, cs)) <==>
      forall i :: 0 <= i < |cs| && cs[i].listed && !Refused(cfg, cs[i]) ==> AllAccepted(cs[i].records)
  {
    if cs == [] {
    } else {
      var n := |cs| - 1;
      WantedAccepted(cfg, cs[..n]);
      AcceptedInBoth(Wanted(cfg, cs[..n]), if cs[n].listed && !Refused(cfg, cs[n]) then cs[n].records else []);
      assert forall i :: 0 <= i < n ==> cs[..n][i] == cs[i];
    }
  }

  ghost predicate ManifestValid(cfg: Config) {
    cfg.manifest.Manifest? ==> forall j :: 0 <= j < |cfg.manifest.peers| ==> ValidManifestPeer(cfg.manifest.peers[j])
  }

  /** Candidate `i` comes from a configured `https://` address of an `.onion` host. */
  predicate FromHttpsOnion(cfg: Config, i: nat) {
    i < |cfg.operators| + |cfg.seeds| && IsHttpsOnion((cfg.operators + cfg.seeds)[i])
  }

  lemma ConsideredAccepted(cfg: Config, i: nat)
    requires i < |Candidates(cfg)| && ManifestValid(cfg)
    requires Candidates(cfg)[i].listed && !Refused(cfg, Candidates(cfg)[i])
    ensures AllAccepted(Candidates(cfg)[i].records) <==> !FromHttpsOnion(cfg, i)
    ensures cfg.privateRequired ==> !FromHttpsOnion(cfg, i)
  {
    var c := Candidates(cfg)[i];
    assert AllAccepted(c.records) <==> Accepted(c.records[0]) && Accepted(c.records[1]);
    if i < |cfg.operators| {
      assert c == OperatorPeer(cfg, cfg.operators[i]);
    } else if i < |cfg.operators| + |cfg.seeds| {
      assert c == SeedPeer(cfg, cfg.seeds[i - |cfg.operators|]);
    } else {
      assert c == ListedPeer(cfg, cfg.manifest.signerId, cfg.manifest.peers[i - |cfg.operators| - |cfg.seeds|]);
    }
  }

  /** Whether `url` is configured, as an operator peer or as a seed. */
  predicate Configured(cfg: Config, url: Url) {
    url in cfg.operators || url in cfg.seeds
  }

  /** With a valid manifest a rebuild raises exactly when clearnet peers are allowed and some
      configured URL is an `https://` address of an `.onion` host: `peer_transport_kind` calls
      that clearnet, and making the record then refuses it. */
  lemma RebuildRaisesExactlyWhen(cfg: Config)
    requires ManifestValid(cfg)
    ensures AllAccepted(Listed(cfg)) <==>
      cfg.privateRequired || forall url :: Configured(cfg, url) ==> !IsHttpsOnion(url)
  {
    var cs := Candidates(cfg);
    WantedAccepted(cfg, cs);
    hide Candidates, Wanted, AllAccepted, IsHttpsOnion;
    forall i | 0 <= i < |cs| && cs[i].listed && !Refused(cfg, cs[i])
      ensures AllAccepted(cs[i].records) <==> !FromHttpsOnion(cfg, i)
      ensures cfg.privateRequired ==> !FromHttpsOnion(cfg, i)
      ensures i < |cfg.operators| + |cfg.seeds| ==> Configured(cfg, (cfg.operators + cfg.seeds)[i])
    {
      ConsideredAccepted(cfg, i);
    }
    forall url | !cfg.privateRequired && AllAccepted(Listed(cfg)) && Configured(cfg, url)
      ensures !IsHttpsOnion(url)
    {
      var i := IndexOfUrl(cfg, url);
      assert FromHttpsOnion(cfg, i) <==> IsHttpsOnion(url);
    }
  }

  /** The candidate that decides about a configured URL. */
  lemma IndexOfUrl(cfg: Config, url: Url) returns (i: nat)
    requires Configured(cfg, url)
    ensures i < |cfg.operators| + |cfg.seeds| <= |Candidates(cfg)| && (cfg.operators + cfg.seeds)[i] == url
    ensures IsHttpsOnion(url) ==>
      Candidates(cfg)[i].listed && (!cfg.privateRequired ==> !Refused(cfg, Candidates(cfg)[i]))
  {
    var j: nat;
    if url in cfg.operators {
      j :| j < |cfg.operators| && cfg.operators[j] == url;
      i := j;
      assert Candidates(cfg)[i] == OperatorPeer(cfg, url);
    } else {
      j :| j < |cfg.seeds| && cfg.seeds[j] == url;
      i := |cfg.operators| + j;
      assert Candidates(cfg)[i] == SeedPeer(cfg, url);
    }
    hide Candidates, Operators, Seeds, ManifestPeers, Made;
    assert TransportKind(url) != NoTransport || !IsHttpsOnion(url);
  }

  // ---------------------------------------------------------------- backoff

  /** The listing of a URL as a seed that lets it start over. */
  ghost predicate Restarted(rs: seq<Record>, k: Key) {
    exists i :: 0 <= i < |rs| && rs[i].RecordKey() == k && ClearsBackoff(rs[i])
  }

  /** What a rebuild does to a peer's backoff: a sync peer listed as a seed starts over, and
      every other peer keeps its failures and its cooldown. */
  lemma {:induction false} BackoffAfter(m: Records, rs: seq<Record>, k: Key)
    requires k in m && m[k].failureCount >= 0 && m[k].cooldownUntil >= 0
    requires forall j :: 0 <= j < |rs| ==> NoHistory(rs[j])
    ensures k in UpsertAll(m, rs)
    ensures var r := UpsertAll(m, rs)[k];
      if Restarted(rs, k) then (r.lastError, r.failureCount, r.cooldownUntil) == ("", 0, 0)
      else (r.lastError, r.failureCount, r.cooldownUntil) == (m[k].lastError, m[k].failureCount, m[k].cooldownUntil)
  {
    if rs == [] {
    } else {
      var n := |rs| - 1;
      BackoffAfter(m, rs[..n], k);
      assert Restarted(rs, k) <==> Restarted(rs[..n], k) || (rs[n].RecordKey() == k && ClearsBackoff(rs[n])) by {
        if Restarted(rs[..n], k) {
          var i :| 0 <= i < n && rs[..n][i].RecordKey() == k && ClearsBackoff(rs[..n][i]);
          assert rs[i] == rs[..n][i];
        }
        if Restarted(rs, k) {
          var i :| 0 <= i < |rs| && rs[i].RecordKey() == k && ClearsBackoff(rs[i]);
          assert i < n ==> rs[..n][i] == rs[i];
        }
      }
    }
  }

  // ---------------------------------------------------------------- the peers shown

  ghost predicate Lists(cfg: Config, c: Candidate, k: Key) {
    c.listed && !Refused(cfg, c) && k in KeysOf(c.records)
  }

  lemma {:induction false} KeysOfWanted(cfg: Config, cs: seq<Candidate>, k: Key)
    ensures k in KeysOf(Wanted(cfg, cs)) <==> exists i :: 0 <= i < |cs| && Lists(cfg, cs[i], k)
  {
    if cs == [] {
    } else {
      var n := |cs| - 1;
      KeysOfWanted(cfg, cs[..n], k);
      var more := if cs[n].listed && !Refused(cfg, cs[n]) then cs[n].records else [];
      KeysOfBoth(Wanted(cfg, cs[..n]), more);
      assert forall i :: 0 <= i < n ==> cs[..n][i] == cs[i];
      if exists i :: 0 <= i < |cs| && Lists(cfg, cs[i], k) {
        var i :| 0 <= i < |cs| && Lists(cfg, cs[i], k);
        assert i < n ==> Lists(cfg, cs[..n][i], k);
      }
      if exists i :: 0 <= i < n && Lists(cfg, cs[..n][i], k) {
        var i :| 0 <= i < n && Lists(cfg, cs[..n][i], k);
        assert Lists(cfg, cs[i], k);
      }
    }
  }

  lemma {:induction false} KeysOfBoth(a: seq<Record>, b: seq<Record>)
    ensures KeysOf(a + b) == KeysOf(a) + KeysOf(b)
  {
    if b == [] {
      assert a + b == a;
    } else {
      var n := |b| - 1;
      KeysOfBoth(a, b[..n]);
      KeysOfOneMore(a + b[..n], b[n]);
      KeysOfOneMore(b[..n], b[n]);
      assert a + b == a + b[..n] + [b[n]] && b == b[..n] + [b[n]];
    }
  }

  predicate Usable(cfg: Config, t: Transport) {
    t != NoTransport && (cfg.privateRequired ==> IsPrivate(t))
  }

  predicate InManifest(cfg: Config, url: Url) {
    cfg.manifest.Manifest? &&
    var peers := cfg.manifest.peers;
    exists j :: 0 <= j < |peers| && peers[j].url == url && (cfg.privateRequired ==> IsPrivate(peers[j].transport))
  }

  /** Who configures the record with key `k`. */
  predicate Contributes(cfg: Config, k: Key) {
    var operator, usable := k.url in cfg.operators, Usable(cfg, TransportKind(k.url));
    match k.bucket
    case Push => operator && usable
    case Sync => ((operator || k.url in cfg.seeds) && usable) || InManifest(cfg, k.url)
    case Bootstrap => (!operator && k.url in cfg.seeds && usable) || InManifest(cfg, k.url)
  }

  lemma ContributesAsListed(cfg: Config, k: Key)
    ensures Contributes(cfg, k) <==> exists i :: 0 <= i < |Candidates(cfg)| && Lists(cfg, Candidates(cfg)[i], k)
  {
    forall i | 0 <= i < |Candidates(cfg)| && Lists(cfg, Candidates(cfg)[i], k)
      ensures Contributes(cfg, k)
    {
      ListsContributes(cfg, i, k);
    }
    if Contributes(cfg, k) {
      var i := ContributorOf(cfg, k);
    }
  }

  lemma ListsContributes(cfg: Config, i: nat, k: Key)
    requires i < |Candidates(cfg)| && Lists(cfg, Candidates(cfg)[i], k)
    ensures Contributes(cfg, k)
  {
  }

  lemma ContributorOf(cfg: Config, k: Key) returns (i: nat)
    requires Contributes(cfg, k)
    ensures i < |Candidates(cfg)| && Lists(cfg, Candidates(cfg)[i], k)
  {
    var usable := Usable(cfg, TransportKind(k.url));
    if k.bucket != Bootstrap && k.url in cfg.operators && usable {
      i :| i < |cfg.operators| && cfg.operators[i] == k.url;
      assert Candidates(cfg)[i] == OperatorPeer(cfg, k.url);
      PairKeys(Candidates(cfg)[i].records, k);
    } else if k.bucket != Push && k.url !in cfg.operators && k.url in cfg.seeds && usable {
      var j: nat :| j < |cfg.seeds| && cfg.seeds[j] == k.url;
      i := |cfg.operators| + j;
      assert Candidates(cfg)[i] == SeedPeer(cfg, k.url);
      PairKeys(Candidates(cfg)[i].records, k);
    } else {
      i := ManifestContributor(cfg, k);
    }
  }

  lemma ManifestContributor(cfg: Config, k: Key) returns (i: nat)
    requires InManifest(cfg, k.url) && k.bucket != Push
    ensures i < |Candidates(cfg)| && Lists(cfg, Candidates(cfg)[i], k)
  {
    var peers := cfg.manifest.peers;
    var j: nat :| j < |peers| && peers[j].url == k.url && (cfg.privateRequired ==> IsPrivate(peers[j].transport));
    i := |cfg.operators| + |cfg.seeds| + j;
    assert Candidates(cfg)[i] == ListedPeer(cfg, cfg.manifest.signerId, peers[j]);
    PairKeys(Candidates(cfg)[i].records, k);
  }

  lemma PairKeys(rs: seq<Record>, k: Key)
    requires |rs| == 2 && (rs[0].RecordKey() == k || rs[1].RecordKey() == k)
    ensures k in KeysOf(rs)
  {
  }

  /** The peers a rebuild shows: those already stored on an acceptable transport and those
      that the operator, the seeds or the manifest contribute, and nobody else. */
  lemma PeersShown(cfg: Config, m: Records, k: Key)
    requires Sound(m) && AllAccepted(Listed(cfg))
    ensures k in Shown(cfg, Unpruned(cfg, m), k.bucket) <==>
      (k in m && (cfg.privateRequired ==> IsPrivate(m[k].transport))) || Contributes(cfg, k)
  {
    RefreshesAgree(cfg, m, 0);
    ContributesAsListed(cfg, k);
    KeysOfWanted(cfg, Candidates(cfg), k);
    UpsertedKeys(if cfg.privateRequired then PrivatePart(m) else m, Listed(cfg));
    hide Contributes, Candidates, KeysOf, UpsertAll;
    if cfg.privateRequired {
      PrunedIsThePrivatePart(cfg, m);
      assert k in Pruned(cfg, m) ==> k in PrivatePart(Pruned(cfg, m));
    }
  }

  /** The peers that main.py's rebuild shows in the end: after a swarm pull those of the
      pulled file alone, whatever the rebuild contributed. */
  lemma PeersShownAfterPull(cfg: Config, m: Records, swarm: Swarm, k: Key)
    requires Sound(m) && AllAccepted(Listed(cfg))
    ensures k in Shown(cfg, Reloaded(Pruned(cfg, m), swarm), k.bucket) <==>
      if PullCounts(swarm)
      then k in Loaded(swarm.file) && (cfg.privateRequired ==> IsPrivate(Loaded(swarm.file)[k].transport))
      else (k in m && (cfg.privateRequired ==> IsPrivate(m[k].transport))) || Contributes(cfg, k)
  {
    if !PullCounts(swarm) {
      RefreshesAgree(cfg, m, 0);
      PeersShown(cfg, m, k);
    }
  }
}
