/** What a rebuild of the peer store does to each record, told by the configuration: the
    records that operator, seeds and manifest list, and what becomes of a stored peer. */
module PeerListing {
  import opened PeerStore
  import opened PeerRefresh

  // ---------------------------------------------------------------- what is listed

  lemma TransportKindInFields(url: Url)
    ensures var onion := |url.host| >= 6 && url.host[|url.host| - 6..] == ".onion";
      && (url.scheme == "http" && onion ==> TransportKind(url) == Onion)
      && (url.scheme == "http" && !onion && url.host != "" ==> TransportKind(url) == Clearnet)
      && (url.scheme == "https" && url.host != "" ==> TransportKind(url) == Clearnet)
      && (url.scheme != "http" && url.scheme != "https" ==> TransportKind(url) == NoTransport)
      && (url.host == "" ==> TransportKind(url) == NoTransport)
  {
  }

  /** A record as a rebuild makes it: enabled, dated now, and without any history. */
  ghost predicate JustMade(cfg: Config, r: Record) {
    && r.enabled && r.addedAt == cfg.now && r.updatedAt == cfg.now
    && r.lastSeenAt == 0 && r.lastSyncOkAt == 0 && r.lastPushOkAt == 0
    && r.lastError == "" && r.failureCount == 0 && r.cooldownUntil == 0 && r.metadata == map[]
  }

  /** The peer may be used: its transport is known, and private where that is required. */
  ghost predicate MayUse(cfg: Config, t: Transport) {
    t != NoTransport && (cfg.privateRequired ==> t == Onion || t == Rns)
  }

  /** An operator peer is listed for sync and for push, as a relay. */
  ghost predicate ByOperator(cfg: Config, r: Record) {
    && r.url in cfg.operators && r.transport == TransportKind(r.url) && MayUse(cfg, r.transport)
    && (r.bucket == Sync || r.bucket == Push) && r.source == Operator && r.role == Relay
    && r.name == "" && r.signerId == "" && JustMade(cfg, r)
  }

  /** A seed that is no operator peer is listed for bootstrap and for sync. */
  ghost predicate BySeed(cfg: Config, r: Record) {
    && r.url in cfg.seeds && r.url !in cfg.operators && r.transport == TransportKind(r.url) && MayUse(cfg, r.transport)
    && (r.bucket == Bootstrap || r.bucket == Sync) && r.source == Bundle && r.role == Seed
    && r.name == "Vincent OS bootstrap seed" && r.signerId == "vincent_os-bootstrap" && JustMade(cfg, r)
  }

  /** A manifest peer is listed for bootstrap and, as promoted, for sync, with its own role. */
  ghost predicate ByManifestPeer(cfg: Config, j: nat, r: Record) {
    && cfg.manifest.Manifest? && j < |cfg.manifest.peers|
    && var p := cfg.manifest.peers[j];
    && (cfg.privateRequired ==> p.transport == Onion || p.transport == Rns)
    && ((r.bucket == Bootstrap && r.source == Bundle) || (r.bucket == Sync && r.source == BootstrapPromoted))
    && r.url == p.url && r.transport == p.transport && r.role == p.role && r.name == p.name
    && r.signerId == cfg.manifest.signerId && JustMade(cfg, r)
  }

  ghost predicate ByManifest(cfg: Config, r: Record) {
    exists j: nat :: ByManifestPeer(cfg, j, r)
  }

  /** Candidate `i` is taken and gives the record. */
  ghost predicate Gives(cfg: Config, cs: seq<Candidate>, i: nat, r: Record) {
    i < |cs| && cs[i].listed && !Refused(cfg, cs[i]) && r in cs[i].records
  }

  lemma {:induction false} InWanted(cfg: Config, cs: seq<Candidate>, r: Record)
    ensures r in Wanted(cfg, cs) <==> exists i: nat :: Gives(cfg, cs, i, r)
  {
    if cs == [] {
      assert Wanted(cfg, cs) == [];
    } else {
      var n := |cs| - 1;
      InWanted(cfg, cs[..n], r);
      assert forall i: nat :: i < n ==> (Gives(cfg, cs[..n], i, r) <==> Gives(cfg, cs, i, r));
      assert r in Wanted(cfg, cs) <==> r in Wanted(cfg, cs[..n]) || Gives(cfg, cs, n, r);
      if i: nat :| Gives(cfg, cs, i, r) {
        assert i < n ==> Gives(cfg, cs[..n], i, r);
      }
    }
  }

  lemma OperatorsGive(cfg: Config, r: Record)
    ensures r in Wanted(cfg, Operators(cfg)) <==> ByOperator(cfg, r)
  {
    InWanted(cfg, Operators(cfg), r);
    if ByOperator(cfg, r) {
      var i: nat :| i < |cfg.operators| && cfg.operators[i] == r.url;
      assert Operators(cfg)[i] == OperatorPeer(cfg, r.url);
      assert r == OperatorPeer(cfg, r.url).records[0] || r == OperatorPeer(cfg, r.url).records[1];
      assert Gives(cfg, Operators(cfg), i, r);
    }
    if i: nat :| Gives(cfg, Operators(cfg), i, r) {
      assert Operators(cfg)[i] == OperatorPeer(cfg, cfg.operators[i]);
    }
  }

  lemma SeedsGive(cfg: Config, r: Record)
    ensures r in Wanted(cfg, Seeds(cfg)) <==> BySeed(cfg, r)
  {
    InWanted(cfg, Seeds(cfg), r);
    if BySeed(cfg, r) {
      var i: nat :| i < |cfg.seeds| && cfg.seeds[i] == r.url;
      assert Seeds(cfg)[i] == SeedPeer(cfg, r.url);
      assert r == SeedPeer(cfg, r.url).records[0] || r == SeedPeer(cfg, r.url).records[1];
      assert Gives(cfg, Seeds(cfg), i, r);
    }
    if i: nat :| Gives(cfg, Seeds(cfg), i, r) {
      assert Seeds(cfg)[i] == SeedPeer(cfg, cfg.seeds[i]);
    }
  }

  lemma ManifestGives(cfg: Config, r: Record)
    ensures r in Wanted(cfg, ManifestPeers(cfg)) <==> ByManifest(cfg, r)
  {
    InWanted(cfg, ManifestPeers(cfg), r);
    if j: nat :| ByManifestPeer(cfg, j, r) {
      var c := ListedPeer(cfg, cfg.manifest.signerId, cfg.manifest.peers[j]);
      assert ManifestPeers(cfg)[j] == c;
      assert r == c.records[0] || r == c.records[1];
      assert Gives(cfg, ManifestPeers(cfg), j, r);
    }
    if i: nat :| Gives(cfg, ManifestPeers(cfg), i, r) {
      assert ManifestPeers(cfg)[i] == ListedPeer(cfg, cfg.manifest.signerId, cfg.manifest.peers[i]);
      assert ByManifestPeer(cfg, i, r);
    }
  }

  /** Exactly what a rebuild lists, field by field. */
  lemma ListedExactly(cfg: Config, r: Record)
    ensures r in Listed(cfg) <==> ByOperator(cfg, r) || BySeed(cfg, r) || ByManifest(cfg, r)
  {
    OperatorsGive(cfg, r);
    SeedsGive(cfg, r);
    ManifestGives(cfg, r);
    ListedInOrder(cfg);
  }

  /** The manifest comes last and the operator first. */
  lemma ListedInOrder(cfg: Config)
    ensures Listed(cfg) == Wanted(cfg, Operators(cfg)) + Wanted(cfg, Seeds(cfg)) + Wanted(cfg, ManifestPeers(cfg))
  {
    WantedAppend(cfg, Operators(cfg) + Seeds(cfg), ManifestPeers(cfg));
    WantedAppend(cfg, Operators(cfg), Seeds(cfg));
  }

  // ---------------------------------------------------------------- backoff by configuration

  /** A usable configured seed that is no operator peer. */
  ghost predicate UsableSeed(cfg: Config, url: Url) {
    url in cfg.seeds && url !in cfg.operators && MayUse(cfg, TransportKind(url))
  }

  /** An admitted manifest peer of role seed. */
  ghost predicate ManifestSeed(cfg: Config, url: Url) {
    exists j: nat :: ManifestSeedAt(cfg, j, url)
  }

  ghost predicate ManifestSeedAt(cfg: Config, j: nat, url: Url) {
    && cfg.manifest.Manifest? && j < |cfg.manifest.peers|
    && var p := cfg.manifest.peers[j];
    p.url == url && p.role == Seed && (cfg.privateRequired ==> p.transport == Onion || p.transport == Rns)
  }

  lemma RestartedByConfiguration(cfg: Config, k: Key)
    ensures Restarted(Listed(cfg), k) <==> k.bucket == Sync && (UsableSeed(cfg, k.url) || ManifestSeed(cfg, k.url))
  {
    var rs := Listed(cfg);
    if k.bucket == Sync && UsableSeed(cfg, k.url) {
      var r := Made(cfg, Sync, Bundle, k.url, TransportKind(k.url), Seed, SEED_NAME, SEED_SIGNER);
      ListedExactly(cfg, r);
      var i :| 0 <= i < |rs| && rs[i] == r;
    }
    if k.bucket == Sync && ManifestSeed(cfg, k.url) {
      var j: nat :| ManifestSeedAt(cfg, j, k.url);
      var p := cfg.manifest.peers[j];
      var r := Made(cfg, Sync, BootstrapPromoted, p.url, p.transport, p.role, p.name, cfg.manifest.signerId);
      assert ByManifestPeer(cfg, j, r);
      ListedExactly(cfg, r);
      var i :| 0 <= i < |rs| && rs[i] == r;
    }
    if Restarted(rs, k) {
      var i :| 0 <= i < |rs| && rs[i].RecordKey() == k && ClearsBackoff(rs[i]);
      ListedExactly(cfg, rs[i]);
      SeedsOfManifest(cfg, rs[i]);
    }
  }

  lemma SeedsOfManifest(cfg: Config, r: Record)
    ensures ByManifest(cfg, r) && r.role == Seed ==> ManifestSeed(cfg, r.url)
  {
    if j: nat :| ByManifestPeer(cfg, j, r) && r.role == Seed {
      assert ManifestSeedAt(cfg, j, r.url);
    }
  }

  function Backoff(r: Record): (string, int, int) {
    (r.lastError, r.failureCount, r.cooldownUntil)
  }

  /** What a rebuild does to the backoff of a stored peer, in either version: a sync peer that
      is a usable configured seed and no operator peer, or an admitted manifest peer of role
      seed, starts over; every other keeps its error, its failures and its cooldown. */
  lemma BackoffByConfiguration(cfg: Config, m: Records, k: Key)
    requires k in m && m[k].failureCount >= 0 && m[k].cooldownUntil >= 0
    ensures var startsOver := k.bucket == Sync && (UsableSeed(cfg, k.url) || ManifestSeed(cfg, k.url));
      var backoff := if startsOver then ("", 0, 0) else Backoff(m[k]);
      && k in Unpruned(cfg, m) && Backoff(Unpruned(cfg, m)[k]) == backoff
      && ((cfg.privateRequired ==> m[k].transport == Onion || m[k].transport == Rns) ==>
            k in Pruned(cfg, m) && Backoff(Pruned(cfg, m)[k]) == backoff)
  {
    ListedRecords(cfg);
    RestartedByConfiguration(cfg, k);
    BackoffAfter(m, Listed(cfg), k);
    hide UsableSeed, ManifestSeed, Listed, UpsertAll, Restarted;
    if cfg.privateRequired {
      if m[k].transport == Onion || m[k].transport == Rns {
        BackoffAfter(PrivatePart(m), Listed(cfg), k);
      }
    }
  }

  // ---------------------------------------------------------------- history and identity

  /** What a rebuild does to the history of a peer: the first date and all past successes and
      notes stay, the update date moves up to now if the peer is listed. A peer that was not
      stored starts now, without history. */
  lemma {:induction false} HistoryAfter(cfg: Config, m: Records, rs: seq<Record>, k: Key)
    requires (forall j :: 0 <= j < |rs| ==> JustMade(cfg, rs[j])) && k in UpsertAll(m, rs)
    requires k in m ==> m[k].lastSeenAt >= 0 && m[k].lastSyncOkAt >= 0 && m[k].lastPushOkAt >= 0
    ensures k in m ==> KeepsHistory(cfg, m[k], UpsertAll(m, rs)[k], k in KeysOf(rs))
    ensures k !in m ==> JustMade(cfg, UpsertAll(m, rs)[k])
  {
    if rs == [] {
      assert UpsertAll(m, rs) == m;
    } else {
      var n := |rs| - 1;
      var before := UpsertAll(m, rs[..n]);
      KeysOfOneMore(rs[..n], rs[n]);
      assert rs == rs[..n] + [rs[n]];
      UpsertedKeys(m, rs[..n]);
      if k in before {
        HistoryAfter(cfg, m, rs[..n], k);
        MergeHistory(cfg, before[k], rs[n]);
      }
      hide KeysOf, Merge, JustMade, KeepsHistory;
      if k in before && k in m {
        HistoryGoesOn(cfg, m[k], before[k], rs[n], k in KeysOf(rs[..n]));
      }
    }
  }

  /** `r` is what became of `was`, by at least one listing if `listed`. */
  ghost predicate KeepsHistory(cfg: Config, was: Record, r: Record, listed: bool) {
    && (r.lastSeenAt, r.lastSyncOkAt, r.lastPushOkAt) == (was.lastSeenAt, was.lastSyncOkAt, was.lastPushOkAt)
    && r.metadata == was.metadata
    && (was.addedAt != 0 ==> r.addedAt == was.addedAt)
    && r.updatedAt == (if listed && was.updatedAt < cfg.now then cfg.now else was.updatedAt)
  }

  lemma MergeHistory(cfg: Config, was: Record, r: Record)
    requires JustMade(cfg, r)
    ensures JustMade(cfg, was) ==> JustMade(cfg, Merge(was, r))
    ensures was.lastSeenAt >= 0 && was.lastSyncOkAt >= 0 && was.lastPushOkAt >= 0 ==>
      KeepsHistory(cfg, was, Merge(was, r), true)
  {
    assert was.metadata + r.metadata == was.metadata;
  }

  lemma HistoryGoesOn(cfg: Config, first: Record, was: Record, r: Record, listed: bool)
    requires KeepsHistory(cfg, first, was, listed) && JustMade(cfg, r)
    requires first.lastSeenAt >= 0 && first.lastSyncOkAt >= 0 && first.lastPushOkAt >= 0
    ensures KeepsHistory(cfg, first, Merge(was, r), true)
  {
    MergeHistory(cfg, was, r);
  }

  /** The last listing of a peer decides who it is; a name or a signer that it leaves out is
      kept from before. */
  lemma {:induction false} LastListingDecides(m: Records, rs: seq<Record>, i: nat)
    requires i < |rs| && forall j :: i < j < |rs| ==> rs[j].RecordKey() != rs[i].RecordKey()
    ensures var k := rs[i].RecordKey();
      var before := UpsertAll(m, rs[..i]);
      && k in UpsertAll(m, rs)
      && var r := UpsertAll(m, rs)[k];
      && (r.bucket, r.source, r.url, r.transport, r.role, r.enabled)
           == (rs[i].bucket, rs[i].source, rs[i].url, rs[i].transport, rs[i].role, rs[i].enabled)
      && r.name == (if rs[i].name == "" && k in before then before[k].name else rs[i].name)
      && r.signerId == (if rs[i].signerId == "" && k in before then before[k].signerId else rs[i].signerId)
  {
    var n := |rs| - 1;
    if i == n {
      assert UpsertAll(m, rs) == Upserted(UpsertAll(m, rs[..n]), rs[n]);
    } else {
      LastListingDecides(m, rs[..n], i);
      assert rs[..n][..i] == rs[..i];
      assert rs[..n][i] == rs[i];
    }
  }

  lemma {:induction false} LastListing(rs: seq<Record>, k: Key) returns (i: nat)
    requires k in KeysOf(rs)
    ensures i < |rs| && rs[i].RecordKey() == k && forall j :: i < j < |rs| ==> rs[j].RecordKey() != k
  {
    var n := |rs| - 1;
    if rs[n].RecordKey() == k {
      i := n;
    } else {
      assert rs == rs[..n] + [rs[n]];
      KeysOfOneMore(rs[..n], rs[n]);
      i := LastListing(rs[..n], k);
    }
  }

  /** Who a listed sync peer is in the end: promoted by the manifest if that lists it, else a
      seed, else an operator's relay. */
  lemma SyncPeerByConfiguration(cfg: Config, m: Records, url: Url)
    requires Key(Sync, url) in KeysOf(Listed(cfg))
    ensures Key(Sync, url) in UpsertAll(m, Listed(cfg))
    ensures var r := UpsertAll(m, Listed(cfg))[Key(Sync, url)];
      if InManifest(cfg, url) then r.source == BootstrapPromoted && r.signerId == (
             if cfg.manifest.signerId != "" then cfg.manifest.signerId else r.signerId)
      else if url in cfg.operators then r.source == Operator && r.role == Relay
      else r.source == Bundle && r.role == Seed && r.name == "Vincent OS bootstrap seed"
  {
    var rs, k := Listed(cfg), Key(Sync, url);
    var i := LastListing(rs, k);
    LastListingDecides(m, rs, i);
    ListedExactly(cfg, rs[i]);
    if InManifest(cfg, url) {
      ManifestIsLast(cfg, url, i);
    } else {
      ManifestRecordsAreInManifest(cfg, rs[i]);
    }
  }

  lemma ManifestRecordsAreInManifest(cfg: Config, r: Record)
    ensures ByManifest(cfg, r) ==> InManifest(cfg, r.url)
  {
  }

  lemma ManifestIsLast(cfg: Config, url: Url, i: nat)
    requires InManifest(cfg, url) && i < |Listed(cfg)| && Listed(cfg)[i].RecordKey() == Key(Sync, url)
    requires forall j :: i < j < |Listed(cfg)| ==> Listed(cfg)[j].RecordKey() != Key(Sync, url)
    ensures ByManifest(cfg, Listed(cfg)[i])
  {
    var peers := cfg.manifest.peers;
    var j: nat :| j < |peers| && peers[j].url == url && (cfg.privateRequired ==> IsPrivate(peers[j].transport));
    var p := peers[j];
    var r := Made(cfg, Sync, BootstrapPromoted, url, p.transport, p.role, p.name, cfg.manifest.signerId);
    assert ByManifestPeer(cfg, j, r);
    ManifestGives(cfg, r);
    ListedInOrder(cfg);
    var early, late := Wanted(cfg, Operators(cfg)) + Wanted(cfg, Seeds(cfg)), Wanted(cfg, ManifestPeers(cfg));
    var t :| 0 <= t < |late| && late[t] == r;
    assert Listed(cfg)[|early| + t] == r;
    assert Listed(cfg)[i] == late[i - |early|];
    ManifestGives(cfg, Listed(cfg)[i]);
  }

  // ---------------------------------------------------------------- the counts

  ghost function OnClearnet(cs: seq<Candidate>): set<int> {
    set i | 0 <= i < |cs| && cs[i].listed && cs[i].transport != Onion && cs[i].transport != Rns
  }

  /** The peers that a rebuild skips: those configured on the clearnet where private transport
      is required. */
  lemma {:induction false} SkippedExactly(cfg: Config, cs: seq<Candidate>)
    ensures Skipped(cfg, cs) == if cfg.privateRequired then |OnClearnet(cs)| else 0
  {
    if cs == [] {
      assert OnClearnet(cs) == {};
    } else {
      var n := |cs| - 1;
      SkippedExactly(cfg, cs[..n]);
      assert OnClearnet(cs) ==
        OnClearnet(cs[..n]) + if cs[n].listed && cs[n].transport != Onion && cs[n].transport != Rns then {n} else {};
    }
  }

  /** The error of the snapshot: that of the manifest, or else the complaint about clearnet
      peers exactly when one was skipped. */
  lemma ErrorExactlyWhen(cfg: Config)
    ensures cfg.manifest.NoManifest? && cfg.manifest.error != "" ==> BootstrapError(cfg) == cfg.manifest.error
    ensures cfg.manifest.Manifest? || cfg.manifest.error == "" ==>
      BootstrapError(cfg) == if cfg.privateRequired && OnClearnet(Candidates(cfg)) != {} then
        "private Infonet requires onion/RNS transport; no clearnet sync fallback" else ""
  {
    SkippedExactly(cfg, Candidates(cfg));
    hide Candidates, Skipped, OnClearnet;
    assert |OnClearnet(Candidates(cfg))| == 0 <==> OnClearnet(Candidates(cfg)) == {};
  }

  /** The keys of a bucket that are shown: all, or those on private transport. */
  ghost function ShownKeys(cfg: Config, m: Records, bucket: Bucket): set<Key> {
    set k | k in m && k.bucket == bucket && (cfg.privateRequired ==> m[k].transport == Onion || m[k].transport == Rns)
  }

  lemma SnapshotInNumbers(cfg: Config, m: Records, pruned: int)
    ensures var s := SnapshotOf(cfg, m, pruned);
      && s.bootstrapCount == |ShownKeys(cfg, m, Bootstrap)|
      && s.syncCount == |ShownKeys(cfg, m, Sync)|
      && s.pushCount == |ShownKeys(cfg, m, Push)|
      && s.skipped == (if cfg.privateRequired then |OnClearnet(Candidates(cfg))| else 0)
  {
    SkippedExactly(cfg, Candidates(cfg));
    hide Candidates, Skipped, OnClearnet, BootstrapError;
    forall bucket
      ensures |Shown(cfg, m, bucket)| == |ShownKeys(cfg, m, bucket)|
    {
      assert Shown(cfg, m, bucket).Keys == ShownKeys(cfg, m, bucket);
    }
  }

  ghost function SwarmKeys(cfg: Config, m: Records, bucket: Bucket): set<Key> {
    set k | k in ShownKeys(cfg, m, bucket) && m[k].source == PeerStore.Swarm
  }

  /** The bootstrap state: ready with a pulled swarm manifest, a bootstrap manifest or a sync
      peer from the swarm; otherwise it is decided by whether seeds are configured. */
  lemma DiscoveryInNumbers(cfg: Config, m: Records, swarm: PeerRefresh.Swarm)
    ensures var d := DiscoveryOf(cfg, m, swarm);
      && d.swarmSyncCount == |SwarmKeys(cfg, m, Sync)| && d.swarmPushCount == |SwarmKeys(cfg, m, Push)|
      && (d.state == Ready <==>
            (swarm.Pulled? && AllAccepted(swarm.file)) || cfg.manifest.Manifest? || SwarmKeys(cfg, m, Sync) != {})
      && (d.state == Solo <==> d.state != Ready && cfg.seeds == [])
      && (d.state == Connecting <==> d.state != Ready && cfg.seeds != [])
  {
    forall bucket
      ensures |FromSwarm(Shown(cfg, m, bucket))| == |SwarmKeys(cfg, m, bucket)|
    {
      assert FromSwarm(Shown(cfg, m, bucket)).Keys == SwarmKeys(cfg, m, bucket);
    }
    hide FromSwarm, Shown, ShownKeys, SwarmKeys, AllAccepted;
    assert |SwarmKeys(cfg, m, Sync)| == 0 <==> SwarmKeys(cfg, m, Sync) == {};
  }
}
