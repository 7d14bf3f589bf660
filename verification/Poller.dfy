/** The consensus poller as the object it is: its methods update the per-backend records, the
    published triple and the consensus group in place. */
module Poller {
  import opened Common
  import opened WalkBack
  import opened PollerSpec

  class ConsensusPoller {
    const cfg: Config
    var backendState: map<Backend, BackendState>
    var tracker: Triple
    var consensusGroup: seq<Backend>
    var invoked: seq<nat>

    ghost predicate Valid()
      reads this
    {
      Tracked(cfg, backendState)
    }

    ghost function View(): PollerState
      reads this
    {
      PollerState(backendState, tracker, consensusGroup, invoked)
    }

    constructor (cfg: Config)
      ensures Valid() && this.cfg == cfg && View() == Initial(cfg)
    {
      this.cfg := cfg;
      tracker, consensusGroup, invoked := ZERO_TRIPLE, [], [];
      backendState := map be | be in cfg.backends :: FRESH;
    }

    method Ban(be: Backend, now: nat)
      requires Valid() && be in cfg.backends
      modifies this`backendState
      ensures Valid()
      ensures backendState == old(backendState)[be := Banned(cfg, be, old(backendState[be]), now)]
    {
      if be.forcedCandidate {
        assert backendState == backendState[be := backendState[be]];
        return;
      }
      var bs := backendState[be];
      bs := bs.(bannedUntil := now + cfg.banPeriod);
      bs := bs.(latest := 0, safe := 0, finalized := 0);
      backendState := backendState[be := bs];
    }

    method UpdateBackend(be: Backend, p: Probe, at: Moments)
      requires Valid() && be in cfg.backends
      modifies this`backendState
      ensures Valid()
      ensures backendState == old(backendState)[be := Polled(cfg, be, old(backendState[be]), p, at)]
    {
      var bs := backendState[be];
      assert backendState == backendState[be := bs];
      if at.start < bs.bannedUntil {
        return;
      }
      if !p.healthy && !be.forcedCandidate {
        Ban(be, at.ban);
        return;
      }
      if p.inSync.None? {
        return;
      }
      var peerCount := 0;
      if !be.skipPeerCountCheck {
        if p.peerCount.None? || p.peerCount.value == 0 {
          return;
        }
        peerCount := p.peerCount.value;
      }
      if p.latest.None? || p.latest.value.number == 0 {
        return;
      }
      if p.safe.None? || p.safe.value == 0 {
        return;
      }
      if p.finalized.None? || p.finalized.value == 0 {
        return;
      }
      backendState := backendState[be := bs.(
        peerCount := peerCount,
        inSync := p.inSync.value,
        latest := p.latest.value.number,
        latestHash := p.latest.value.hash,
        safe := p.safe.value,
        finalized := p.finalized.value,
        lastUpdate := at.write)];
      var expected :=
        ExpectedBlockTags(be, p.latest.value.number, bs.safe, p.safe.value, bs.finalized, p.finalized.value);
      if !expected && !be.forcedCandidate {
        Ban(be, at.ban);
      }
    }

    /** The second half of FilterCandidates: both loops range over the map in arbitrary order. */
    method DropLagging(all: Candidates) returns (candidates: Candidates)
      ensures candidates == NotLagging(all, cfg.maxBlockLag)
    {
      var highest := 0;
      var todo := all.Keys;
      while todo != {}
        invariant todo <= all.Keys
        invariant forall be :: be in all && be !in todo ==> all[be].latest <= highest
        invariant highest == 0 || exists be :: be in all && all[be].latest == highest
        decreases todo
      {
        var be :| be in todo;
        if all[be].latest > highest {
          highest := all[be].latest;
        }
        todo := todo - {be};
      }
      assert forall be :: be in all ==> all[be].latest <= highest < TWO64;
      var lagging: seq<Backend> := [];
      todo := all.Keys;
      while todo != {}
        invariant todo <= all.Keys
        invariant forall be :: be in lagging <==> be in all && be !in todo && highest - all[be].latest > cfg.maxBlockLag
        decreases todo
      {
        var be :| be in todo;
        LagExactIff(highest, all[be].latest);
        if UnsignedLag(highest, all[be].latest) > cfg.maxBlockLag {
          lagging := lagging + [be];
        }
        todo := todo - {be};
      }
      candidates := all;
      for i := 0 to |lagging|
        invariant candidates == map be | be in all && be !in lagging[..i] :: all[be]
      {
        candidates := candidates - {lagging[i]};
      }
    }

    method FilterCandidates(backends: seq<Backend>, now: nat, healthy: set<Backend>) returns (candidates: Candidates)
      requires forall be :: be in backends ==> be in backendState
      ensures candidates == Filtered(cfg, backendState, backends, now, healthy)
    {
      candidates := map[];
      for i := 0 to |backends|
        invariant candidates == Eligibles(cfg, backendState, backends[..i], now, healthy)
      {
        var be := backends[i];
        var bs := backendState[be];
        assert backends[..i + 1] == backends[..i] + [be];
        if be.forcedCandidate {
          candidates := candidates[be := bs];
          continue;
        }
        if now < bs.bannedUntil { continue; }
        if be !in healthy { continue; }
        if !be.skipPeerCountCheck && bs.peerCount < cfg.minPeerCount { continue; }
        if !be.skipIsSyncingCheck && !bs.inSync { continue; }
        if bs.lastUpdate + cfg.maxUpdateThreshold < now { continue; }
        candidates := candidates[be := bs];
      }
      assert backends[..|backends|] == backends;
      candidates := DropLagging(candidates);
    }

    /** Primaries (flag false) and Fallbacks (flag true) of the backend group. */
    method SelectBackends(flag: bool) returns (r: seq<Backend>)
      ensures r == WithFallbackFlag(cfg, cfg.backends, flag)
    {
      r := [];
      for i := 0 to |cfg.backends|
        invariant r == WithFallbackFlag(cfg, cfg.backends[..i], flag)
      {
        var a := cfg.backends[i];
        assert cfg.backends[..i + 1][..i] == cfg.backends[..i];
        if a.name in cfg.fallback && cfg.fallback[a.name] == flag {
          r := r + [a];
        }
      }
      assert cfg.backends[..|cfg.backends|] == cfg.backends;
    }

    method GetConsensusCandidates(now: nat, healthy: set<Backend>) returns (candidates: Candidates)
      requires Valid()
      ensures candidates == ConsensusCandidates(cfg, backendState, now, healthy)
    {
      var primaries := SelectBackends(false);
      candidates := FilterCandidates(primaries, now, healthy);
      if |candidates| == 0 {
        var fallbacks := SelectBackends(true);
        candidates := FilterCandidates(fallbacks, now, healthy);
      }
    }

    /** The candidates in the order of the configured backends. */
    method Group(candidates: Candidates) returns (group: seq<Backend>)
      ensures group == Present(cfg.backends, candidates)
    {
      group := [];
      for i := 0 to |cfg.backends|
        invariant group == Present(cfg.backends[..i], candidates)
      {
        assert cfg.backends[..i + 1][..i] == cfg.backends[..i];
        if cfg.backends[i] in candidates {
          group := group + [cfg.backends[i]];
        }
      }
      assert cfg.backends[..|cfg.backends|] == cfg.backends;
    }

    /** The loop over the candidates that finds the lowest latest, safe and finalized blocks. */
    method Minima(order: seq<Backend>, candidates: Candidates) returns (lowest: Block, safe: nat, finalized: nat)
      requires forall be :: be in order ==> be in candidates
      ensures lowest == LowestBlockFrom(NO_BLOCK, Latests(order, candidates))
      ensures safe == LowestFrom(0, Column(order, candidates, SafeOf))
      ensures finalized == LowestFrom(0, Column(order, candidates, FinalizedOf))
    {
      lowest, safe, finalized := NO_BLOCK, 0, 0;
      for i := 0 to |order|
        invariant LowestBlockFrom(NO_BLOCK, Latests(order, candidates))
               == LowestBlockFrom(lowest, Latests(order[i..], candidates))
        invariant LowestFrom(0, Column(order, candidates, SafeOf))
               == LowestFrom(safe, Column(order[i..], candidates, SafeOf))
        invariant LowestFrom(0, Column(order, candidates, FinalizedOf))
               == LowestFrom(finalized, Column(order[i..], candidates, FinalizedOf))
      {
        var bs := candidates[order[i]];
        if lowest.number == 0 || bs.latest < lowest.number {
          lowest := Block(bs.latest, bs.latestHash);
        }
        if finalized == 0 || bs.finalized < finalized {
          finalized := bs.finalized;
        }
        if safe == 0 || bs.safe < safe {
          safe := bs.safe;
        }
        assert order[i..][1..] == order[i + 1..];
      }
    }

    /** The rest of the group update, once the candidates are known. */
    method Settle(candidates: Candidates, g: GroupInput) returns (done: bool)
      requires OrdersOf(g.orders, candidates.Keys)
      modifies this`tracker, this`consensusGroup, this`invoked
      ensures View() == ResolvedWith(cfg, old(View()), candidates, g)
      ensures done <==> Resolution(candidates, old(tracker.latest), g.orders, g.answers).Some?
    {
      var current := tracker.latest;
      assert Enumerates(g.orders(0), candidates.Keys);
      var lowest, safe, finalized := Minima(g.orders(0), candidates);
      var proposed, broken := lowest.number, false;
      done := true;
      if proposed > 0 {
        var hash, rounds;
        done, proposed, hash, broken, rounds := FindProposal(g.orders, g.answers, lowest.number, lowest.hash, current);
      }
      if !done {
        return;
      }
      if broken {
        invoked := invoked + cfg.listeners;
      }
      tracker := Triple(proposed, safe, finalized);
      consensusGroup := Group(candidates);
    }

    /** `done` is false when the walk never ends; the source then publishes nothing. */
    method UpdateBackendGroupConsensus(g: GroupInput) returns (done: bool)
      requires Valid() && Fits(cfg, View(), g)
      modifies this`tracker, this`consensusGroup, this`invoked
      ensures Valid() && View() == Resolved(cfg, old(View()), g)
      ensures done <==> Resolution(CandidatesFor(cfg, old(View()), g), old(tracker.latest), g.orders, g.answers).Some?
    {
      var candidates := GetConsensusCandidates(g.now, g.healthy);
      done := Settle(candidates, g);
    }
  }
}
