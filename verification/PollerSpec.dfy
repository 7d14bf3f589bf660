/** The consensus poller (consensus_poller.go): per-backend records, banning, the candidate filter and
    the group update, as functions on values, with the invariant they keep over every run. */
module PollerSpec {
  import opened Common
  import opened WalkBack

  /** Times count from the zero time, so a fresh record was last updated at time 0. */
  datatype BackendState = BackendState(
    latest: Uint64,
    latestHash: string,
    safe: Uint64,
    finalized: Uint64,
    peerCount: nat,
    inSync: bool,
    lastUpdate: nat,
    bannedUntil: nat)

  const FRESH := BackendState(0, "", 0, 0, 0, false, 0, 0)

  datatype Config = Config(
    backends: seq<Backend>,
    fallback: map<string, bool>,
    minPeerCount: nat,
    banPeriod: nat,
    maxUpdateThreshold: nat,
    maxBlockLag: nat,
    listeners: seq<nat>)

  type Candidates = map<Backend, BackendState>

  /** `invoked` logs which listener was called, in order. */
  datatype PollerState = PollerState(
    records: map<Backend, BackendState>,
    published: Triple,
    group: seq<Backend>,
    invoked: seq<nat>)

  ghost predicate Tracked(cfg: Config, records: map<Backend, BackendState>) {
    forall be :: be in cfg.backends ==> be in records
  }

  function Initial(cfg: Config): PollerState {
    PollerState(map be | be in cfg.backends :: FRESH, ZERO_TRIPLE, [], [])
  }

  // ---------------------------------------------------------------- polling one backend

  /** What the network and the health statistics say during one poll; None is a failed call. */
  datatype Probe = Probe(
    healthy: bool,
    inSync: Option<bool>,
    peerCount: Option<nat>,
    latest: Option<Block>,
    safe: Option<Uint64>,
    finalized: Option<Uint64>)

  /** The clock at the start of a poll, when the record is written, and when a ban is imposed. */
  datatype Moments = Moments(start: nat, write: nat, ban: nat)

  /** A drift check lowers the allowance only when the old value exceeds the threshold. */
  function Allowance(before: nat, threshold: nat): nat {
    if before > threshold then before - threshold else before
  }

  predicate ExpectedBlockTags(be: Backend, latest: nat, oldSafe: nat, safe: nat, oldFinalized: nat, finalized: nat) {
    && finalized >= Allowance(oldFinalized, be.finalizedDriftThreshold)
    && safe >= Allowance(oldSafe, be.safeDriftThreshold)
    && finalized <= safe
    && safe <= latest
  }

  function Banned(cfg: Config, be: Backend, bs: BackendState, now: nat): BackendState {
    if be.forcedCandidate then bs
    else bs.(latest := 0, safe := 0, finalized := 0, bannedUntil := now + cfg.banPeriod)
  }

  /** The values a poll would record, if every call succeeds and no height is zero. */
  function Observed(be: Backend, bs: BackendState, p: Probe, now: nat): Option<BackendState> {
    if p.inSync.None? then None
    else if !be.skipPeerCountCheck && (p.peerCount.None? || p.peerCount.value == 0) then None
    else if p.latest.None? || p.latest.value.number == 0 then None
    else if p.safe.None? || p.safe.value == 0 then None
    else if p.finalized.None? || p.finalized.value == 0 then None
    else
      var peers := if be.skipPeerCountCheck then 0 else p.peerCount.value;
      Some(BackendState(p.latest.value.number, p.latest.value.hash, p.safe.value, p.finalized.value,
                        peers, p.inSync.value, now, bs.bannedUntil))
  }

  /** A poll up to and including the write; `judge` says whether a record was written, to be judged next. */
  datatype Writing = Writing(record: BackendState, judge: bool)

  function Written(cfg: Config, be: Backend, bs: BackendState, p: Probe, at: Moments): Writing {
    if at.start < bs.bannedUntil then Writing(bs, false)
    else if !p.healthy && !be.forcedCandidate then Writing(Banned(cfg, be, bs, at.ban), false)
    else
      match Observed(be, bs, p, at.write)
      case None => Writing(bs, false)
      case Some(seen) => Writing(seen, true)
  }

  /** The judgment of a record against the one before it. */
  function Judged(cfg: Config, be: Backend, before: BackendState, written: BackendState, ban: nat): BackendState {
    if ExpectedBlockTags(be, written.latest, before.safe, written.safe, before.finalized, written.finalized)
    then written
    else Banned(cfg, be, written, ban)
  }

  /** A poll that nothing interrupts. */
  function Polled(cfg: Config, be: Backend, bs: BackendState, p: Probe, at: Moments): BackendState {
    var w := Written(cfg, be, bs, p, at);
    if w.judge then Judged(cfg, be, bs, w.record, at.ban) else w.record
  }

  /** Drift, exactly: a drop is tolerated up to the threshold, but only from above the threshold. */
  lemma DriftExact(be: Backend, latest: nat, oldSafe: nat, safe: nat, oldFinalized: nat, finalized: nat)
    ensures ExpectedBlockTags(be, latest, oldSafe, safe, oldFinalized, finalized) <==>
              && finalized <= safe <= latest
              && (safe < oldSafe ==> oldSafe > be.safeDriftThreshold >= oldSafe - safe)
              && (finalized < oldFinalized ==> oldFinalized > be.finalizedDriftThreshold >= oldFinalized - finalized)
  {
    if safe < oldSafe {
      assert safe >= Allowance(oldSafe, be.safeDriftThreshold) <==> oldSafe > be.safeDriftThreshold >= oldSafe - safe;
    }
  }

  /** Every call of the poll succeeded and no height is zero. */
  predicate FullProbe(be: Backend, p: Probe) {
    && p.inSync.Some?
    && (be.skipPeerCountCheck || (p.peerCount.Some? && p.peerCount.value > 0))
    && p.latest.Some? && p.safe.Some? && p.finalized.Some?
    && p.latest.value.number > 0 && p.safe.value > 0 && p.finalized.value > 0
  }

  /** The observed tags are ordered, and fell no further than the drift thresholds allow. */
  predicate Plausible(be: Backend, bs: BackendState, p: Probe)
    requires FullProbe(be, p)
  {
    && p.finalized.value <= p.safe.value <= p.latest.value.number
    && (p.safe.value < bs.safe ==> bs.safe > be.safeDriftThreshold >= bs.safe - p.safe.value)
    && (p.finalized.value < bs.finalized ==>
          bs.finalized > be.finalizedDriftThreshold >= bs.finalized - p.finalized.value)
  }

  /** The three outcomes of a poll, each with the exact condition for it: the record takes the observed
      values, the backend is banned with its heights erased, or nothing changes. */
  lemma PollOutcomes(cfg: Config, be: Backend, bs: BackendState, p: Probe, at: Moments)
    ensures var r := Polled(cfg, be, bs, p, at);
            var free := at.start >= bs.bannedUntil;
            if free && !p.healthy && !be.forcedCandidate then
              r == BackendState(0, bs.latestHash, 0, 0, bs.peerCount, bs.inSync, bs.lastUpdate, at.ban + cfg.banPeriod)
            else if free && FullProbe(be, p) then
              var peers := if be.skipPeerCountCheck then 0 else p.peerCount.value;
              var block := p.latest.value;
              if be.forcedCandidate || Plausible(be, bs, p) then
                r == BackendState(block.number, block.hash, p.safe.value, p.finalized.value, peers, p.inSync.value,
                                  at.write, bs.bannedUntil)
              else
                r == BackendState(0, block.hash, 0, 0, peers, p.inSync.value, at.write, at.ban + cfg.banPeriod)
            else r == bs
  {
    if FullProbe(be, p) {
      DriftExact(be, p.latest.value.number, bs.safe, p.safe.value, bs.finalized, p.finalized.value);
    }
  }

  // ---------------------------------------------------------------- choosing the candidates

  predicate Eligible(cfg: Config, be: Backend, bs: BackendState, now: nat, healthy: set<Backend>) {
    || be.forcedCandidate
    || (&& now >= bs.bannedUntil
        && be in healthy
        && (be.skipPeerCountCheck || bs.peerCount >= cfg.minPeerCount)
        && (be.skipIsSyncingCheck || bs.inSync)
        && bs.lastUpdate + cfg.maxUpdateThreshold >= now)
  }

  function Eligibles(cfg: Config, records: map<Backend, BackendState>, backends: seq<Backend>,
                     now: nat, healthy: set<Backend>): Candidates
    requires forall be :: be in backends ==> be in records
  {
    map be | be in backends && Eligible(cfg, be, records[be], now, healthy) :: records[be]
  }

  /** The lag as the source computes it, in unsigned 64-bit arithmetic. */
  function UnsignedLag(highest: nat, latest: nat): nat {
    (highest - latest) % TWO64
  }

  /** The unsigned subtraction is the plain difference exactly when it does not pass zero. */
  lemma LagExactIff(highest: Uint64, latest: Uint64)
    ensures UnsignedLag(highest, latest) == highest - latest <==> latest <= highest
  {
  }

  /** Those that no other is more than `lag` blocks ahead of. */
  function NotLagging(all: Candidates, lag: nat): Candidates {
    map be | be in all && forall other :: other in all ==> all[other].latest - all[be].latest <= lag :: all[be]
  }

  function Filtered(cfg: Config, records: map<Backend, BackendState>, backends: seq<Backend>,
                    now: nat, healthy: set<Backend>): Candidates
    requires forall be :: be in backends ==> be in records
  {
    NotLagging(Eligibles(cfg, records, backends, now, healthy), cfg.maxBlockLag)
  }

  /** The members of the group whose configured fallback flag is `flag`; a backend without a flag
      is in neither list. */
  function WithFallbackFlag(cfg: Config, backends: seq<Backend>, flag: bool): (r: seq<Backend>)
    ensures forall be :: be in r <==> be in backends && be.name in cfg.fallback && cfg.fallback[be.name] == flag
  {
    if backends == [] then []
    else
      var rest, be := backends[..|backends| - 1], backends[|backends| - 1];
      WithFallbackFlag(cfg, rest, flag) + if be.name in cfg.fallback && cfg.fallback[be.name] == flag then [be] else []
  }

  function Primaries(cfg: Config): seq<Backend> { WithFallbackFlag(cfg, cfg.backends, false) }
  function Fallbacks(cfg: Config): seq<Backend> { WithFallbackFlag(cfg, cfg.backends, true) }

  function ConsensusCandidates(cfg: Config, records: map<Backend, BackendState>, now: nat,
                               healthy: set<Backend>): Candidates
    requires Tracked(cfg, records)
  {
    var primaries := Filtered(cfg, records, Primaries(cfg), now, healthy);
    if |primaries| > 0 then primaries else Filtered(cfg, records, Fallbacks(cfg), now, healthy)
  }

  /** Some candidate has the highest latest block. */
  lemma {:induction false} HighestExists(all: Candidates, keys: set<Backend>) returns (top: Backend)
    requires keys != {} && keys <= all.Keys
    ensures top in keys && forall be :: be in keys ==> all[be].latest <= all[top].latest
    decreases keys
  {
    top :| top in keys;
    if keys != {top} {
      var other := HighestExists(all, keys - {top});
      if all[other].latest > all[top].latest { top := other; }
    }
  }

  /** The candidate filter: survivors are within the allowed lag of each other and of every eligible
      backend, a highest eligible backend survives, so nothing survives only if nothing was eligible. */
  lemma FilterKeepsHighest(cfg: Config, records: map<Backend, BackendState>, backends: seq<Backend>,
                           now: nat, healthy: set<Backend>)
    requires forall be :: be in backends ==> be in records
    ensures var all := Eligibles(cfg, records, backends, now, healthy);
            var kept := Filtered(cfg, records, backends, now, healthy);
            && kept.Keys <= all.Keys
            && (kept == map[] <==> all == map[])
            && (all != map[] ==>
                  exists top :: top in kept && forall be :: be in all ==> all[be].latest <= kept[top].latest)
            && (forall a, b :: a in kept && b in kept ==> kept[a].latest <= kept[b].latest + cfg.maxBlockLag)
            && (forall be :: be in all && be !in kept ==>
                  exists top :: top in kept && kept[top].latest > all[be].latest + cfg.maxBlockLag)
  {
    var all := Eligibles(cfg, records, backends, now, healthy);
    var kept := Filtered(cfg, records, backends, now, healthy);
    if all != map[] {
      var top := HighestExists(all, all.Keys);
      assert top in kept;
    }
  }

  /** The candidates are all primaries, or all fallbacks and then no primary was eligible. */
  lemma PrimariesFirst(cfg: Config, records: map<Backend, BackendState>, now: nat, healthy: set<Backend>)
    requires Tracked(cfg, records)
    ensures var cs := ConsensusCandidates(cfg, records, now, healthy);
            if forall be :: be in Primaries(cfg) ==> !Eligible(cfg, be, records[be], now, healthy)
            then forall be :: be in cs ==> be in Fallbacks(cfg) && be !in Primaries(cfg)
            else cs != map[] && forall be :: be in cs ==> be in Primaries(cfg) && be !in Fallbacks(cfg)
  {
    FilterKeepsHighest(cfg, records, Primaries(cfg), now, healthy);
    var all := Eligibles(cfg, records, Primaries(cfg), now, healthy);
    if be :| be in Primaries(cfg) && Eligible(cfg, be, records[be], now, healthy) {
      assert be in all;
    } else {
      assert all == map[];
    }
  }

  /** Fit to serve: forced, or not banned, healthy, with enough peers, in sync and updated recently. */
  ghost predicate Fit(cfg: Config, records: map<Backend, BackendState>, be: Backend, now: nat, healthy: set<Backend>,
                      flag: bool)
    requires Tracked(cfg, records)
  {
    && be in cfg.backends && be.name in cfg.fallback && cfg.fallback[be.name] == flag
    && var bs := records[be];
       !be.forcedCandidate ==>
         && bs.bannedUntil <= now <= bs.lastUpdate + cfg.maxUpdateThreshold
         && be in healthy
         && (bs.peerCount < cfg.minPeerCount ==> be.skipPeerCountCheck)
         && (!bs.inSync ==> be.skipIsSyncingCheck)
  }

  lemma FitIsEligible(cfg: Config, records: map<Backend, BackendState>, now: nat, healthy: set<Backend>, flag: bool)
    requires Tracked(cfg, records)
    ensures var all := Eligibles(cfg, records, WithFallbackFlag(cfg, cfg.backends, flag), now, healthy);
            forall be ::
              (be in all <==> Fit(cfg, records, be, now, healthy, flag)) && (be in all ==> all[be] == records[be])
  {
  }

  /** Who is a candidate, and with which record: a primary that is fit, or if there is none a fallback that
      is, unless another such is more than the allowed lag ahead of it; each with its own record. */
  lemma CandidatesExactly(cfg: Config, records: map<Backend, BackendState>, now: nat, healthy: set<Backend>,
                          be: Backend)
    requires Tracked(cfg, records)
    ensures var cs := ConsensusCandidates(cfg, records, now, healthy);
            var flag := forall p :: !Fit(cfg, records, p, now, healthy, false);
            && (be in cs <==>
                  && Fit(cfg, records, be, now, healthy, flag)
                  && forall o :: Fit(cfg, records, o, now, healthy, flag) ==>
                       records[o].latest <= records[be].latest + cfg.maxBlockLag)
            && (be in cs ==> be in records && cs[be] == records[be])
  {
    var cs := ConsensusCandidates(cfg, records, now, healthy);
    FilterKeepsHighest(cfg, records, Primaries(cfg), now, healthy);
    FitIsEligible(cfg, records, now, healthy, false);
    FitIsEligible(cfg, records, now, healthy, true);
    if p :| Fit(cfg, records, p, now, healthy, false) {
      assert p in Eligibles(cfg, records, Primaries(cfg), now, healthy);
    } else {
      assert Eligibles(cfg, records, Primaries(cfg), now, healthy) == map[];
    }
  }

  // ---------------------------------------------------------------- resolving the group

  /** The lowest latest block and its recorded hash, in the sentinel fold of the source. */
  function LowestBlockFrom(acc: Block, blocks: seq<Block>): Block
    decreases blocks
  {
    if blocks == [] then acc
    else LowestBlockFrom(if acc.number == 0 || blocks[0].number < acc.number then blocks[0] else acc, blocks[1..])
  }

  function Latests(order: seq<Backend>, cs: Candidates): (r: seq<Block>)
    requires forall be :: be in order ==> be in cs
    ensures |r| == |order| && forall i :: 0 <= i < |r| ==> r[i] == Block(cs[order[i]].latest, cs[order[i]].latestHash)
  {
    if order == [] then []
    else [Block(cs[order[0]].latest, cs[order[0]].latestHash)] + Latests(order[1..], cs)
  }

  /** One field of the candidates, in iteration order. */
  function Column(order: seq<Backend>, cs: Candidates, field: BackendState -> nat): (r: seq<nat>)
    requires forall be :: be in order ==> be in cs
    ensures |r| == |order| && forall i :: 0 <= i < |r| ==> r[i] == field(cs[order[i]])
  {
    if order == [] then [] else [field(cs[order[0]])] + Column(order[1..], cs, field)
  }

  function LatestOf(bs: BackendState): nat { bs.latest }
  function SafeOf(bs: BackendState): nat { bs.safe }
  function FinalizedOf(bs: BackendState): nat { bs.finalized }

  function Present(backends: seq<Backend>, cs: Candidates): (r: seq<Backend>)
    ensures forall be :: be in r <==> be in backends && be in cs
  {
    if backends == [] then []
    else
      var rest, be := backends[..|backends| - 1], backends[|backends| - 1];
      Present(rest, cs) + if be in cs then [be] else []
  }

  /** The members of a list at these positions: in order, each position once, and no other. */
  ghost predicate Picks(all: seq<Backend>, chosen: seq<Backend>, at: seq<nat>) {
    && |at| == |chosen|
    && (forall k :: 0 <= k < |at| ==> at[k] < |all| && chosen[k] == all[at[k]])
    && (forall j, k :: 0 <= j < k < |at| ==> at[j] < at[k])
  }

  /** The positions are exactly those of these members. */
  ghost predicate PicksAll(all: seq<Backend>, at: seq<nat>, wanted: set<Backend>) {
    forall i :: 0 <= i < |all| ==> (i in at <==> all[i] in wanted)
  }

  lemma PickNext(all: seq<Backend>, chosen: seq<Backend>, at: seq<nat>, wanted: set<Backend>)
    requires all != [] && Picks(all[..|all| - 1], chosen, at) && PicksAll(all[..|all| - 1], at, wanted)
    ensures var last := all[|all| - 1];
            if last in wanted
            then Picks(all, chosen + [last], at + [|all| - 1]) && PicksAll(all, at + [|all| - 1], wanted)
            else Picks(all, chosen, at) && PicksAll(all, at, wanted)
  {
    var rest, n := all[..|all| - 1], |all| - 1;
    assert forall k :: 0 <= k < |at| ==> all[at[k]] == rest[at[k]];
    assert n !in at;
    forall i | 0 <= i < n ensures i in at <==> all[i] in wanted {
      assert rest[i] == all[i];
    }
  }

  lemma PresentStep(backends: seq<Backend>, cs: Candidates)
    requires backends != []
    ensures var rest, last := backends[..|backends| - 1], backends[|backends| - 1];
            Present(backends, cs) == if last in cs.Keys then Present(rest, cs) + [last] else Present(rest, cs)
  {
  }

  /** The group keeps the configured order and multiplicity: exactly the positions of candidates. */
  lemma {:induction false} PresentInOrder(backends: seq<Backend>, cs: Candidates) returns (at: seq<nat>)
    ensures Picks(backends, Present(backends, cs), at) && PicksAll(backends, at, cs.Keys)
    decreases backends
  {
    if backends == [] {
      at := [];
    } else {
      var rest, last := backends[..|backends| - 1], backends[|backends| - 1];
      var before := PresentInOrder(rest, cs);
      PickNext(backends, Present(rest, cs), before, cs.Keys);
      at := if last in cs then before + [|rest|] else before;
      PresentStep(backends, cs);
    }
  }

  /** So do primaries and fallbacks. */
  lemma {:induction false} FlaggedInOrder(cfg: Config, backends: seq<Backend>, flag: bool, wanted: set<Backend>)
    returns (at: seq<nat>)
    requires forall be :: be in backends ==>
               (be in wanted <==> be.name in cfg.fallback && cfg.fallback[be.name] == flag)
    ensures Picks(backends, WithFallbackFlag(cfg, backends, flag), at) && PicksAll(backends, at, wanted)
    decreases backends
  {
    at := [];
    if backends != [] {
      var rest := backends[..|backends| - 1];
      at := FlaggedInOrder(cfg, rest, flag, wanted);
      PickNext(backends, WithFallbackFlag(cfg, rest, flag), at, wanted);
      assert backends[|rest|] in backends;
      if backends[|rest|] in wanted {
        at := at + [|rest|];
      }
    }
  }

  /** One group update: the clock, the healthy backends, the iteration orders and the answers. */
  datatype GroupInput = GroupInput(now: nat, healthy: set<Backend>, orders: Orders, answers: Answers)

  const NO_BLOCK := Block(0, "")

  function CandidatesFor(cfg: Config, s: PollerState, g: GroupInput): Candidates
    requires Tracked(cfg, s.records)
  {
    ConsensusCandidates(cfg, s.records, g.now, g.healthy)
  }

  ghost function LowestOf(cs: Candidates, orders: Orders): Block
    requires OrdersOf(orders, cs.Keys)
  {
    assert Enumerates(orders(0), cs.Keys);
    LowestBlockFrom(NO_BLOCK, Latests(orders(0), cs))
  }

  /** Where the walk ends, if it does; with nothing to propose there is no walk. */
  ghost function Resolution(cs: Candidates, current: nat, orders: Orders, answers: Answers): Option<Walk>
    requires OrdersOf(orders, cs.Keys)
  {
    var lowest := LowestOf(cs, orders);
    if lowest.number == 0 then Some(Walk(0, lowest.hash, false, 0))
    else WalkFrom(orders, answers, 0, lowest.number, lowest.hash, current, false)
  }

  ghost function Publication(cs: Candidates, orders: Orders, height: nat): Triple
    requires OrdersOf(orders, cs.Keys)
  {
    assert Enumerates(orders(0), cs.Keys);
    Triple(height, LowestFrom(0, Column(orders(0), cs, SafeOf)), LowestFrom(0, Column(orders(0), cs, FinalizedOf)))
  }

  /** The state after a group update with these candidates; it stays while the walk has not ended. */
  ghost function ResolvedWith(cfg: Config, s: PollerState, cs: Candidates, g: GroupInput): PollerState
    requires OrdersOf(g.orders, cs.Keys)
  {
    match Resolution(cs, s.published.latest, g.orders, g.answers)
    case None => s
    case Some(w) =>
      s.(published := Publication(cs, g.orders, w.height),
         group := Present(cfg.backends, cs),
         invoked := s.invoked + if w.broken then cfg.listeners else [])
  }

  ghost predicate Fits(cfg: Config, s: PollerState, g: GroupInput) {
    Tracked(cfg, s.records) && OrdersOf(g.orders, CandidatesFor(cfg, s, g).Keys)
  }

  ghost function Resolved(cfg: Config, s: PollerState, g: GroupInput): PollerState
    requires Fits(cfg, s, g)
  {
    ResolvedWith(cfg, s, CandidatesFor(cfg, s, g), g)
  }
}
