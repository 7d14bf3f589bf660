/** What the poller guarantees: facts about one group update, and safety over every run. */
module PollerRuns {
  import opened Common
  import opened WalkBack
  import opened PollerSpec

  // ---------------------------------------------------------------- minima over the candidates

  ghost predicate LeastOf(cs: Candidates, field: BackendState -> nat, m: nat) {
    && (exists be :: be in cs && field(cs[be]) == m)
    && (forall be :: be in cs ==> m <= field(cs[be]))
  }

  /** With no zero among the values, the sentinel fold is a true minimum in every iteration order. */
  lemma LeastInAnyOrder(order: seq<Backend>, cs: Candidates, field: BackendState -> nat)
    requires Enumerates(order, cs.Keys) && cs != map[]
    requires forall be :: be in cs ==> field(cs[be]) != 0
    ensures LeastOf(cs, field, LowestFrom(0, Column(order, cs, field)))
  {
    var xs := Column(order, cs, field);
    var be :| be in cs;
    assert be in order;
    LowestFromCases(0, xs);
    var m := LowestFrom(0, xs);
    assert m in xs;
    forall b | b in cs ensures m <= field(cs[b]) {
      assert b in order;
      var i :| 0 <= i < |order| && order[i] == b;
      assert xs[i] in xs;
    }
  }

  /** The block found with its hash is the one the plain minimum finds. */
  lemma {:induction false} LowestBlockIsLowest(acc: Block, order: seq<Backend>, cs: Candidates)
    requires forall be :: be in order ==> be in cs
    ensures var b := LowestBlockFrom(acc, Latests(order, cs));
            && b.number == LowestFrom(acc.number, Column(order, cs, LatestOf))
            && (b == acc || exists be :: be in order && b == Block(cs[be].latest, cs[be].latestHash))
            && (order != [] && acc.number == 0 ==>
                  exists be :: be in order && b == Block(cs[be].latest, cs[be].latestHash))
    decreases order
  {
    if order != [] {
      var head := Block(cs[order[0]].latest, cs[order[0]].latestHash);
      var next := if acc.number == 0 || head.number < acc.number then head else acc;
      assert Latests(order, cs)[1..] == Latests(order[1..], cs);
      assert Column(order, cs, LatestOf)[1..] == Column(order[1..], cs, LatestOf);
      LowestBlockIsLowest(next, order[1..], cs);
      assert order[0] in order;
    }
  }

  // ---------------------------------------------------------------- one group update

  ghost predicate Sound(bs: BackendState) {
    0 < bs.finalized <= bs.safe <= bs.latest
  }

  ghost predicate AllSound(cs: Candidates) {
    forall be :: be in cs ==> Sound(cs[be])
  }

  /** The block is what some candidate has on record as its latest. */
  ghost predicate OnRecord(cs: Candidates, b: Block) {
    exists be :: be in cs && b == Block(cs[be].latest, cs[be].latestHash)
  }

  ghost predicate AllNonZero(cs: Candidates) {
    forall be :: be in cs ==> cs[be].latest != 0 && cs[be].safe != 0 && cs[be].finalized != 0
  }

  /** The three folds over candidates without zeros, in any iteration order. */
  lemma FoldsOverNonZero(order: seq<Backend>, cs: Candidates)
    requires Enumerates(order, cs.Keys) && AllNonZero(cs) && cs != map[]
    ensures var lowest := LowestBlockFrom(NO_BLOCK, Latests(order, cs));
            && OnRecord(cs, lowest)
            && LeastOf(cs, LatestOf, lowest.number)
            && LeastOf(cs, SafeOf, LowestFrom(0, Column(order, cs, SafeOf)))
            && LeastOf(cs, FinalizedOf, LowestFrom(0, Column(order, cs, FinalizedOf)))
  {
    var be :| be in cs;
    assert be in order;
    LowestBlockIsLowest(NO_BLOCK, order, cs);
    LeastInAnyOrder(order, cs, LatestOf);
    LeastInAnyOrder(order, cs, SafeOf);
    LeastInAnyOrder(order, cs, FinalizedOf);
  }

  /** The walk starts at a recorded block of a lowest candidate, and safe and finalized are published as
      true minima, whenever no candidate has a zero. */
  ghost predicate StartsAtMinima(cs: Candidates, orders: Orders, p: Triple)
    requires OrdersOf(orders, cs.Keys)
  {
    && OnRecord(cs, LowestOf(cs, orders))
    && LeastOf(cs, LatestOf, LowestOf(cs, orders).number)
    && LeastOf(cs, SafeOf, p.safe)
    && LeastOf(cs, FinalizedOf, p.finalized)
  }

  lemma OrderedMinima(cs: Candidates, latest: nat, safe: nat, finalized: nat)
    requires AllSound(cs)
    requires LeastOf(cs, LatestOf, latest) && LeastOf(cs, SafeOf, safe) && LeastOf(cs, FinalizedOf, finalized)
    ensures 0 < finalized <= safe <= latest
  {
    var a :| a in cs && LatestOf(cs[a]) == latest;
    var b :| b in cs && SafeOf(cs[b]) == safe;
    var c :| c in cs && FinalizedOf(cs[c]) == finalized;
    assert Sound(cs[a]) && Sound(cs[b]) && Sound(cs[c]);
    assert safe <= SafeOf(cs[a]) && finalized <= FinalizedOf(cs[b]);
  }

  lemma NonZeroGroupUpdate(cs: Candidates, orders: Orders, height: nat)
    requires OrdersOf(orders, cs.Keys) && AllNonZero(cs) && cs != map[]
    ensures StartsAtMinima(cs, orders, Publication(cs, orders, height)) && LowestOf(cs, orders).number > 0
  {
    assert Enumerates(orders(0), cs.Keys);
    FoldsOverNonZero(orders(0), cs);
  }

  /** And over sound candidates they are in order and at most the lowest latest. */
  ghost predicate PublishesMinima(cs: Candidates, orders: Orders, p: Triple)
    requires OrdersOf(orders, cs.Keys)
  {
    StartsAtMinima(cs, orders, p) && 0 < p.finalized <= p.safe <= LowestOf(cs, orders).number
  }

  lemma SoundGroupUpdate(cs: Candidates, orders: Orders, height: nat)
    requires OrdersOf(orders, cs.Keys) && AllSound(cs) && cs != map[]
    ensures PublishesMinima(cs, orders, Publication(cs, orders, height))
  {
    NonZeroGroupUpdate(cs, orders, height);
    var p := Publication(cs, orders, height);
    OrderedMinima(cs, LowestOf(cs, orders).number, p.safe, p.finalized);
  }

  lemma HasMember(order: seq<Backend>)
    requires order != []
    ensures exists be :: be in order
  {
    assert order[0] in order;
  }

  lemma EmptyGroupUpdate(cfg: Config, s: PollerState, g: GroupInput)
    requires OrdersOf(g.orders, {})
    ensures var t := ResolvedWith(cfg, s, map[], g);
            t.published == ZERO_TRIPLE && t.group == [] && t.invoked == s.invoked
  {
    var order := g.orders(0);
    var none: Candidates := map[];
    assert none.Keys == {};
    assert Enumerates(order, none.Keys);
    if order != [] { HasMember(order); }
    var group := Present(cfg.backends, none);
    if group != [] { HasMember(group); }
  }

  /** Every candidate answers at its own latest height, with the block it has on record. */
  ghost predicate AnswersMatchRecords(cs: Candidates, answers: Answers) {
    forall be :: be in cs ==> (be, cs[be].latest) in answers
                              && answers[(be, cs[be].latest)] == Block(cs[be].latest, cs[be].latestHash)
  }

  /** Starting from a candidate's own record, the first round tests plain agreement. */
  lemma RecordedHashSettles(cs: Candidates, answers: Answers, b: Block)
    requires HashesNamed(answers) && AnswersMatchRecords(cs, answers) && OnRecord(cs, b)
    ensures Acceptable(cs.Keys, answers, b.number, b.hash) <==> Agree(cs.Keys, answers, b.number)
  {
    var be :| be in cs && b == Block(cs[be].latest, cs[be].latestHash);
    assert (be, b.number) in answers && answers[(be, b.number)] == b;
    if Agree(cs.Keys, answers, b.number) {
      assert forall c :: c in cs.Keys && (c, b.number) in answers ==> answers[(c, b.number)].hash == b.hash;
    }
  }

  lemma LeastUnique(cs: Candidates, field: BackendState -> nat, m: nat, n: nat)
    requires LeastOf(cs, field, m) && LeastOf(cs, field, n)
    ensures m == n
  {
    var a :| a in cs && field(cs[a]) == m;
    var b :| b in cs && field(cs[b]) == n;
    assert m <= field(cs[b]) && n <= field(cs[a]);
  }

  lemma LowestSettles(cs: Candidates, orders: Orders, answers: Answers)
    requires OrdersOf(orders, cs.Keys) && AllNonZero(cs) && cs != map[]
    requires HashesNamed(answers) && AnswersMatchRecords(cs, answers)
    ensures var lowest := LowestOf(cs, orders);
            && lowest.number > 0
            && LeastOf(cs, LatestOf, lowest.number)
            && (Acceptable(cs.Keys, answers, lowest.number, lowest.hash) <==> Agree(cs.Keys, answers, lowest.number))
  {
    NonZeroGroupUpdate(cs, orders, 0);
    RecordedHashSettles(cs, answers, LowestOf(cs, orders));
  }

  lemma SameWalk(cs: Candidates, current: nat, o1: Orders, o2: Orders, answers: Answers)
    requires OrdersOf(o1, cs.Keys) && OrdersOf(o2, cs.Keys)
    requires HashesNamed(answers) && AnswersMatchRecords(cs, answers) && AllNonZero(cs) && cs != map[]
    ensures var w1, w2 := Resolution(cs, current, o1, answers), Resolution(cs, current, o2, answers);
            && w1.Some? == w2.Some? && LowestOf(cs, o1).number == LowestOf(cs, o2).number
            && (w1.Some? ==> w1.value.height == w2.value.height && w1.value.rounds == w2.value.rounds)
  {
    LowestSettles(cs, o1, answers);
    LowestSettles(cs, o2, answers);
    var l1, l2 := LowestOf(cs, o1), LowestOf(cs, o2);
    LeastUnique(cs, LatestOf, l1.number, l2.number);
    WalkOrderFree(o1, o2, cs.Keys, answers, 0, l1.number, l1.hash, l2.hash, current, false, false);
  }

  /** Listeners: each runs once when the resolved block is below both the lowest candidate latest and
      the block published before, and none runs otherwise. */
  lemma ListenersRunExactly(cfg: Config, s: PollerState, cs: Candidates, g: GroupInput)
    requires OrdersOf(g.orders, cs.Keys) && NumbersFaithful(g.answers)
    requires var w := Resolution(cs, s.published.latest, g.orders, g.answers);
             w.Some? && w.value.rounds <= LowestOf(cs, g.orders).number
    ensures var t := ResolvedWith(cfg, s, cs, g);
            var fell := t.published.latest < LowestOf(cs, g.orders).number && t.published.latest < s.published.latest;
            t.invoked == s.invoked + if fell then cfg.listeners else []
  {
    var lowest := LowestOf(cs, g.orders);
    BrokenExactly(g.orders, g.answers, lowest.number, lowest.hash, s.published.latest);
  }

  lemma SamePublication(cs: Candidates, o1: Orders, o2: Orders, height: nat)
    requires OrdersOf(o1, cs.Keys) && OrdersOf(o2, cs.Keys) && AllNonZero(cs) && cs != map[]
    ensures Publication(cs, o1, height) == Publication(cs, o2, height)
  {
    NonZeroGroupUpdate(cs, o1, height);
    NonZeroGroupUpdate(cs, o2, height);
    var p1, p2 := Publication(cs, o1, height), Publication(cs, o2, height);
    LeastUnique(cs, SafeOf, p1.safe, p2.safe);
    LeastUnique(cs, FinalizedOf, p1.finalized, p2.finalized);
  }

  /** The walk ends before its height wraps around. */
  ghost predicate EndsInTime(cs: Candidates, current: nat, g: GroupInput)
    requires OrdersOf(g.orders, cs.Keys)
  {
    var w := Resolution(cs, current, g.orders, g.answers);
    w.Some? && w.value.rounds <= LowestOf(cs, g.orders).number
  }

  lemma SameListeners(cfg: Config, s: PollerState, cs: Candidates, g: GroupInput, orders: Orders)
    requires OrdersOf(g.orders, cs.Keys) && OrdersOf(orders, cs.Keys)
    requires HashesNamed(g.answers) && AnswersMatchRecords(cs, g.answers) && AllNonZero(cs) && cs != map[]
    requires NumbersFaithful(g.answers) && EndsInTime(cs, s.published.latest, g)
    ensures ResolvedWith(cfg, s, cs, g).invoked == ResolvedWith(cfg, s, cs, g.(orders := orders)).invoked
  {
    SameWalk(cs, s.published.latest, g.orders, orders, g.answers);
    ListenersRunExactly(cfg, s, cs, g);
    ListenersRunExactly(cfg, s, cs, g.(orders := orders));
  }

  /** Iteration-order independence: with named hashes, answers that match the records and no zeros, two
      group updates that differ only in how the candidate map is enumerated publish the same triple and
      the same group, and if the answers carry the numbers asked for and the walk ends before its height
      wraps around, they run the same listeners. */
  lemma OrderIndependence(cfg: Config, s: PollerState, cs: Candidates, g: GroupInput, orders: Orders)
    requires OrdersOf(g.orders, cs.Keys) && OrdersOf(orders, cs.Keys)
    requires HashesNamed(g.answers) && AnswersMatchRecords(cs, g.answers) && AllNonZero(cs)
    ensures var t1, t2 := ResolvedWith(cfg, s, cs, g), ResolvedWith(cfg, s, cs, g.(orders := orders));
            && t1.published == t2.published && t1.group == t2.group
            && (NumbersFaithful(g.answers) && EndsInTime(cs, s.published.latest, g) ==> t1.invoked == t2.invoked)
  {
    if cs == map[] {
      EmptyGroupUpdate(cfg, s, g);
      EmptyGroupUpdate(cfg, s, g.(orders := orders));
    } else {
      SameWalk(cs, s.published.latest, g.orders, orders, g.answers);
      SamePublication(cs, g.orders, orders, ResolvedWith(cfg, s, cs, g).published.latest);
      if NumbersFaithful(g.answers) && EndsInTime(cs, s.published.latest, g) {
        SameListeners(cfg, s, cs, g, orders);
      }
    }
  }

  lemma UpdateAgrees(cfg: Config, s: PollerState, cs: Candidates, g: GroupInput)
    requires OrdersOf(g.orders, cs.Keys) && HashesNamed(g.answers) && AllNonZero(cs) && cs != map[]
    ensures var lowest := LowestOf(cs, g.orders);
            var w := Resolution(cs, s.published.latest, g.orders, g.answers);
            SettlesAtOrBelow(cs.Keys, g.answers, lowest.number, lowest.hash, lowest.number) ==>
              && EndsAtGreatest(cs.Keys, g.answers, lowest.number, lowest.hash, lowest.number, w)
              && ResolvedWith(cfg, s, cs, g).published.latest == w.value.height
  {
    NonZeroGroupUpdate(cs, g.orders, 0);
    var lowest := LowestOf(cs, g.orders);
    WalkEnds(g.orders, cs.Keys, g.answers, lowest.number, lowest.hash, s.published.latest);
  }

  /** The walk lowers latest only: over sound candidates, published safe is at most published latest if
      and only if the walk settles somewhere between the lowest safe and the lowest latest block. */
  lemma SafeWithinLatestIff(cfg: Config, s: PollerState, cs: Candidates, g: GroupInput)
    requires OrdersOf(g.orders, cs.Keys) && HashesNamed(g.answers) && AllSound(cs) && cs != map[]
    requires var lowest := LowestOf(cs, g.orders);
             SettlesAtOrBelow(cs.Keys, g.answers, lowest.number, lowest.hash, lowest.number)
    ensures var lowest, p := LowestOf(cs, g.orders), ResolvedWith(cfg, s, cs, g).published;
            && LeastOf(cs, SafeOf, p.safe)
            && (p.safe <= p.latest <==>
                  exists h :: p.safe <= h <= lowest.number
                              && Settles(cs.Keys, g.answers, lowest.number, lowest.hash, h))
  {
    UpdateAgrees(cfg, s, cs, g);
    SoundGroupUpdate(cs, g.orders, ResolvedWith(cfg, s, cs, g).published.latest);
    var lowest := LowestOf(cs, g.orders);
    var w := Resolution(cs, s.published.latest, g.orders, g.answers);
    assert EndsAtGreatest(cs.Keys, g.answers, lowest.number, lowest.hash, lowest.number, w);
  }

  /** A group update changes what it publishes and nothing else; while the walk has not ended it changes
      nothing. The group is the candidates, in configured order. */
  lemma UpdateExact(cfg: Config, s: PollerState, cs: Candidates, g: GroupInput) returns (at: seq<nat>)
    requires OrdersOf(g.orders, cs.Keys)
    ensures var t := ResolvedWith(cfg, s, cs, g);
            var w := Resolution(cs, s.published.latest, g.orders, g.answers);
            && t.records == s.records
            && (w.None? ==> t == s)
            && (w.Some? ==>
                  && t.published.latest == w.value.height
                  && t.invoked == s.invoked + (if w.value.broken then cfg.listeners else [])
                  && Picks(cfg.backends, t.group, at) && PicksAll(cfg.backends, at, cs.Keys))
  {
    at := PresentInOrder(cfg.backends, cs);
  }

  /** The block where the walk starts and the two minima, over the records of these backends. */
  ghost predicate RecordMinima(records: map<Backend, BackendState>, members: set<Backend>, start: Block, p: Triple)
    requires members <= records.Keys
  {
    && (exists be :: be in members && start == Block(records[be].latest, records[be].latestHash))
    && (exists be :: be in members && p.safe == records[be].safe)
    && (exists be :: be in members && p.finalized == records[be].finalized)
    && (forall be :: be in members ==>
          start.number <= records[be].latest && p.safe <= records[be].safe && p.finalized <= records[be].finalized)
  }

  /** Candidates carry the records of their backends. */
  ghost predicate Carries(records: map<Backend, BackendState>, cs: Candidates) {
    forall be :: be in cs ==> be in records && cs[be] == records[be]
  }

  lemma CarryRecords(cfg: Config, s: PollerState, g: GroupInput)
    requires Tracked(cfg, s.records)
    ensures Carries(s.records, CandidatesFor(cfg, s, g))
  {
    forall be | be in CandidatesFor(cfg, s, g)
      ensures be in s.records && CandidatesFor(cfg, s, g)[be] == s.records[be]
    {
      CandidatesExactly(cfg, s.records, g.now, g.healthy, be);
    }
  }

  lemma MinimaOfRecords(records: map<Backend, BackendState>, cs: Candidates, orders: Orders, p: Triple)
    requires OrdersOf(orders, cs.Keys) && StartsAtMinima(cs, orders, p) && Carries(records, cs)
    ensures RecordMinima(records, cs.Keys, LowestOf(cs, orders), p)
  {
  }

  lemma AgreesOnRecords(cfg: Config, s: PollerState, cs: Candidates, g: GroupInput)
    requires OrdersOf(g.orders, cs.Keys) && HashesNamed(g.answers) && AllNonZero(cs) && cs != map[]
    requires Carries(s.records, cs)
    ensures var lowest := LowestOf(cs, g.orders);
            var w := Resolution(cs, s.published.latest, g.orders, g.answers);
            var after := ResolvedWith(cfg, s, cs, g);
            && (w.Some? ==> RecordMinima(s.records, cs.Keys, lowest, after.published))
            && (SettlesAtOrBelow(cs.Keys, g.answers, lowest.number, lowest.hash, lowest.number) ==>
                  && EndsAtGreatest(cs.Keys, g.answers, lowest.number, lowest.hash, lowest.number, w)
                  && after.published.latest == w.value.height)
  {
    UpdateAgrees(cfg, s, cs, g);
    var w := Resolution(cs, s.published.latest, g.orders, g.answers);
    if w.Some? {
      NonZeroGroupUpdate(cs, g.orders, w.value.height);
      MinimaOfRecords(s.records, cs, g.orders, ResolvedWith(cfg, s, cs, g).published);
    }
  }

  // ---------------------------------------------------------------- every run

  /** The poller between steps: `unjudged` holds, for each poll that has written its record and not yet
      judged it, the record before that poll. */
  datatype RunState = RunState(poller: PollerState, unjudged: map<Backend, BackendState>)

  /** A poll writes and then judges; group updates and polls of other backends may come between. */
  datatype Event =
    | Write(backend: Backend, probe: Probe, at: Moments)
    | Judge(backend: Backend, ban: nat)
    | Resolve(input: GroupInput)

  /** When an event may happen: the clock never goes back, a backend is polled by one poller, and a map
      is enumerated in some order. A poll may have started before other events took place. */
  ghost predicate Admissible(cfg: Config, s: RunState, clock: nat, e: Event) {
    match e
    case Write(be, _, at) =>
      be in cfg.backends && be !in s.unjudged && at.start <= at.write && clock <= at.write <= at.ban
    case Judge(be, ban) => be in cfg.backends && be in s.unjudged && clock <= ban
    case Resolve(g) => clock <= g.now && Fits(cfg, s.poller, g)
  }

  function ClockAfter(e: Event): nat {
    match e case Write(_, _, at) => at.ban case Judge(_, ban) => ban case Resolve(g) => g.now
  }

  ghost function Applied(cfg: Config, s: RunState, clock: nat, e: Event): RunState
    requires Tracked(cfg, s.poller.records) && Admissible(cfg, s, clock, e)
  {
    var records := s.poller.records;
    match e
    case Write(be, p, at) =>
      var w := Written(cfg, be, records[be], p, at);
      RunState(s.poller.(records := records[be := w.record]),
               if w.judge then s.unjudged[be := records[be]] else s.unjudged)
    case Judge(be, ban) =>
      var judged := Judged(cfg, be, s.unjudged[be], records[be], ban);
      RunState(s.poller.(records := records[be := judged]), s.unjudged - {be})
    case Resolve(g) => s.(poller := Resolved(cfg, s.poller, g))
  }

  /** `events` leads from s to t, each one admissible when it happens; `until` is the clock at the end. */
  ghost predicate Reaches(cfg: Config, s: RunState, clock: nat, events: seq<Event>, t: RunState, until: nat)
    decreases events
  {
    if events == [] then s == t && clock == until
    else
      && Tracked(cfg, s.poller.records)
      && Admissible(cfg, s, clock, events[0])
      && Reaches(cfg, Applied(cfg, s, clock, events[0]), ClockAfter(events[0]), events[1..], t, until)
  }

  function Beginning(cfg: Config): RunState {
    RunState(Initial(cfg), map[])
  }

  /** The assumptions of the run theorem: bans outlast staleness, and the clock is past the staleness
      threshold counted from the zero time. */
  ghost predicate Regular(cfg: Config, clock: nat) {
    cfg.banPeriod > cfg.maxUpdateThreshold && clock > cfg.maxUpdateThreshold
  }

  ghost predicate Ordered(bs: BackendState) {
    bs.finalized <= bs.safe <= bs.latest
  }

  ghost predicate NonZero(bs: BackendState) {
    bs.latest != 0 && bs.safe != 0 && bs.finalized != 0
  }

  /** What a record can be: written and not yet judged, or of a forced candidate and not yet written or
      without zeros, or sound, or one that cannot qualify, being banned past its staleness or not yet
      written. */
  ghost predicate Settled(cfg: Config, be: Backend, bs: BackendState, unjudged: bool, clock: nat) {
    && bs.lastUpdate <= clock
    && if unjudged then NonZero(bs) && bs.lastUpdate != 0
       else if be.forcedCandidate then bs == FRESH || (NonZero(bs) && bs.lastUpdate != 0)
       else Sound(bs) || bs.lastUpdate + cfg.maxUpdateThreshold < bs.bannedUntil || bs.lastUpdate == 0
  }

  ghost predicate Inv(cfg: Config, s: RunState, clock: nat) {
    && Tracked(cfg, s.poller.records)
    && (forall be :: be in cfg.backends ==> Settled(cfg, be, s.poller.records[be], be in s.unjudged, clock))
  }

  lemma WriteKeepsSettled(cfg: Config, be: Backend, bs: BackendState, p: Probe, at: Moments, clock: nat)
    requires Regular(cfg, clock) && clock <= at.write <= at.ban
    requires Settled(cfg, be, bs, false, clock)
    ensures var w := Written(cfg, be, bs, p, at);
            Settled(cfg, be, w.record, w.judge, at.ban)
  {
  }

  lemma JudgeKeepsSettled(cfg: Config, be: Backend, before: BackendState, bs: BackendState, ban: nat, clock: nat)
    requires Regular(cfg, clock) && clock <= ban && Settled(cfg, be, bs, true, clock)
    ensures Settled(cfg, be, Judged(cfg, be, before, bs, ban), false, ban)
  {
  }

  /** A write and then its judgment, with nothing between, is a whole poll. */
  lemma WriteThenJudge(cfg: Config, s: RunState, clock: nat, be: Backend, p: Probe, at: Moments)
    requires Tracked(cfg, s.poller.records) && Admissible(cfg, s, clock, Write(be, p, at))
    ensures var m := Applied(cfg, s, clock, Write(be, p, at));
            && (be in m.unjudged ==> Admissible(cfg, m, at.ban, Judge(be, at.ban)))
            && var t := if be in m.unjudged then Applied(cfg, m, at.ban, Judge(be, at.ban)) else m;
               && t.unjudged == s.unjudged
               && t.poller == s.poller.(records := s.poller.records[be := Polled(cfg, be, s.poller.records[be], p, at)])
  {
  }

  /** Which candidates may be trusted: a forced one only once it was written, and a forced or unjudged
      one only if its tags are in order. */
  ghost predicate Trusted(s: RunState, cs: Candidates) {
    forall be :: be in cs ==>
      && (be.forcedCandidate ==> cs[be].lastUpdate != 0)
      && (be.forcedCandidate || be in s.unjudged ==> Ordered(cs[be]))
  }

  /** Whoever qualifies has a sound record, exactly unless it is forced and unwritten, or forced or
      unjudged and out of order. */
  lemma CandidatesSoundIff(cfg: Config, s: RunState, clock: nat, g: GroupInput)
    requires Regular(cfg, clock) && Inv(cfg, s, clock) && clock <= g.now
    ensures var cs := CandidatesFor(cfg, s.poller, g);
            && (AllSound(cs) <==> Trusted(s, cs))
            && (AllNonZero(cs) <==> forall be :: be in cs && be.forcedCandidate ==> cs[be].lastUpdate != 0)
  {
    var cs := CandidatesFor(cfg, s.poller, g);
    forall be | be in cs
      ensures Sound(cs[be]) <==> && (be.forcedCandidate ==> cs[be].lastUpdate != 0)
                                 && (be.forcedCandidate || be in s.unjudged ==> Ordered(cs[be]))
      ensures NonZero(cs[be]) <==> (be.forcedCandidate ==> cs[be].lastUpdate != 0)
    {
      assert be in Primaries(cfg) || be in Fallbacks(cfg);
      assert Settled(cfg, be, s.poller.records[be], be in s.unjudged, clock);
    }
  }

  /** Every group update of the run finds only trusted candidates. */
  ghost predicate TrustedRun(cfg: Config, s: RunState, clock: nat, events: seq<Event>)
    decreases events
  {
    events != [] ==>
      && Tracked(cfg, s.poller.records)
      && Admissible(cfg, s, clock, events[0])
      && (events[0].Resolve? ==> Trusted(s, CandidatesFor(cfg, s.poller, events[0].input)))
      && TrustedRun(cfg, Applied(cfg, s, clock, events[0]), ClockAfter(events[0]), events[1..])
  }

  lemma UpdateKeepsOrder(cfg: Config, s: PollerState, cs: Candidates, g: GroupInput)
    requires OrdersOf(g.orders, cs.Keys) && AllSound(cs)
    ensures var t := ResolvedWith(cfg, s, cs, g);
            && t.records == s.records
            && (s.published.finalized <= s.published.safe ==> t.published.finalized <= t.published.safe)
            && (cs != map[] && Resolution(cs, s.published.latest, g.orders, g.answers).Some? ==>
                  PublishesMinima(cs, g.orders, t.published))
  {
    var w := Resolution(cs, s.published.latest, g.orders, g.answers);
    if cs == map[] {
      EmptyGroupUpdate(cfg, s, g);
    } else if w.Some? {
      SoundGroupUpdate(cs, g.orders, w.value.height);
    }
  }

  lemma StepKeepsInv(cfg: Config, s: RunState, clock: nat, e: Event)
    requires Regular(cfg, clock) && Inv(cfg, s, clock) && Admissible(cfg, s, clock, e)
    ensures Inv(cfg, Applied(cfg, s, clock, e), ClockAfter(e)) && clock <= ClockAfter(e)
  {
    assert forall be :: be in cfg.backends ==> Settled(cfg, be, s.poller.records[be], be in s.unjudged, clock);
    match e {
      case Write(be, p, at) => WriteKeepsSettled(cfg, be, s.poller.records[be], p, at, clock);
      case Judge(be, ban) => JudgeKeepsSettled(cfg, be, s.unjudged[be], s.poller.records[be], ban, clock);
      case Resolve(g) => assert Resolved(cfg, s.poller, g).records == s.poller.records;
    }
  }

  lemma {:induction false} RunKeepsInv(cfg: Config, s: RunState, clock: nat, events: seq<Event>, t: RunState,
                                       until: nat)
    requires Regular(cfg, clock) && Inv(cfg, s, clock) && Reaches(cfg, s, clock, events, t, until)
    ensures Inv(cfg, t, until) && clock <= until
    decreases events
  {
    if events != [] {
      var e := events[0];
      StepKeepsInv(cfg, s, clock, e);
      RunKeepsInv(cfg, Applied(cfg, s, clock, e), ClockAfter(e), events[1..], t, until);
    }
  }

  lemma {:induction false} TrustedRunKeepsOrder(cfg: Config, s: RunState, clock: nat, events: seq<Event>,
                                                t: RunState, until: nat)
    requires Regular(cfg, clock) && Inv(cfg, s, clock) && Reaches(cfg, s, clock, events, t, until)
    requires TrustedRun(cfg, s, clock, events) && s.poller.published.finalized <= s.poller.published.safe
    ensures t.poller.published.finalized <= t.poller.published.safe
    decreases events
  {
    if events != [] {
      var e := events[0];
      StepKeepsInv(cfg, s, clock, e);
      if e.Resolve? {
        CandidatesSoundIff(cfg, s, clock, e.input);
        UpdateKeepsOrder(cfg, s.poller, CandidatesFor(cfg, s.poller, e.input), e.input);
      }
      TrustedRunKeepsOrder(cfg, Applied(cfg, s, clock, e), ClockAfter(e), events[1..], t, until);
    }
  }

  /** The poller over every run, polls being interrupted between write and judgment: in any state it can
      reach, the backends that qualify all have 0 < finalized <= safe <= latest if and only if they are
      trusted; the group update that follows then publishes true minima with finalized <= safe <= the
      lowest candidate latest. */
  lemma EveryRun(cfg: Config, clock: nat, events: seq<Event>, t: RunState, until: nat, g: GroupInput)
    requires Regular(cfg, clock) && Reaches(cfg, Beginning(cfg), clock, events, t, until)
    requires until <= g.now && Fits(cfg, t.poller, g)
    ensures var cs, records := CandidatesFor(cfg, t.poller, g), t.poller.records;
            && cs.Keys <= records.Keys
            && ((forall be :: be in cs ==> Sound(records[be])) <==> Trusted(t, cs))
            && (Trusted(t, cs) && cs != map[]
                && Resolution(cs, t.poller.published.latest, g.orders, g.answers).Some? ==>
                  var lowest, p := LowestOf(cs, g.orders), Resolved(cfg, t.poller, g).published;
                  RecordMinima(records, cs.Keys, lowest, p) && 0 < p.finalized <= p.safe <= lowest.number)
  {
    RunKeepsInv(cfg, Beginning(cfg), clock, events, t, until);
    CandidatesSoundIff(cfg, t, until, g);
    var cs := CandidatesFor(cfg, t.poller, g);
    CarryRecords(cfg, t.poller, g);
    if AllSound(cs) {
      UpdateKeepsOrder(cfg, t.poller, cs, g);
      if cs != map[] && Resolution(cs, t.poller.published.latest, g.orders, g.answers).Some? {
        MinimaOfRecords(t.poller.records, cs, g.orders, Resolved(cfg, t.poller, g).published);
      }
    }
  }

  /** Published finalized never exceeds published safe in a run whose updates find trusted candidates. */
  lemma EveryTrustedRun(cfg: Config, clock: nat, events: seq<Event>, t: RunState, until: nat)
    requires Regular(cfg, clock) && Reaches(cfg, Beginning(cfg), clock, events, t, until)
    requires TrustedRun(cfg, Beginning(cfg), clock, events)
    ensures t.poller.published.finalized <= t.poller.published.safe
  {
    TrustedRunKeepsOrder(cfg, Beginning(cfg), clock, events, t, until);
  }

  /** And from any state it can reach, once every forced candidate was written, the group update
      publishes the greatest block at or below the lowest candidate latest on which the answering
      candidates agree, whenever there is one. */
  lemma EveryRunAgrees(cfg: Config, clock: nat, events: seq<Event>, t: RunState, until: nat, g: GroupInput)
    requires Regular(cfg, clock) && Reaches(cfg, Beginning(cfg), clock, events, t, until)
    requires until <= g.now && Fits(cfg, t.poller, g) && HashesNamed(g.answers)
    requires var cs := CandidatesFor(cfg, t.poller, g);
             cs != map[] && forall be :: be in cs && be.forcedCandidate ==> cs[be].lastUpdate != 0
    ensures var cs, records := CandidatesFor(cfg, t.poller, g), t.poller.records;
            var lowest := LowestOf(cs, g.orders);
            var w := Resolution(cs, t.poller.published.latest, g.orders, g.answers);
            var after := Resolved(cfg, t.poller, g);
            && cs.Keys <= records.Keys
            && (w.Some? ==> RecordMinima(records, cs.Keys, lowest, after.published))
            && (SettlesAtOrBelow(cs.Keys, g.answers, lowest.number, lowest.hash, lowest.number) ==>
                  && EndsAtGreatest(cs.Keys, g.answers, lowest.number, lowest.hash, lowest.number, w)
                  && after.published.latest == w.value.height)
  {
    RunKeepsInv(cfg, Beginning(cfg), clock, events, t, until);
    CandidatesSoundIff(cfg, t, until, g);
    CarryRecords(cfg, t.poller, g);
    AgreesOnRecords(cfg, t.poller, CandidatesFor(cfg, t.poller, g), g);
  }

  /** An untrusted candidate does occur: whenever a poll reads tags that are not in order, a group update
      between its write and its judgment finds the backend eligible, and one after it does not. */
  lemma UnjudgedRecordIsEligible(cfg: Config, be: Backend, bs: BackendState, p: Probe, at: Moments,
                                 healthy: set<Backend>)
    requires at.start >= bs.bannedUntil && at.start <= at.write <= at.ban && p.healthy && !be.forcedCandidate
    requires Observed(be, bs, p, at.write).Some? && p.inSync.value && be in healthy
    requires be.skipPeerCountCheck || p.peerCount.value >= cfg.minPeerCount
    requires !(p.finalized.value <= p.safe.value <= p.latest.value.number) && cfg.banPeriod > 0
    ensures var written := Observed(be, bs, p, at.write).value;
            && Written(cfg, be, bs, p, at) == Writing(written, true)
            && Eligible(cfg, be, written, at.write, healthy) && !Sound(written)
            && !Eligible(cfg, be, Polled(cfg, be, bs, p, at), at.ban, healthy)
  {
    assert !ExpectedBlockTags(be, p.latest.value.number, bs.safe, p.safe.value, bs.finalized, p.finalized.value);
  }

  /** Why bans must outlast staleness: a banned backend, its heights erased, qualifies again if and only
      if its ban ends before its record is stale (and its record passes the other checks). */
  lemma BannedQualifiesIff(cfg: Config, be: Backend, bs: BackendState, ban: nat, healthy: set<Backend>)
    requires !be.forcedCandidate
    ensures (exists now: nat :: Eligible(cfg, be, Banned(cfg, be, bs, ban), now, healthy)) <==>
              && be in healthy
              && (be.skipPeerCountCheck || bs.peerCount >= cfg.minPeerCount)
              && (be.skipIsSyncingCheck || bs.inSync)
              && ban + cfg.banPeriod <= bs.lastUpdate + cfg.maxUpdateThreshold
    ensures !Sound(Banned(cfg, be, bs, ban))
  {
    var banned := Banned(cfg, be, bs, ban);
    if ban + cfg.banPeriod <= bs.lastUpdate + cfg.maxUpdateThreshold {
      assert Eligible(cfg, be, banned, banned.bannedUntil, healthy) <==>
               && be in healthy
               && (be.skipPeerCountCheck || bs.peerCount >= cfg.minPeerCount)
               && (be.skipIsSyncingCheck || bs.inSync);
    }
  }

  /** So does a forced one: before its first poll a lone forced primary qualifies unsound. */
  lemma ForcedCandidateUnsound(cfg: Config, be: Backend, g: GroupInput)
    requires cfg.backends == [be] && be.forcedCandidate && be.name in cfg.fallback && !cfg.fallback[be.name]
    ensures be in CandidatesFor(cfg, Initial(cfg), g) && !AllSound(CandidatesFor(cfg, Initial(cfg), g))
  {
    var s := Initial(cfg);
    assert be in cfg.backends && be in Primaries(cfg);
    FilterKeepsHighest(cfg, s.records, Primaries(cfg), g.now, g.healthy);
    var cs := Filtered(cfg, s.records, Primaries(cfg), g.now, g.healthy);
    assert forall b :: b in Primaries(cfg) ==> b == be;
    assert be in cs && |cs| > 0;
  }
}
