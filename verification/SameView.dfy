/** Why the poller and the rewriter belong together: once requests are pinned to the agreed block, the
    choice of backend no longer decides which block is read. */
module SameView {
  import opened Common
  import opened WalkBack
  import opened PollerSpec
  import opened Rewriter
  import opened RewriterMeaning

  /** Chains are linked by hashes: two nodes with one hash at a height have one history below it. */
  ghost predicate Linked(answers: Answers) {
    forall a, b, h, n :: n <= h
      && (a, h) in answers && (b, h) in answers && (a, n) in answers && (b, n) in answers
      && answers[(a, h)].hash == answers[(b, h)].hash
      ==> answers[(a, n)].hash == answers[(b, n)].hash
  }

  /** The group update has just ended at this height, without the height wrapping around. */
  ghost predicate JustResolved(cs: Candidates, current: nat, g: GroupInput, height: nat)
    requires OrdersOf(g.orders, cs.Keys)
  {
    var w := Resolution(cs, current, g.orders, g.answers);
    && LowestOf(cs, g.orders).number > 0
    && w.Some? && w.value.rounds <= LowestOf(cs, g.orders).number
    && w.value.height == height
  }

  /** Two candidates that answered the final round name one block at every height up to the agreed one. */
  lemma OneBlockBelow(cs: Candidates, current: nat, g: GroupInput, height: nat, a: Backend, b: Backend, n: nat)
    requires OrdersOf(g.orders, cs.Keys) && HashesNamed(g.answers) && Linked(g.answers)
    requires JustResolved(cs, current, g, height) && n <= height
    requires a in cs && b in cs && (a, height) in g.answers && (b, height) in g.answers
    requires (a, n) in g.answers && (b, n) in g.answers
    ensures g.answers[(a, n)].hash == g.answers[(b, n)].hash
  {
    var lowest := LowestOf(cs, g.orders);
    WalkEnds(g.orders, cs.Keys, g.answers, lowest.number, lowest.hash, current);
    assert g.answers[(a, height)].hash == g.answers[(b, height)].hash;
  }

  /** Same view from every backend: a block parameter that is forwarded right after a group update and
      asks for a height up to the published latest is read by every group member as that height, and
      members that answered the final round hold the same block there. (A parameter that names no block
      is left open, and read so only by members whose latest is the published one.) */
  lemma SameBlockEverywhere(cfg: Config, s: PollerState, cs: Candidates, g: GroupInput, cap: nat, item: Json,
                            blockNrOrHash: bool, n: nat, a: Backend, b: Backend, ownA: Triple, ownB: Triple)
    requires OrdersOf(g.orders, cs.Keys) && HashesNamed(g.answers) && Linked(g.answers)
    requires JustResolved(cs, s.published.latest, g, ResolvedWith(cfg, s, cs, g).published.latest)
    requires var ctx := RewriteContext(ResolvedWith(cfg, s, cs, g).published, cap);
             && InContext(ctx) && Signed(ctx.view)
             && !RewriteItem(ctx, item, blockNrOrHash).Refused?
             && MeaningOf(item, ctx.view) == At(n) && n <= ctx.view.latest
             && (LeftOpen(item) ==> ownA.latest == ownB.latest == ctx.view.latest)
    requires var t := ResolvedWith(cfg, s, cs, g);
             && a in t.group && b in t.group
             && (a, t.published.latest) in g.answers && (b, t.published.latest) in g.answers
    requires (a, n) in g.answers && (b, n) in g.answers
    ensures var ctx := RewriteContext(ResolvedWith(cfg, s, cs, g).published, cap);
            var sent := SentItem(item, RewriteItem(ctx, item, blockNrOrHash));
            && MeaningOf(sent, ownA) == At(n) == MeaningOf(sent, ownB)
            && g.answers[(a, n)].hash == g.answers[(b, n)].hash
  {
    var ctx := RewriteContext(ResolvedWith(cfg, s, cs, g).published, cap);
    ItemMeaning(ctx, item, blockNrOrHash, ownA);
    ItemMeaning(ctx, item, blockNrOrHash, ownB);
    OneBlockBelow(cs, s.published.latest, g, ctx.view.latest, a, b, n);
  }

  /** Every accepted height, and the latest and earliest tags, stay within the published latest; only
      the safe and finalized tags may lie above it. */
  lemma AcceptedWithinLatest(ctx: RewriteContext, item: Json, blockNrOrHash: bool, n: nat)
    requires InContext(ctx) && Signed(ctx.view) && !RewriteItem(ctx, item, blockNrOrHash).Refused?
    requires MeaningOf(item, ctx.view) == At(n)
    ensures n <= ctx.view.latest
         || Decode(item) == Some(ByNumber(SafeNumber)) || Decode(item) == Some(ByNumber(FinalizedNumber))
  {
    ItemMeaning(ctx, item, blockNrOrHash, ctx.view);
  }

  // ---------------------------------------------------------------- choosing a backend

  /** The order holds the healthy members of the group, each as often as the group does. */
  ghost predicate Routed(group: seq<Backend>, healthy: set<Backend>, order: seq<Backend>) {
    forall be :: multiset(order)[be] == if be in healthy then multiset(group)[be] else 0
  }

  /** loadBalancedConsensusGroup: the healthy members of the group, degraded ones last, each part in
      some shuffled order. */
  method LoadBalancedConsensusGroup(group: seq<Backend>, healthy: set<Backend>, degraded: set<Backend>,
                                    shuffle: seq<Backend> -> seq<Backend>,
                                    shuffleDegraded: seq<Backend> -> seq<Backend>)
    returns (order: seq<Backend>, ghost split: nat)
    requires forall s :: multiset(shuffle(s)) == multiset(s)
    requires forall s :: multiset(shuffleDegraded(s)) == multiset(s)
    ensures Routed(group, healthy, order)
    ensures split <= |order|
    ensures forall i :: 0 <= i < |order| ==> (order[i] in degraded <==> i >= split)
  {
    var fine: seq<Backend>, slow: seq<Backend> := [], [];
    for i := 0 to |group|
      invariant forall be :: multiset(fine)[be]
                          == if be in healthy && be !in degraded then multiset(group[..i])[be] else 0
      invariant forall be :: multiset(slow)[be]
                          == if be in healthy && be in degraded then multiset(group[..i])[be] else 0
    {
      assert group[..i + 1] == group[..i] + [group[i]];
      if group[i] !in healthy { continue; }
      if group[i] in degraded {
        slow := slow + [group[i]];
        continue;
      }
      fine := fine + [group[i]];
    }
    assert group[..|group|] == group;
    var first, last := shuffle(fine), shuffleDegraded(slow);
    split := |first|;
    order := first + last;
    forall i | 0 <= i < |order| ensures order[i] in degraded <==> i >= split {
      if i < split {
        assert order[i] in multiset(first);
      } else {
        assert last[i - split] in multiset(last);
      }
    }
  }

  /** The choice of backend does not matter: any two positions of the order a request is routed by, held
      by backends that answered the final round, read the same block. */
  lemma AnyRouteSameBlock(cfg: Config, s: PollerState, cs: Candidates, g: GroupInput, cap: nat, item: Json,
                          blockNrOrHash: bool, n: nat, healthy: set<Backend>, order: seq<Backend>, i: nat, j: nat,
                          ownI: Triple, ownJ: Triple)
    requires OrdersOf(g.orders, cs.Keys) && HashesNamed(g.answers) && Linked(g.answers)
    requires JustResolved(cs, s.published.latest, g, ResolvedWith(cfg, s, cs, g).published.latest)
    requires var ctx := RewriteContext(ResolvedWith(cfg, s, cs, g).published, cap);
             && InContext(ctx) && Signed(ctx.view)
             && !RewriteItem(ctx, item, blockNrOrHash).Refused?
             && MeaningOf(item, ctx.view) == At(n) && n <= ctx.view.latest
             && (LeftOpen(item) ==> ownI.latest == ownJ.latest == ctx.view.latest)
    requires Routed(ResolvedWith(cfg, s, cs, g).group, healthy, order) && i < |order| && j < |order|
    requires var latest := ResolvedWith(cfg, s, cs, g).published.latest;
             (order[i], latest) in g.answers && (order[j], latest) in g.answers
    requires (order[i], n) in g.answers && (order[j], n) in g.answers
    ensures var ctx := RewriteContext(ResolvedWith(cfg, s, cs, g).published, cap);
            var sent := SentItem(item, RewriteItem(ctx, item, blockNrOrHash));
            && MeaningOf(sent, ownI) == At(n) == MeaningOf(sent, ownJ)
            && g.answers[(order[i], n)].hash == g.answers[(order[j], n)].hash
  {
    var group := ResolvedWith(cfg, s, cs, g).group;
    assert order[i] in multiset(order) && order[j] in multiset(order);
    assert order[i] in multiset(group) && order[j] in multiset(group);
    SameBlockEverywhere(cfg, s, cs, g, cap, item, blockNrOrHash, n, order[i], order[j], ownI, ownJ);
  }

  // ---------------------------------------------------------------- the limit of the guarantee

  function Node(name: string): Backend { Backend(name, false, false, false, 0, 0) }

  const LEFT := Node("left")
  const RIGHT := Node("right")
  const SPLIT_ANSWERS: Answers := map[
    (LEFT, 2) := Block(2, "0xaa"), (RIGHT, 2) := Block(2, "0xbb"),
    (LEFT, 1) := Block(1, "0x11"), (RIGHT, 1) := Block(1, "0x11")]
  const SPLIT: Candidates := map[
    LEFT := BackendState(2, "0xaa", 2, 1, 9, true, 5, 0), RIGHT := BackendState(2, "0xbb", 2, 1, 9, true, 5, 0)]

  function LeftFirst(k: nat): seq<Backend> { [LEFT, RIGHT] }

  lemma SplitOrders()
    ensures SPLIT.Keys == {LEFT, RIGHT} && OrdersOf(LeftFirst, SPLIT.Keys)
  {
    assert LEFT != RIGHT by { assert LEFT.name[0] == 'l' && RIGHT.name[0] == 'r'; }
    forall k: nat ensures Enumerates(LeftFirst(k), SPLIT.Keys) {
      assert forall b :: b in LeftFirst(k) <==> b == LEFT || b == RIGHT;
    }
  }

  lemma SplitFolds()
    requires OrdersOf(LeftFirst, SPLIT.Keys)
    ensures LowestOf(SPLIT, LeftFirst) == Block(2, "0xaa")
    ensures Publication(SPLIT, LeftFirst, 1) == Triple(1, 2, 1)
  {
    assert LeftFirst(0)[1..] == [RIGHT] && [RIGHT][1..] == [];
    var ls := Latests(LeftFirst(0), SPLIT);
    assert ls == [Block(2, "0xaa"), Block(2, "0xbb")] && ls[1..] == [Block(2, "0xbb")];
    assert LowestBlockFrom(Block(2, "0xaa"), [Block(2, "0xbb")]) == Block(2, "0xaa");
    var safes := Column(LeftFirst(0), SPLIT, SafeOf);
    assert safes == [2, 2] && safes[1..] == [2] && LowestFrom(2, [2]) == 2;
    var finals := Column(LeftFirst(0), SPLIT, FinalizedOf);
    assert finals == [1, 1] && finals[1..] == [1] && LowestFrom(1, [1]) == 1;
  }

  lemma SplitSettles()
    ensures Settles({LEFT, RIGHT}, SPLIT_ANSWERS, 2, "0xaa", 1)
    ensures !Settles({LEFT, RIGHT}, SPLIT_ANSWERS, 2, "0xaa", 2)
    ensures HashesNamed(SPLIT_ANSWERS) && Linked(SPLIT_ANSWERS)
  {
    assert RIGHT in {LEFT, RIGHT} && SPLIT_ANSWERS[(RIGHT, 2)].hash == "0xbb";
  }

  /** The walk lowers latest only. Here two linked chains part at block 2, which both nodes report as
      safe: latest is published as 1, safe as 2, and a request for safe is pinned to a height at which
      the two nodes hold different blocks. */
  lemma SafeCanExceedLatest(current: nat)
    ensures var g := GroupInput(0, {}, LeftFirst, SPLIT_ANSWERS);
            && OrdersOf(LeftFirst, SPLIT.Keys) && HashesNamed(SPLIT_ANSWERS) && Linked(SPLIT_ANSWERS)
            && JustResolved(SPLIT, current, g, 1)
            && Publication(SPLIT, LeftFirst, 1) == Triple(1, 2, 1)
            && RewriteTag(RewriteContext(Triple(1, 2, 1), 0), Safe) == Replaced(Quantity(2))
            && SPLIT_ANSWERS[(LEFT, 2)].hash != SPLIT_ANSWERS[(RIGHT, 2)].hash
  {
    SplitOrders();
    SplitFolds();
    SplitSettles();
    WalkEnds(LeftFirst, SPLIT.Keys, SPLIT_ANSWERS, 2, "0xaa", current);
  }
}
