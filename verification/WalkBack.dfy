/** The resolution of the group's latest block (consensus_poller.go, UpdateBackendGroupConsensus):
    a minimum over the candidates, then a walk towards older blocks until the candidates agree. */
module WalkBack {
  import opened Common

  datatype Backend = Backend(
    name: string,
    forcedCandidate: bool,
    skipPeerCountCheck: bool,
    skipIsSyncingCheck: bool,
    safeDriftThreshold: nat,
    finalizedDriftThreshold: nat)

  datatype Block = Block(number: Uint64, hash: string)

  /** What each backend answers when asked for a height; an absent entry is a failed fetch.
      Before the height wraps around, no pair is asked for twice in one group update. */
  type Answers = map<(Backend, nat), Block>

  // ---------------------------------------------------------------- minimum with a zero sentinel

  /** The fold of the source: zero stands for "nothing seen yet". */
  function LowestFrom(acc: nat, xs: seq<nat>): nat
    decreases xs
  {
    if xs == [] then acc
    else LowestFrom(if acc == 0 || xs[0] < acc then xs[0] else acc, xs[1..])
  }

  ghost predicate IsMinimum(m: nat, xs: seq<nat>) {
    m in xs && forall x :: x in xs ==> m <= x
  }

  /** The fold is a minimum while no zero comes by, and it is zero exactly when the last value is. */
  lemma {:induction false} LowestFromCases(acc: nat, xs: seq<nat>)
    requires xs != []
    ensures var m := LowestFrom(acc, xs);
            && (0 !in xs ==> (forall x :: x in xs ==> m <= x) && (m in xs || (m == acc && acc != 0)))
            && (0 !in xs && acc != 0 ==> m <= acc)
            && (m == 0 <==> xs[|xs| - 1] == 0)
    decreases xs
  {
    var next := if acc == 0 || xs[0] < acc then xs[0] else acc;
    assert xs == [xs[0]] + xs[1..];
    if |xs| > 1 {
      LowestFromCases(next, xs[1..]);
    }
  }

  /** The fold is the true minimum exactly when no value is zero or the last one is. */
  lemma LowestIsMinimumIff(xs: seq<nat>)
    requires xs != []
    ensures IsMinimum(LowestFrom(0, xs), xs) <==> 0 !in xs || xs[|xs| - 1] == 0
  {
    LowestFromCases(0, xs);
  }

  // ---------------------------------------------------------------- one round of questions

  datatype Round = Round(agreed: bool, hash: string, broken: bool)

  /** The candidates are asked for `height` in iteration order; a failed fetch is skipped, an empty
      hash is filled from the first answer, and the first mismatch ends the round. */
  function PollRound(order: seq<Backend>, answers: Answers, height: nat, hash: string, current: nat): Round {
    if order == [] then Round(true, hash, false)
    else if (order[0], height) !in answers then PollRound(order[1..], answers, height, hash, current)
    else
      var a := answers[(order[0], height)];
      var common := if hash == "" then a.hash else hash;
      if a.number != height || a.hash != common then Round(false, common, current >= a.number)
      else PollRound(order[1..], answers, height, common, current)
  }

  /** Every candidate that answers returns this height with this hash. */
  ghost predicate Unanimous(members: set<Backend>, answers: Answers, height: nat, hash: string) {
    forall b :: b in members && (b, height) in answers
                ==> answers[(b, height)].number == height && answers[(b, height)].hash == hash
  }

  /** Every candidate that answers returns this height, and all of them with one hash. */
  ghost predicate Agree(members: set<Backend>, answers: Answers, height: nat) {
    && (forall b :: b in members && (b, height) in answers ==> answers[(b, height)].number == height)
    && (forall b, c :: b in members && c in members && (b, height) in answers && (c, height) in answers
                       ==> answers[(b, height)].hash == answers[(c, height)].hash)
  }

  ghost predicate HashesNamed(answers: Answers) {
    forall k :: k in answers ==> answers[k].hash != ""
  }

  /** What a round tests: agreement on the given hash, or on any one hash when none is given yet. */
  ghost predicate Acceptable(members: set<Backend>, answers: Answers, height: nat, hash: string) {
    if hash == "" then Agree(members, answers, height) else Unanimous(members, answers, height, hash)
  }

  function Members(order: seq<Backend>): set<Backend> {
    set b | b in order
  }

  /** A round succeeds exactly when the answering candidates agree, whatever the iteration order. */
  lemma {:induction false} RoundExact(order: seq<Backend>, answers: Answers, height: nat, hash: string, current: nat)
    requires HashesNamed(answers)
    ensures var r := PollRound(order, answers, height, hash, current);
            && (r.agreed <==> Acceptable(Members(order), answers, height, hash))
            && (r.agreed ==> Unanimous(Members(order), answers, height, r.hash))
            && (r.agreed && hash != "" ==> r.hash == hash)
            && (r.agreed ==> !r.broken)
  {
    if order != [] {
      var first, rest := order[0], order[1..];
      assert Members(order) == {first} + Members(rest);
      if (first, height) in answers {
        var a := answers[(first, height)];
        var common := if hash == "" then a.hash else hash;
        RoundExact(rest, answers, height, common, current);
        if Agree(Members(order), answers, height) {
          assert forall b :: b in Members(rest) && (b, height) in answers ==> answers[(b, height)].hash == a.hash;
        }
      } else {
        RoundExact(rest, answers, height, hash, current);
      }
    }
  }

  /** When every answer carries the number asked for, a failed round is a broken one exactly when
      the height was already published. */
  lemma {:induction false} RoundBroken(order: seq<Backend>, answers: Answers, height: nat, hash: string, current: nat)
    requires forall b :: b in order && (b, height) in answers ==> answers[(b, height)].number == height
    ensures var r := PollRound(order, answers, height, hash, current);
            r.broken <==> !r.agreed && current >= height
  {
    if order != [] {
      var hash' := if (order[0], height) in answers && hash == "" then answers[(order[0], height)].hash else hash;
      RoundBroken(order[1..], answers, height, hash', current);
    }
  }

  /** Where a round ends, on any answers: it agrees, or it stops at the first candidate whose answer has
      another number or another hash than the one known by then, and is broken if that number was
      already published. */
  lemma {:induction false} RoundStopsAt(order: seq<Backend>, answers: Answers, height: nat, hash: string, current: nat)
    returns (k: nat)
    ensures var r := PollRound(order, answers, height, hash, current);
            if r.agreed then k == |order| && !r.broken
            else
              && k < |order| && (order[k], height) in answers
              && var before, a := PollRound(order[..k], answers, height, hash, current), answers[(order[k], height)];
                 && before.agreed
                 && (a.number != height || (before.hash != "" && a.hash != before.hash))
                 && (r.broken <==> a.number <= current)
  {
    if order == [] {
      k := 0;
    } else {
      var known := if (order[0], height) in answers && hash == "" then answers[(order[0], height)].hash else hash;
      var rest := RoundStopsAt(order[1..], answers, height, known, current);
      if (order[0], height) in answers
         && (answers[(order[0], height)].number != height || answers[(order[0], height)].hash != known) {
        k := 0;
      } else {
        k := rest + 1;
        if k < |order| {
          assert order[..k][1..] == order[1..][..rest];
        }
      }
    }
  }

  // ---------------------------------------------------------------- rounds with empty hashes

  ghost predicate NumbersMatch(order: seq<Backend>, answers: Answers, height: nat) {
    forall b :: b in order && (b, height) in answers ==> answers[(b, height)].number == height
  }

  /** From position k on, the answering candidates return this hash. */
  ghost predicate SameFrom(order: seq<Backend>, answers: Answers, height: nat, k: nat, hash: string) {
    forall i :: k <= i < |order| && (order[i], height) in answers ==> answers[(order[i], height)].hash == hash
  }

  ghost predicate EmptyUpTo(order: seq<Backend>, answers: Answers, height: nat, k: nat) {
    forall i :: 0 <= i < k && i < |order| && (order[i], height) in answers ==> answers[(order[i], height)].hash == ""
  }

  ghost predicate SplitAt(order: seq<Backend>, answers: Answers, height: nat, k: nat, hash: string) {
    k <= |order| && EmptyUpTo(order, answers, height, k) && SameFrom(order, answers, height, k, hash)
  }

  /** First only empty hashes, and from some position on only one hash. */
  ghost predicate EmptyThenOne(order: seq<Backend>, answers: Answers, height: nat) {
    exists k: nat, hash :: SplitAt(order, answers, height, k, hash)
  }

  lemma SameFromFirst(order: seq<Backend>, answers: Answers, height: nat, hash: string)
    requires order != []
    ensures SameFrom(order, answers, height, 0, hash) <==>
              && SameFrom(order[1..], answers, height, 0, hash)
              && ((order[0], height) in answers ==> answers[(order[0], height)].hash == hash)
  {
    assert forall i :: 0 < i < |order| ==> order[i] == order[1..][i - 1];
  }

  /** What the first answer leaves to be tested. */
  lemma EmptyThenOneFirst(order: seq<Backend>, answers: Answers, height: nat)
    requires order != []
    ensures EmptyThenOne(order, answers, height) <==>
              if (order[0], height) in answers && answers[(order[0], height)].hash != ""
              then SameFrom(order[1..], answers, height, 0, answers[(order[0], height)].hash)
              else EmptyThenOne(order[1..], answers, height)
  {
    var rest := order[1..];
    assert forall i :: 0 < i < |order| ==> order[i] == rest[i - 1];
    if EmptyThenOne(order, answers, height) {
      var k: nat, hash :| SplitAt(order, answers, height, k, hash);
      var j := if k > 0 then k - 1 else 0;
      assert SplitAt(rest, answers, height, j, hash);
    }
    if EmptyThenOne(rest, answers, height) {
      var k: nat, hash :| SplitAt(rest, answers, height, k, hash);
      if (order[0], height) !in answers || answers[(order[0], height)].hash == "" {
        assert SplitAt(order, answers, height, k + 1, hash);
      }
    }
    if (order[0], height) in answers {
      var hash := answers[(order[0], height)].hash;
      SameFromFirst(order, answers, height, hash);
      assert SameFrom(order, answers, height, 0, hash) ==> SplitAt(order, answers, height, 0, hash);
    }
  }

  /** A round on any answers: with a known hash it tests for that hash, and without one for empty hashes
      followed by one common hash. */
  lemma {:induction false} RoundAny(order: seq<Backend>, answers: Answers, height: nat, hash: string, current: nat)
    ensures PollRound(order, answers, height, hash, current).agreed <==>
              && NumbersMatch(order, answers, height)
              && if hash != "" then SameFrom(order, answers, height, 0, hash) else EmptyThenOne(order, answers, height)
  {
    if order == [] {
      assert SplitAt(order, answers, height, 0, "");
    } else {
      var first, rest := order[0], order[1..];
      assert order == [first] + rest;
      var next := if (first, height) in answers && hash == "" then answers[(first, height)].hash else hash;
      RoundAny(rest, answers, height, next, current);
      assert NumbersMatch(order, answers, height) <==>
               NumbersMatch(rest, answers, height) && NumbersMatch([first], answers, height);
      SameFromFirst(order, answers, height, next);
      if hash == "" {
        EmptyThenOneFirst(order, answers, height);
      }
    }
  }

  ghost predicate Empty(members: set<Backend>, answers: Answers, height: nat, b: Backend) {
    b in members && (b, height) in answers && answers[(b, height)].hash == ""
  }

  ghost predicate Named(members: set<Backend>, answers: Answers, height: nat, b: Backend) {
    b in members && (b, height) in answers && answers[(b, height)].hash != ""
  }

  /** Empty and non-empty hashes are mixed, and nothing else is wrong. */
  ghost predicate Mixed(members: set<Backend>, answers: Answers, height: nat) {
    && (forall b :: b in members && (b, height) in answers ==> answers[(b, height)].number == height)
    && (exists b :: Empty(members, answers, height, b))
    && (exists b :: Named(members, answers, height, b))
    && (forall b, c :: Named(members, answers, height, b) && Named(members, answers, height, c)
                       ==> answers[(b, height)].hash == answers[(c, height)].hash)
  }

  /** Two iteration orders of the same candidates give different outcomes. */
  ghost predicate OrdersDiffer(members: set<Backend>, answers: Answers, height: nat, current: nat) {
    exists o1, o2 ::
      && Enumerates(o1, members) && Enumerates(o2, members)
      && PollRound(o1, answers, height, "", current).agreed && !PollRound(o2, answers, height, "", current).agreed
  }

  lemma {:induction false} SomeOrder(s: set<Backend>) returns (order: seq<Backend>)
    ensures Enumerates(order, s)
  {
    if s == {} {
      order := [];
    } else {
      var b :| b in s;
      var rest := SomeOrder(s - {b});
      order := [b] + rest;
    }
  }

  /** Two enumerations of disjoint sets, one after the other. */
  lemma OrdersJoin(a: seq<Backend>, b: seq<Backend>, s: set<Backend>, t: set<Backend>)
    requires Enumerates(a, s) && Enumerates(b, t) && s !! t
    ensures Enumerates(a + b, s + t)
  {
    assert forall i :: 0 <= i < |a| ==> a[i] in s;
    assert forall i :: 0 <= i < |b| ==> b[i] in t;
  }

  lemma NamedFirstFails(order: seq<Backend>, members: set<Backend>, answers: Answers, height: nat, current: nat)
    requires Mixed(members, answers, height) && Enumerates(order, members)
    requires order != [] && Named(members, answers, height, order[0])
    ensures !PollRound(order, answers, height, "", current).agreed
  {
    RoundAny(order, answers, height, "", current);
    EmptyThenOneFirst(order, answers, height);
    var b :| Empty(members, answers, height, b);
    assert b in order;
    var i :| 0 <= i < |order| && order[i] == b;
    assert order[1..][i - 1] == b;
  }

  lemma EmptiesFirstAgrees(e: seq<Backend>, rest: seq<Backend>, members: set<Backend>, answers: Answers, height: nat,
                           current: nat)
    requires Mixed(members, answers, height) && Enumerates(e + rest, members)
    requires forall b :: b in e <==> Empty(members, answers, height, b)
    ensures PollRound(e + rest, answers, height, "", current).agreed
  {
    var order := e + rest;
    var named :| Named(members, answers, height, named);
    var hash := answers[(named, height)].hash;
    forall i | |e| <= i < |order| && (order[i], height) in answers ensures answers[(order[i], height)].hash == hash {
      assert order[i] in order;
      assert forall j :: 0 <= j < |e| ==> order[j] == e[j];
      assert forall j :: 0 <= j < |e| ==> order[j] != order[i];
      assert order[i] !in e;
      assert !Empty(members, answers, height, order[i]);
      assert Named(members, answers, height, order[i]);
    }
    forall i | 0 <= i < |e| && (order[i], height) in answers ensures answers[(order[i], height)].hash == "" {
      assert order[i] in e;
    }
    assert SplitAt(order, answers, height, |e|, hash);
    RoundAny(order, answers, height, "", current);
  }

  /** Asked first, the empty hashes let the round succeed; asked after a named one, they fail it. */
  lemma MixedDiffer(members: set<Backend>, answers: Answers, height: nat, current: nat)
    requires Mixed(members, answers, height)
    ensures OrdersDiffer(members, answers, height, current)
  {
    var empties := set b | b in members && Empty(members, answers, height, b);
    var e := SomeOrder(empties);
    var rest := SomeOrder(members - empties);
    OrdersJoin(e, rest, empties, members - empties);
    assert empties + (members - empties) == members;
    EmptiesFirstAgrees(e, rest, members, answers, height, current);
    var named :| Named(members, answers, height, named);
    var others := SomeOrder(members - {named});
    OrdersJoin([named], others, {named}, members - {named});
    assert {named} + (members - {named}) == members;
    NamedFirstFails([named] + others, members, answers, height, current);
  }

  lemma OneNamedHash(order: seq<Backend>, members: set<Backend>, answers: Answers, height: nat)
    requires Enumerates(order, members) && EmptyThenOne(order, answers, height)
    ensures forall b, c :: Named(members, answers, height, b) && Named(members, answers, height, c)
                           ==> answers[(b, height)].hash == answers[(c, height)].hash
  {
    var k: nat, hash :| SplitAt(order, answers, height, k, hash);
    forall b | Named(members, answers, height, b) ensures answers[(b, height)].hash == hash {
      assert b in order;
      var i :| 0 <= i < |order| && order[i] == b;
    }
  }

  /** An order that fails has both an empty and a named hash, or two different named ones. */
  lemma NotAllOneHash(order: seq<Backend>, members: set<Backend>, answers: Answers, height: nat)
    requires Enumerates(order, members) && !EmptyThenOne(order, answers, height)
    requires forall b, c :: Named(members, answers, height, b) && Named(members, answers, height, c)
                            ==> answers[(b, height)].hash == answers[(c, height)].hash
    ensures exists b :: Empty(members, answers, height, b)
    ensures exists b :: Named(members, answers, height, b)
  {
    assert forall i :: 0 <= i < |order| ==> order[i] in members;
    if forall b :: !Named(members, answers, height, b) {
      forall i | 0 <= i < |order| && (order[i], height) in answers ensures answers[(order[i], height)].hash == "" {
        assert !Named(members, answers, height, order[i]);
      }
      assert SplitAt(order, answers, height, 0, "");
    }
    if forall b :: !Empty(members, answers, height, b) {
      var named :| Named(members, answers, height, named);
      forall i | 0 <= i < |order| && (order[i], height) in answers
        ensures answers[(order[i], height)].hash == answers[(named, height)].hash
      {
        assert !Empty(members, answers, height, order[i]);
        assert Named(members, answers, height, order[i]);
      }
      assert SplitAt(order, answers, height, 0, answers[(named, height)].hash);
    }
  }

  /** When the iteration order decides, exactly: no hash is known, and empty hashes are mixed with one
      common hash. Without empty hashes, or with nothing else, it never does. */
  lemma OrderMattersIff(members: set<Backend>, answers: Answers, height: nat, current: nat)
    ensures OrdersDiffer(members, answers, height, current) <==> Mixed(members, answers, height)
  {
    if Mixed(members, answers, height) {
      MixedDiffer(members, answers, height, current);
    }
    if OrdersDiffer(members, answers, height, current) {
      var o1, o2 :| Enumerates(o1, members) && Enumerates(o2, members)
                    && PollRound(o1, answers, height, "", current).agreed
                    && !PollRound(o2, answers, height, "", current).agreed;
      RoundAny(o1, answers, height, "", current);
      RoundAny(o2, answers, height, "", current);
      OneNamedHash(o1, members, answers, height);
      NotAllOneHash(o2, members, answers, height);
    }
  }

  // ---------------------------------------------------------------- the walk

  /** One block behind, in unsigned 64-bit arithmetic. */
  function Pred(height: nat): (r: nat)
    requires height < TWO64
    ensures r < TWO64 && (r + 1) % TWO64 == height
  {
    if height == 0 then TWO64 - 1 else height - 1
  }

  datatype Walk = Walk(height: nat, hash: string, broken: bool, rounds: nat)

  /** The iteration orders of one group update: 0 is the minimum's loop, k + 1 is round k. */
  type Orders = nat -> seq<Backend>

  /** Round k onwards. The walk is followed for one lap of the 64-bit range and back to its start. */
  function WalkFrom(orders: Orders, answers: Answers, k: nat, height: nat, hash: string,
                    current: nat, broken: bool): Option<Walk>
    requires height < TWO64
    decreases TWO64 + 1 - k
  {
    if k > TWO64 then None
    else
      var r := PollRound(orders(k + 1), answers, height, hash, current);
      if r.agreed then Some(Walk(height, r.hash, broken || r.broken, k))
      else WalkFrom(orders, answers, k + 1, Pred(height), "", current, broken || r.broken)
  }

  ghost predicate OrdersOf(orders: Orders, members: set<Backend>) {
    forall k: nat :: Enumerates(orders(k), members)
  }

  /** The agreement that ends the walk at height h, for a walk that starts at `start` with `hash`. */
  ghost predicate Settles(members: set<Backend>, answers: Answers, start: nat, hash: string, h: nat) {
    Acceptable(members, answers, h, if h == start then hash else "")
  }

  ghost predicate SettlesAtOrBelow(members: set<Backend>, answers: Answers, start: nat, hash: string, top: nat) {
    exists h :: 0 <= h <= top && Settles(members, answers, start, hash, h)
  }

  /** A walk that ended before the height wrapped around, at the greatest height that settles it. */
  ghost predicate EndsAtGreatest(members: set<Backend>, answers: Answers, start: nat, hash: string, top: nat,
                                 w: Option<Walk>)
  {
    && w.Some?
    && w.value.rounds <= start
    && w.value.height == start - w.value.rounds
    && w.value.height <= top
    && Settles(members, answers, start, hash, w.value.height)
    && Unanimous(members, answers, w.value.height, w.value.hash)
    && (forall h :: w.value.height < h <= top ==> !Settles(members, answers, start, hash, h))
  }

  lemma {:induction false} RoundsGrow(orders: Orders, answers: Answers, k: nat, height: nat, hash: string,
                                      current: nat, broken: bool)
    requires height < TWO64
    ensures var w := WalkFrom(orders, answers, k, height, hash, current, broken);
            w.Some? ==> w.value.rounds >= k
    decreases TWO64 + 1 - k
  {
    if k <= TWO64 {
      var r := PollRound(orders(k + 1), answers, height, hash, current);
      RoundsGrow(orders, answers, k + 1, Pred(height), "", current, broken || r.broken);
    }
  }

  lemma {:induction false} WalkEndsFrom(orders: Orders, members: set<Backend>, answers: Answers, start: nat,
                                        hash: string, k: nat, top: nat, now: string, current: nat, broken: bool)
    requires OrdersOf(orders, members) && HashesNamed(answers) && k + top == start < TWO64
    requires now == if k == 0 then hash else ""
    ensures var w := WalkFrom(orders, answers, k, top, now, current, broken);
            if SettlesAtOrBelow(members, answers, start, hash, top)
            then EndsAtGreatest(members, answers, start, hash, top, w)
            else w.None? || w.value.rounds > start
    decreases top
  {
    var r := PollRound(orders(k + 1), answers, top, now, current);
    RoundExact(orders(k + 1), answers, top, now, current);
    assert Enumerates(orders(k + 1), members);
    assert Members(orders(k + 1)) == members;
    assert r.agreed <==> Settles(members, answers, start, hash, top);
    if !r.agreed {
      if top == 0 {
        RoundsGrow(orders, answers, k + 1, Pred(top), "", current, broken || r.broken);
      } else {
        WalkEndsFrom(orders, members, answers, start, hash, k + 1, top - 1, "", current, broken || r.broken);
      }
    }
  }

  /** Walk-back correctness: the walk ends without the unsigned decrement passing zero if and only if
      the candidates agree at some height at or below the lowest latest block, and then it ends at
      the greatest such height. */
  lemma WalkEnds(orders: Orders, members: set<Backend>, answers: Answers, start: nat, hash: string, current: nat)
    requires OrdersOf(orders, members) && HashesNamed(answers) && start < TWO64
    ensures var w := WalkFrom(orders, answers, 0, start, hash, current, false);
            && (SettlesAtOrBelow(members, answers, start, hash, start) <==> w.Some? && w.value.rounds <= start)
            && (SettlesAtOrBelow(members, answers, start, hash, start)
                ==> EndsAtGreatest(members, answers, start, hash, start, w))
  {
    WalkEndsFrom(orders, members, answers, start, hash, 0, start, hash, current, false);
  }

  /** Every answer carries the number it was asked for. */
  ghost predicate NumbersFaithful(answers: Answers) {
    forall k :: k in answers ==> answers[k].number == k.1
  }

  lemma {:induction false} BrokenFrom(orders: Orders, answers: Answers, start: nat, hash: string,
                                      k: nat, top: nat, current: nat, broken: bool)
    requires NumbersFaithful(answers) && k + top == start < TWO64
    ensures var w := WalkFrom(orders, answers, k, top, hash, current, broken);
            w.Some? && w.value.rounds <= start ==>
              && w.value.height == start - w.value.rounds
              && w.value.height <= top
              && (w.value.broken <==> broken || (w.value.height < top && w.value.height < current))
    decreases top
  {
    var r := PollRound(orders(k + 1), answers, top, hash, current);
    RoundBroken(orders(k + 1), answers, top, hash, current);
    if !r.agreed {
      if top == 0 {
        RoundsGrow(orders, answers, k + 1, Pred(0), "", current, broken || r.broken);
      } else {
        BrokenFrom(orders, answers, start, "", k + 1, top - 1, current, broken || r.broken);
      }
    }
  }

  /** The broken-consensus event is exact: it is raised when the resolved block is below both the
      lowest candidate's latest and the block published before, and not otherwise. */
  lemma BrokenExactly(orders: Orders, answers: Answers, start: nat, hash: string, current: nat)
    requires NumbersFaithful(answers) && start < TWO64
    ensures var w := WalkFrom(orders, answers, 0, start, hash, current, false);
            w.Some? && w.value.rounds <= start ==>
              (w.value.broken <==> w.value.height < start && w.value.height < current)
  {
    BrokenFrom(orders, answers, start, hash, 0, start, current, false);
  }

  /** Two walks that start from equivalent conditions end at the same height in the same round. */
  lemma {:induction false} WalkOrderFree(o1: Orders, o2: Orders, members: set<Backend>, answers: Answers, k: nat,
                                         height: nat, h1: string, h2: string, current: nat, b1: bool, b2: bool)
    requires OrdersOf(o1, members) && OrdersOf(o2, members) && HashesNamed(answers) && height < TWO64
    requires Acceptable(members, answers, height, h1) <==> Acceptable(members, answers, height, h2)
    ensures var w1 := WalkFrom(o1, answers, k, height, h1, current, b1);
            var w2 := WalkFrom(o2, answers, k, height, h2, current, b2);
            && w1.Some? == w2.Some?
            && (w1.Some? ==> w1.value.height == w2.value.height && w1.value.rounds == w2.value.rounds)
    decreases TWO64 + 1 - k
  {
    if k <= TWO64 {
      var r1 := PollRound(o1(k + 1), answers, height, h1, current);
      var r2 := PollRound(o2(k + 1), answers, height, h2, current);
      RoundExact(o1(k + 1), answers, height, h1, current);
      RoundExact(o2(k + 1), answers, height, h2, current);
      assert Enumerates(o1(k + 1), members) && Enumerates(o2(k + 1), members);
      assert Members(o1(k + 1)) == members == Members(o2(k + 1));
      if !r1.agreed {
        WalkOrderFree(o1, o2, members, answers, k + 1, Pred(height), "", "", current, b1 || r1.broken, b2 || r2.broken);
      }
    }
  }

  /** The inner loop: one round of questions, in iteration order. */
  method AskCandidates(candidates: seq<Backend>, answers: Answers, proposed: nat, knownHash: string, current: nat)
    returns (allAgreed: bool, proposedHash: string, broken: bool)
    ensures var r := PollRound(candidates, answers, proposed, knownHash, current);
            allAgreed == r.agreed && proposedHash == r.hash && broken == r.broken
  {
    allAgreed, proposedHash, broken := true, knownHash, false;
    for i := 0 to |candidates|
      invariant allAgreed && !broken
      invariant PollRound(candidates, answers, proposed, knownHash, current)
             == PollRound(candidates[i..], answers, proposed, proposedHash, current)
    {
      if (candidates[i], proposed) in answers {
        var actual := answers[(candidates[i], proposed)];
        if proposedHash == "" {
          proposedHash := actual.hash;
        }
        if actual.number != proposed || actual.hash != proposedHash {
          broken := current >= actual.number;
          allAgreed := false;
          return;
        }
      }
    }
  }

  /** The walk-back loop itself. `done` is false when a whole lap of the 64-bit range went by without
      agreement: the source is then still looping and publishes nothing. */
  method FindProposal(orders: Orders, answers: Answers, lowest: nat, lowestHash: string, current: nat)
    returns (done: bool, proposed: nat, proposedHash: string, broken: bool, rounds: nat)
    requires lowest < TWO64
    ensures WalkFrom(orders, answers, 0, lowest, lowestHash, current, false)
         == if done then Some(Walk(proposed, proposedHash, broken, rounds)) else None
  {
    proposed, proposedHash, done, broken, rounds := lowest, lowestHash, false, false, 0;
    while !done && rounds <= TWO64
      invariant proposed < TWO64 && rounds <= TWO64 + 1
      invariant WalkFrom(orders, answers, 0, lowest, lowestHash, current, false)
             == if done then Some(Walk(proposed, proposedHash, broken, rounds))
                else WalkFrom(orders, answers, rounds, proposed, proposedHash, current, broken)
      decreases TWO64 + 1 - rounds, !done
    {
      var allAgreed, brokeNow;
      allAgreed, proposedHash, brokeNow := AskCandidates(orders(rounds + 1), answers, proposed, proposedHash, current);
      broken := broken || brokeNow;
      if allAgreed {
        done := true;
      } else {
        proposed := Pred(proposed);
        proposedHash := "";
        rounds := rounds + 1;
      }
    }
  }
}
