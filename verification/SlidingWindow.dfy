/** The bucketed sliding window (pkg/avg-sliding-window/sliding.go): totals kept by bucket agree with a
    plain sum over the recent points. Floating point is modelled by real numbers. */
module SlidingWindow {

  /** A data point, by the rounded time at which it was added. */
  datatype Point = Point(key: int, val: real)

  datatype Bucket = Bucket(key: int, sum: real, qty: nat)

  // ---------------------------------------------------------------- the plain reference

  /** Sum and count over the points with a rounded time after `start`. */
  ghost function SumAfter(points: seq<Point>, start: int): real {
    if points == [] then 0.0
    else (if points[0].key > start then points[0].val else 0.0) + SumAfter(points[1..], start)
  }

  ghost function CountAfter(points: seq<Point>, start: int): nat {
    if points == [] then 0
    else (if points[0].key > start then 1 else 0) + CountAfter(points[1..], start)
  }

  /** Sum and count over the points with exactly this rounded time. */
  ghost function SumAt(points: seq<Point>, key: int): real {
    if points == [] then 0.0
    else (if points[0].key == key then points[0].val else 0.0) + SumAt(points[1..], key)
  }

  ghost function CountAt(points: seq<Point>, key: int): nat {
    if points == [] then 0
    else (if points[0].key == key then 1 else 0) + CountAt(points[1..], key)
  }

  lemma {:induction false} AppendAt(points: seq<Point>, p: Point, key: int)
    ensures SumAt(points + [p], key) == SumAt(points, key) + if p.key == key then p.val else 0.0
    ensures CountAt(points + [p], key) == CountAt(points, key) + if p.key == key then 1 else 0
  {
    if points != [] {
      assert (points + [p])[1..] == points[1..] + [p];
      AppendAt(points[1..], p, key);
    } else {
      assert (points + [p])[1..] == [];
    }
  }

  // ---------------------------------------------------------------- rounding

  /** time.Round: to the nearest multiple, halfway values up. */
  function Round(t: int, d: nat): int
    requires d > 0
  {
    if t % d + t % d < d then t - t % d else t + (d - t % d)
  }

  lemma DivisionParts(t: int, d: nat)
    requires d > 0
    ensures t == d * (t / d) + t % d
  {
  }

  /** Rounding is to the nearest multiple, and halfway values go up. */
  lemma RoundNearest(t: int, d: nat) returns (q: int)
    requires d > 0
    ensures Round(t, d) == d * q
    ensures -(d as int) < 2 * (t - Round(t, d)) < d || 2 * (Round(t, d) - t) == d
  {
    DivisionParts(t, d);
    q := t / d;
    if t % d + t % d >= d {
      assert d * (q + 1) == d * q + d;
      q := q + 1;
    }
  }

  lemma MultipleBelow(d: nat, q: int, r: int)
    requires q < r
    ensures d * q + d <= d * r
  {
    assert d * (r - q - 1) >= 0;
    assert d * (r - q - 1) == d * r - d * q - d;
  }

  lemma RoundedParts(d: nat, q: int, m: nat, r: int, n: nat)
    requires m < d && n < d && d * q + m <= d * r + n
    ensures (if m + m < d then d * q else d * q + d) <= (if n + n < d then d * r else d * r + d)
  {
    if q < r {
      MultipleBelow(d, q, r);
    } else if r < q {
      MultipleBelow(d, r, q);
    }
  }

  lemma RoundMonotone(s: int, t: int, d: nat)
    requires d > 0 && s <= t
    ensures Round(s, d) <= Round(t, d)
  {
    DivisionParts(s, d);
    DivisionParts(t, d);
    RoundedParts(d, s / d, s % d, t / d, t % d);
  }

  // ---------------------------------------------------------------- buckets

  ghost function TotalSum(buckets: seq<Bucket>): real {
    if buckets == [] then 0.0 else buckets[0].sum + TotalSum(buckets[1..])
  }

  ghost function TotalQty(buckets: seq<Bucket>): nat {
    if buckets == [] then 0 else buckets[0].qty + TotalQty(buckets[1..])
  }

  /** The part of the totals in buckets at or before `start`. */
  ghost function StaleSum(buckets: seq<Bucket>, start: int): real {
    if buckets == [] then 0.0
    else (if buckets[0].key <= start then buckets[0].sum else 0.0) + StaleSum(buckets[1..], start)
  }

  ghost function StaleQty(buckets: seq<Bucket>, start: int): nat {
    if buckets == [] then 0
    else (if buckets[0].key <= start then buckets[0].qty else 0) + StaleQty(buckets[1..], start)
  }

  /** The buckets of a map: one per key, none empty. */
  ghost predicate Distinct(buckets: seq<Bucket>) {
    && (forall i, j :: 0 <= i < j < |buckets| ==> buckets[i].key != buckets[j].key)
    && (forall i :: 0 <= i < |buckets| ==> buckets[i].qty > 0)
  }

  ghost predicate Ascending(buckets: seq<Bucket>) {
    forall i, j :: 0 <= i < j < |buckets| ==> buckets[i].key < buckets[j].key
  }

  /** The position of a key, or the length if it is absent. */
  function Find(buckets: seq<Bucket>, key: int): (i: nat)
    ensures i <= |buckets|
    ensures i < |buckets| ==> buckets[i].key == key
    ensures i == |buckets| ==> forall j :: 0 <= j < |buckets| ==> buckets[j].key != key
  {
    if buckets == [] then 0
    else if buckets[0].key == key then 0
    else 1 + Find(buckets[1..], key)
  }

  /** The bucket of a key, empty if it is absent. */
  function At(buckets: seq<Bucket>, key: int): Bucket {
    if Find(buckets, key) < |buckets| then buckets[Find(buckets, key)] else Bucket(key, 0.0, 0)
  }

  /** The buckets with one put in the place of its key, or appended. */
  function Put(buckets: seq<Bucket>, b: Bucket): seq<Bucket> {
    var i := Find(buckets, b.key);
    if i < |buckets| then buckets[i := b] else buckets + [b]
  }

  /** Every bucket later than `floor` holds exactly the points of its key. */
  ghost predicate Matches(buckets: seq<Bucket>, points: seq<Point>, floor: int) {
    forall key :: key > floor ==> At(buckets, key) == Bucket(key, SumAt(points, key), CountAt(points, key))
  }

  /** The totals are those of the buckets, and the buckets after the floor are exact. */
  ghost predicate Summary(buckets: seq<Bucket>, qty: nat, sum: real, points: seq<Point>, floor: int) {
    && Distinct(buckets)
    && qty == TotalQty(buckets)
    && sum == TotalSum(buckets)
    && Matches(buckets, points, floor)
  }

  lemma {:induction false} TotalReplace(buckets: seq<Bucket>, i: nat, b: Bucket)
    requires i < |buckets|
    ensures TotalSum(buckets[i := b]) == TotalSum(buckets) - buckets[i].sum + b.sum
    ensures TotalQty(buckets[i := b]) == TotalQty(buckets) - buckets[i].qty + b.qty
  {
    if i == 0 {
      assert buckets[0 := b][1..] == buckets[1..];
    } else {
      assert buckets[i := b][1..] == buckets[1..][i - 1 := b];
      TotalReplace(buckets[1..], i - 1, b);
    }
  }

  lemma {:induction false} TotalAppend(buckets: seq<Bucket>, b: Bucket)
    ensures TotalSum(buckets + [b]) == TotalSum(buckets) + b.sum
    ensures TotalQty(buckets + [b]) == TotalQty(buckets) + b.qty
  {
    if buckets != [] {
      assert (buckets + [b])[1..] == buckets[1..] + [b];
      TotalAppend(buckets[1..], b);
    }
  }

  ghost predicate KeysUpTo(buckets: seq<Bucket>, top: int) {
    forall b :: b in buckets ==> b.key <= top
  }

  /** Putting a bucket moves the totals by the difference. */
  lemma PutTotals(buckets: seq<Bucket>, b: Bucket)
    ensures TotalSum(Put(buckets, b)) == TotalSum(buckets) - At(buckets, b.key).sum + b.sum
    ensures TotalQty(Put(buckets, b)) == TotalQty(buckets) - At(buckets, b.key).qty + b.qty
  {
    if Find(buckets, b.key) < |buckets| {
      TotalReplace(buckets, Find(buckets, b.key), b);
    } else {
      TotalAppend(buckets, b);
    }
  }

  /** It keeps one bucket per key, and one with the latest key keeps the order. */
  lemma PutKeeps(buckets: seq<Bucket>, b: Bucket)
    requires Distinct(buckets) && b.qty > 0
    ensures Distinct(Put(buckets, b))
    ensures Ascending(buckets) && KeysUpTo(buckets, b.key) ==>
              Ascending(Put(buckets, b)) && KeysUpTo(Put(buckets, b), b.key)
  {
    assert forall j :: 0 <= j < |buckets| ==> buckets[j] in buckets;
  }

  /** The points of other keys. */
  ghost function Without(points: seq<Point>, key: int): seq<Point> {
    if points == [] then []
    else (if points[0].key == key then [] else [points[0]]) + Without(points[1..], key)
  }

  lemma {:induction false} WithoutAt(points: seq<Point>, key: int, k: int)
    ensures SumAt(Without(points, key), k) == if k == key then 0.0 else SumAt(points, k)
    ensures CountAt(Without(points, key), k) == if k == key then 0 else CountAt(points, k)
  {
    if points != [] {
      WithoutAt(points[1..], key, k);
      var rest := Without(points[1..], key);
      assert ([points[0]] + rest)[1..] == rest;
      assert points[0].key == key ==> Without(points, key) == rest;
    }
  }

  /** A recent key's points are a part of the recent points. */
  lemma {:induction false} WithoutAfter(points: seq<Point>, key: int, start: int)
    requires start < key
    ensures SumAfter(points, start) == SumAt(points, key) + SumAfter(Without(points, key), start)
    ensures CountAfter(points, start) == CountAt(points, key) + CountAfter(Without(points, key), start)
  {
    if points != [] {
      WithoutAfter(points[1..], key, start);
      var rest := Without(points[1..], key);
      assert ([points[0]] + rest)[1..] == rest;
      assert points[0].key == key ==> Without(points, key) == rest;
    }
  }

  lemma {:induction false} NoneAfter(points: seq<Point>, start: int)
    requires forall p :: p in points ==> p.key <= start
    ensures SumAfter(points, start) == 0.0 && CountAfter(points, start) == 0
  {
    if points != [] {
      assert points[0] in points;
      assert forall p :: p in points[1..] ==> p in points;
      NoneAfter(points[1..], start);
    }
  }

  lemma {:induction false} CountAtMember(points: seq<Point>, p: Point)
    requires p in points
    ensures CountAt(points, p.key) > 0
  {
    if points[0] != p {
      assert p in points[1..];
      CountAtMember(points[1..], p);
    }
  }

  lemma TailAt(buckets: seq<Bucket>, key: int)
    requires buckets != [] && buckets[0].key != key
    ensures At(buckets[1..], key) == At(buckets, key)
  {
  }

  /** Buckets that hold exactly the points after `start` have their totals, and those of older buckets. */
  lemma {:induction false} TotalsMatch(buckets: seq<Bucket>, points: seq<Point>, start: int)
    requires Distinct(buckets) && Matches(buckets, points, start)
    ensures TotalSum(buckets) == SumAfter(points, start) + StaleSum(buckets, start)
    ensures TotalQty(buckets) == CountAfter(points, start) + StaleQty(buckets, start)
    decreases |buckets|
  {
    if buckets == [] {
      forall p | p in points ensures p.key <= start {
        CountAtMember(points, p);
        assert p.key > start ==> At(buckets, p.key).qty > 0;
      }
      NoneAfter(points, start);
    } else {
      var key, rest := buckets[0].key, buckets[1..];
      var others := if key > start then Without(points, key) else points;
      forall k | k > start ensures At(rest, k) == Bucket(k, SumAt(others, k), CountAt(others, k)) {
        WithoutAt(points, key, k);
        if k == key {
          assert Find(rest, k) == |rest|;
        } else {
          TailAt(buckets, k);
        }
      }
      if key > start {
        WithoutAfter(points, key, start);
        assert At(buckets, key) == buckets[0];
      }
      TotalsMatch(rest, others, start);
    }
  }

  lemma {:induction false} NothingStale(buckets: seq<Bucket>, start: int)
    requires Distinct(buckets)
    ensures StaleQty(buckets, start) == 0 <==> forall b :: b in buckets ==> b.key > start
    ensures StaleQty(buckets, start) == 0 ==> StaleSum(buckets, start) == 0.0
  {
    if buckets != [] {
      assert buckets == [buckets[0]] + buckets[1..];
      NothingStale(buckets[1..], start);
    }
  }

  // ---------------------------------------------------------------- eviction

  /** Drops buckets from the front up to the first one later than `start`. */
  function Evicted(buckets: seq<Bucket>, start: int): seq<Bucket> {
    if buckets == [] || buckets[0].key > start then buckets else Evicted(buckets[1..], start)
  }

  /** No bucket at or before `start` comes after a later one. */
  ghost predicate OldFirst(buckets: seq<Bucket>, start: int) {
    forall i, j :: 0 <= i < j < |buckets| && buckets[i].key > start ==> buckets[j].key > start
  }

  /** Eviction leaves exactly the in-window buckets if and only if no out-of-window bucket comes after
      an in-window one; ascending order is enough. */
  lemma {:induction false} EvictedExactIff(buckets: seq<Bucket>, start: int)
    ensures (forall b :: b in Evicted(buckets, start) ==> b.key > start) <==> OldFirst(buckets, start)
    ensures forall b :: b in buckets && b.key > start ==> b in Evicted(buckets, start)
    decreases buckets
  {
    if buckets != [] {
      if buckets[0].key > start {
        assert forall j :: 0 <= j < |buckets| ==> buckets[j] in buckets;
      } else {
        EvictedExactIff(buckets[1..], start);
        assert forall i :: 0 < i < |buckets| ==> buckets[i] == buckets[1..][i - 1];
      }
    }
  }

  lemma {:induction false} EvictedKeeps(buckets: seq<Bucket>, points: seq<Point>, floor: int, start: int)
    requires Distinct(buckets) && Matches(buckets, points, floor) && floor <= start
    ensures var kept := Evicted(buckets, start);
            && Distinct(kept) && Matches(kept, points, start)
            && (forall b :: b in kept ==> b in buckets)
            && (Ascending(buckets) ==> Ascending(kept))
    decreases buckets
  {
    if buckets != [] {
      if buckets[0].key <= start {
        forall k | k > start ensures At(buckets[1..], k) == At(buckets, k) {
          TailAt(buckets, k);
        }
        assert Matches(buckets[1..], points, start);
        EvictedKeeps(buckets[1..], points, start, start);
      } else {
        assert forall i :: 0 <= i < |buckets| ==> buckets[i] in buckets;
      }
    }
  }

  /** What eviction leaves behind: nothing stale exactly when the old buckets came first. */
  lemma EvictionOutcome(buckets: seq<Bucket>, kept: seq<Bucket>, start: int)
    requires Distinct(kept) && kept == Evicted(buckets, start)
    ensures StaleQty(kept, start) == 0 <==> OldFirst(buckets, start)
    ensures StaleQty(kept, start) == 0 ==> StaleSum(kept, start) == 0.0
    ensures Ascending(buckets) ==> OldFirst(buckets, start)
  {
    EvictedExactIff(buckets, start);
    NothingStale(kept, start);
  }

  // ---------------------------------------------------------------- adding a point

  /** What a key finds after a bucket has been put. */
  lemma {:induction false} PutAt(buckets: seq<Bucket>, b: Bucket, key: int)
    ensures At(Put(buckets, b), key) == if key == b.key then b else At(buckets, key)
    decreases buckets
  {
    var put := Put(buckets, b);
    if buckets != [] && buckets[0].key != b.key {
      assert put[1..] == Put(buckets[1..], b);
      PutAt(buckets[1..], b, key);
      if key != buckets[0].key {
        TailAt(buckets, key);
        TailAt(put, key);
      }
    } else if buckets != [] && key != b.key {
      assert put[1..] == buckets[1..];
      TailAt(buckets, key);
      TailAt(put, key);
    }
  }

  /** A point at or before the new floor changes no bucket after it. */
  lemma DroppedStillMatches(buckets: seq<Bucket>, points: seq<Point>, floor: int, p: Point, start: int)
    requires Matches(buckets, points, floor) && floor <= start && p.key <= start
    ensures Matches(buckets, points + [p], start)
  {
    forall key | key > start
      ensures At(buckets, key) == Bucket(key, SumAt(points + [p], key), CountAt(points + [p], key))
    {
      AppendAt(points, p, key);
    }
  }

  /** Adding a point to the bucket of its key, or to a new last bucket, keeps every bucket exact. */
  lemma AddedStillMatches(buckets: seq<Bucket>, points: seq<Point>, floor: int, p: Point)
    requires Matches(buckets, points, floor) && floor < p.key
    ensures var b := Bucket(p.key, At(buckets, p.key).sum + p.val, At(buckets, p.key).qty + 1);
            Matches(Put(buckets, b), points + [p], floor)
  {
    var b := Bucket(p.key, At(buckets, p.key).sum + p.val, At(buckets, p.key).qty + 1);
    forall key | key > floor
      ensures At(Put(buckets, b), key) == Bucket(key, SumAt(points + [p], key), CountAt(points + [p], key))
    {
      AppendAt(points, p, key);
      PutAt(buckets, b, key);
    }
  }

  lemma InsertKeeps(buckets: seq<Bucket>, qty: nat, sum: real, points: seq<Point>, floor: int, p: Point,
                    added: Bucket, put: seq<Bucket>)
    requires Summary(buckets, qty, sum, points, floor) && floor < p.key
    requires added == Bucket(p.key, At(buckets, p.key).sum + p.val, At(buckets, p.key).qty + 1)
    requires put == Put(buckets, added)
    ensures Summary(put, qty + 1, sum - At(buckets, p.key).sum + added.sum, points + [p], floor)
    ensures Ascending(buckets) && KeysUpTo(buckets, p.key) ==> Ascending(put) && KeysUpTo(put, p.key)
  {
    AddedStillMatches(buckets, points, floor, p);
    PutKeeps(buckets, added);
    PutTotals(buckets, added);
  }

  // ---------------------------------------------------------------- the window

  class AvgSlidingWindow {
    const bucketSize: nat
    const windowLength: nat
    var buckets: seq<Bucket>
    var qty: nat
    var sum: real

    // The history that the window summarises: every point added that was not in the future, whether
    // the times never decreased, the time of the last one, the last clock reading, and a window start
    // that later windows never go below.
    ghost var points: seq<Point>
    ghost var inOrder: bool
    ghost var lastTime: int
    ghost var clock: int
    ghost var floor: int

    /** The totals are those of the buckets, and the buckets after the floor are exact. */
    ghost predicate Consistent()
      reads this
    {
      Summary(buckets, qty, sum, points, floor)
    }

    /** The start of the window at a clock reading. */
    function WindowStart(now: int): int
      requires bucketSize > 0
    {
      Round(now, bucketSize) - windowLength
    }

    ghost predicate Valid()
      reads this
    {
      && bucketSize > 0
      && Consistent()
      && floor <= WindowStart(clock)
      && (inOrder ==> Ascending(buckets) && KeysUpTo(buckets, Round(lastTime, bucketSize)))
    }

    constructor (bucketSize: nat, windowLength: nat, now: int)
      requires bucketSize > 0
      ensures Valid() && points == [] && inOrder && clock == lastTime == now
      ensures this.bucketSize == bucketSize && this.windowLength == windowLength
    {
      this.bucketSize, this.windowLength := bucketSize, windowLength;
      buckets, qty, sum := [], 0, 0.0;
      points, inOrder, lastTime, clock := [], true, now, now;
      floor := Round(now, bucketSize) - windowLength;
    }

    /** The eviction loop: drops buckets from the front and keeps the totals. */
    method EvictUpTo(windowStart: int)
      requires Consistent() && floor <= windowStart
      modifies this`buckets, this`qty, this`sum, this`floor
      ensures Consistent() && floor == windowStart
      ensures buckets == Evicted(old(buckets), windowStart)
      ensures forall b :: b in buckets ==> b in old(buckets)
      ensures Ascending(old(buckets)) ==> Ascending(buckets)
    {
      EvictedKeeps(buckets, points, floor, windowStart);
      while |buckets| > 0 && !(buckets[0].key > windowStart)
        invariant Evicted(buckets, windowStart) == Evicted(old(buckets), windowStart)
        invariant qty == TotalQty(buckets) && sum == TotalSum(buckets)
        decreases |buckets|
      {
        var b := buckets[0];
        buckets := buckets[1..];
        if |buckets| > 0 {
          qty := qty - b.qty;
          sum := sum - b.sum;
        } else {
          qty := 0;
          sum := 0.0;
        }
      }
      floor := windowStart;
    }

    /** What remains stale is exactly what an old bucket behind a recent one keeps; in order, nothing. */
    method Advance(now: int)
      requires Valid() && clock <= now
      modifies this`buckets, this`qty, this`sum, this`clock, this`floor
      ensures Valid() && clock == now && floor == WindowStart(now)
      ensures buckets == Evicted(old(buckets), WindowStart(now))
      ensures StaleQty(buckets, WindowStart(now)) == 0 <==> OldFirst(old(buckets), WindowStart(now))
      ensures inOrder ==> OldFirst(old(buckets), WindowStart(now))
      ensures StaleQty(buckets, WindowStart(now)) == 0 ==> StaleSum(buckets, WindowStart(now)) == 0.0
    {
      RoundMonotone(clock, now, bucketSize);
      ghost var before := buckets;
      var start := WindowStart(now);
      EvictUpTo(start);
      clock := now;
      EvictionOutcome(before, buckets, start);
    }

    predicate InWindow(t: int, now: int)
      requires bucketSize > 0
    {
      WindowStart(now) < t && t <= Round(now, bucketSize)
    }

    /** Adds a point to the bucket of its key, or to a new last one. */
    method Insert(key: int, val: real)
      requires Consistent() && floor < key
      modifies this`buckets, this`qty, this`sum, this`points
      ensures Consistent()
      ensures points == old(points) + [Point(key, val)]
      ensures Ascending(old(buckets)) && KeysUpTo(old(buckets), key) ==> Ascending(buckets) && KeysUpTo(buckets, key)
    {
      var b := At(buckets, key);
      var added := Bucket(key, b.sum + val, b.qty + 1);
      var put := Put(buckets, added);
      InsertKeeps(buckets, qty, sum, points, floor, Point(key, val), added, put);
      points := points + [Point(key, val)];
      qty := qty + 1;
      sum := sum - b.sum + added.sum;
      buckets := put;
    }

    /** The clock is read twice: when evicting, and when deciding whether the point is in the window. A
        point in the future is dropped; one before the window is dropped from the totals but stays in
        the history, where it no longer counts. */
    method AddWithTime(t: int, val: real, now: int, later: int)
      requires Valid() && clock <= now <= later
      modifies this
      ensures Valid() && clock == later && lastTime == t
      ensures inOrder <==> old(inOrder) && old(lastTime) <= t
      ensures var p := Point(Round(t, bucketSize), val);
              points == old(points) + if p.key <= Round(later, bucketSize) then [p] else []
    {
      Advance(now);
      var key := Round(t, bucketSize);
      RoundMonotone(now, later, bucketSize);
      if lastTime <= t {
        RoundMonotone(lastTime, t, bucketSize);
      }
      inOrder := inOrder && lastTime <= t;
      lastTime, clock := t, later;
      if InWindow(key, later) {
        Insert(key, val);
      } else if key <= WindowStart(later) {
        DroppedStillMatches(buckets, points, floor, Point(key, val), WindowStart(later));
        points := points + [Point(key, val)];
        floor := WindowStart(later);
      }
    }

    method Add(val: real, t: int, now: int, later: int)
      requires Valid() && clock <= t <= now <= later
      modifies this
      ensures Valid() && clock == later && lastTime == t
      ensures inOrder <==> old(inOrder) && old(lastTime) <= t
      ensures points == old(points) + [Point(Round(t, bucketSize), val)]
    {
      RoundMonotone(t, later, bucketSize);
      AddWithTime(t, val, now, later);
    }

    /** Sum: the sum over the points whose rounded time is after the window start, and over the old
        buckets that eviction did not reach; in order there are none. */
    method Sum(now: int) returns (r: real)
      requires Valid() && clock <= now
      modifies this`buckets, this`qty, this`sum, this`clock, this`floor
      ensures Valid() && clock == now
      ensures var start := Round(now, bucketSize) - windowLength;
              && r == SumAfter(points, start) + StaleSum(buckets, start)
              && (inOrder || OldFirst(old(buckets), start) ==> r == SumAfter(points, start))
    {
      Advance(now);
      TotalsMatch(buckets, points, floor);
      r := sum;
    }

    /** Count: exact if and only if no old bucket comes after a recent one, as when points come in order. */
    method Count(now: int) returns (r: nat)
      requires Valid() && clock <= now
      modifies this`buckets, this`qty, this`sum, this`clock, this`floor
      ensures Valid() && clock == now
      ensures var start := Round(now, bucketSize) - windowLength;
              && r == CountAfter(points, start) + StaleQty(buckets, start)
              && (r == CountAfter(points, start) <==> OldFirst(old(buckets), start))
              && (inOrder ==> r == CountAfter(points, start))
    {
      Advance(now);
      TotalsMatch(buckets, points, floor);
      r := qty;
    }

    /** Avg: the mean over the same points, or 0 when there are none. */
    method Avg(now: int) returns (r: real)
      requires Valid() && clock <= now
      modifies this`buckets, this`qty, this`sum, this`clock, this`floor
      ensures Valid() && clock == now
      ensures var start := Round(now, bucketSize) - windowLength;
              var n := CountAfter(points, start);
              inOrder || OldFirst(old(buckets), start) ==>
                r == if n == 0 then 0.0 else SumAfter(points, start) / n as real
    {
      Advance(now);
      TotalsMatch(buckets, points, floor);
      if qty == 0 {
        return 0.0;
      }
      r := sum / qty as real;
    }
  }
}
