/** The in-memory rate limiter (frontend_rate_limiter.go): a take runs in two critical sections, and
    other takes and a new generation may come between them. */
module RateLimiter {
  // ---------------------------------------------------------------- the two objects

  function Uses(keys: map<string, nat>, key: string): nat {
    if key in keys then keys[key] else 0
  }

  /** A generation: the counters of one truncated time. */
  datatype Gen = Gen(truncTS: int, keys: map<string, nat>)

  function Counted(g: Gen, key: string): Gen {
    g.(keys := g.keys[key := Uses(g.keys, key) + 1])
  }

  class LimitedKeys {
    const truncTS: int
    var keys: map<string, nat>

    ghost function View(): Gen
      reads this
    {
      Gen(truncTS, keys)
    }

    constructor (t: int)
      ensures View() == Gen(t, map[])
    {
      truncTS := t;
      keys := map[];
    }

    /** The second critical section. */
    method Take(key: string, max: int) returns (ok: bool)
      modifies this
      ensures View() == Counted(old(View()), key)
      ensures ok <==> Uses(old(keys), key) < max
    {
      var val := 0;
      if key in keys {
        val := keys[key];
      } else {
        keys := keys[key := 0];
      }
      keys := keys[key := val + 1];
      ok := val < max;
    }
  }

  class MemoryFrontendRateLimiter {
    const max: int
    var currGeneration: LimitedKeys?

    constructor (max: int)
      ensures this.max == max && currGeneration == null
    {
      this.max := max;
      currGeneration := null;
    }

    /** The first critical section: the current generation for this truncated time. */
    method Generation(truncTS: int) returns (limiter: LimitedKeys)
      modifies this
      ensures currGeneration == limiter && limiter.truncTS == truncTS
      ensures if old(currGeneration) != null && old(currGeneration).truncTS == truncTS
              then limiter == old(currGeneration)
              else fresh(limiter) && limiter.View() == Gen(truncTS, map[])
    {
      if currGeneration == null || currGeneration.truncTS != truncTS {
        currGeneration := new LimitedKeys(truncTS);
      }
      limiter := currGeneration;
    }

    /** A take that nothing interrupts. */
    method Take(key: string, truncTS: int) returns (ok: bool)
      modifies this, currGeneration
      ensures currGeneration != null && currGeneration.truncTS == truncTS
      ensures if old(currGeneration) != null && old(currGeneration).truncTS == truncTS
              then && currGeneration == old(currGeneration)
                   && currGeneration.View() == Counted(old(currGeneration.View()), key)
                   && (ok <==> Uses(old(currGeneration.keys), key) < max)
              else currGeneration.View() == Counted(Gen(truncTS, map[]), key) && (ok <==> 0 < max)
    {
      var limiter := Generation(truncTS);
      ok := limiter.Take(key, max);
    }
  }

  // ---------------------------------------------------------------- every schedule

  /** A take between its two sections holds a generation, perhaps one already replaced. */
  datatype Pending = Pending(gen: nat, key: string)

  /** A counted take: the generation it counted in and that generation's truncated time. */
  datatype Entry = Entry(gen: nat, truncTS: int, key: string, admitted: bool)

  /** All generations ever created (the last is current), the takes in progress, and the counted takes. */
  datatype State = State(gens: seq<Gen>, pending: map<nat, Pending>, log: seq<Entry>)

  datatype Event = Enter(taker: nat, key: string, truncTS: int) | Commit(taker: nat)

  predicate Enabled(s: State, e: Event) {
    match e
    case Enter(taker, _, _) => taker !in s.pending
    case Commit(taker) => taker in s.pending && s.pending[taker].gen < |s.gens|
  }

  function Step(max: int, s: State, e: Event): State
    requires Enabled(s, e)
  {
    match e
    case Enter(taker, key, ts) =>
      var gens := if s.gens == [] || s.gens[|s.gens| - 1].truncTS != ts then s.gens + [Gen(ts, map[])] else s.gens;
      s.(gens := gens, pending := s.pending[taker := Pending(|gens| - 1, key)])
    case Commit(taker) =>
      var p := s.pending[taker];
      var g := s.gens[p.gen];
      State(s.gens[p.gen := Counted(g, p.key)], s.pending - {taker},
            s.log + [Entry(p.gen, g.truncTS, p.key, Uses(g.keys, p.key) < max)])
  }

  const IDLE := State([], map[], [])

  /** A schedule from s to t, under any clock. */
  ghost predicate Run(max: int, s: State, events: seq<Event>, t: State)
    decreases events
  {
    if events == [] then s == t
    else Enabled(s, events[0]) && Run(max, Step(max, s, events[0]), events[1..], t)
  }

  /** The truncated clock, last read as `clock`, never goes back. */
  ghost predicate NeverBack(clock: int, events: seq<Event>)
    decreases events
  {
    events != [] ==>
      if events[0].Enter? then clock <= events[0].truncTS && NeverBack(events[0].truncTS, events[1..])
      else NeverBack(clock, events[1..])
  }

  // ---------------------------------------------------------------- counting

  /** Takes counted for a key at a truncated time, and those of them that were admitted. */
  function Taken(log: seq<Entry>, ts: int, key: string): nat {
    if log == [] then 0
    else
      var e := log[|log| - 1];
      Taken(log[..|log| - 1], ts, key) + if e.truncTS == ts && e.key == key then 1 else 0
  }

  function Admitted(log: seq<Entry>, ts: int, key: string): nat {
    if log == [] then 0
    else
      var e := log[|log| - 1];
      Admitted(log[..|log| - 1], ts, key) + if e.truncTS == ts && e.key == key && e.admitted then 1 else 0
  }

  /** The same for one generation. */
  function TakenIn(log: seq<Entry>, gen: nat, key: string): nat {
    if log == [] then 0
    else
      var e := log[|log| - 1];
      TakenIn(log[..|log| - 1], gen, key) + if e.gen == gen && e.key == key then 1 else 0
  }

  function AdmittedIn(log: seq<Entry>, gen: nat, key: string): nat {
    if log == [] then 0
    else
      var e := log[|log| - 1];
      AdmittedIn(log[..|log| - 1], gen, key) + if e.gen == gen && e.key == key && e.admitted then 1 else 0
  }

  function Min(a: int, b: int): int { if a < b then a else b }
  function Cap(max: int): nat { if max < 0 then 0 else max }

  // ---------------------------------------------------------------- the invariant

  /** A take is admitted exactly when fewer than `max` takes of its key came before it in its generation. */
  ghost predicate Fair(max: int, log: seq<Entry>) {
    log == [] ||
    var rest, e := log[..|log| - 1], log[|log| - 1];
    Fair(max, rest) && (e.admitted <==> TakenIn(rest, e.gen, e.key) < max)
  }

  /** Each generation counts exactly the takes logged in it. */
  ghost predicate Counting(gens: seq<Gen>, log: seq<Entry>) {
    forall i, key :: 0 <= i < |gens| ==> Uses(gens[i].keys, key) == TakenIn(log, i, key)
  }

  /** Every logged take has its generation and that generation's time. */
  ghost predicate Placed(gens: seq<Gen>, log: seq<Entry>) {
    forall e :: e in log ==> e.gen < |gens| && gens[e.gen].truncTS == e.truncTS
  }

  ghost predicate Inv(max: int, s: State) {
    Counting(s.gens, s.log) && Placed(s.gens, s.log) && Fair(max, s.log)
  }

  lemma {:induction false} NoneTakenIn(log: seq<Entry>, gen: nat, key: string)
    requires forall e :: e in log ==> e.gen != gen
    ensures TakenIn(log, gen, key) == 0
  {
    if log != [] {
      assert log[|log| - 1] in log;
      assert forall e :: e in log[..|log| - 1] ==> e in log;
      NoneTakenIn(log[..|log| - 1], gen, key);
    }
  }

  lemma EnterKeepsInv(max: int, s: State, e: Event)
    requires Inv(max, s) && Enabled(s, e) && e.Enter?
    ensures Inv(max, Step(max, s, e))
  {
    var t := Step(max, s, e);
    forall i, key | 0 <= i < |t.gens| ensures Uses(t.gens[i].keys, key) == TakenIn(t.log, i, key) {
      if i == |s.gens| {
        NoneTakenIn(t.log, i, key);
      } else {
        assert t.gens[i] == s.gens[i];
      }
    }
  }

  /** A take counts in its own generation, whether or not that is still the current one. */
  lemma CommitKeepsInv(max: int, s: State, e: Event)
    requires Inv(max, s) && Enabled(s, e) && e.Commit?
    ensures Inv(max, Step(max, s, e))
  {
    var t := Step(max, s, e);
    var entry := t.log[|s.log|];
    assert t.log[..|s.log|] == s.log;
    forall i, key | 0 <= i < |t.gens| ensures Uses(t.gens[i].keys, key) == TakenIn(t.log, i, key) {
      assert Uses(s.gens[i].keys, key) == TakenIn(s.log, i, key);
    }
    assert forall x :: x in t.log ==> x in s.log || x == entry;
  }

  lemma {:induction false} RunKeepsInv(max: int, s: State, events: seq<Event>, t: State)
    requires Inv(max, s) && Run(max, s, events, t)
    ensures Inv(max, t)
    decreases events
  {
    if events != [] {
      if events[0].Enter? {
        EnterKeepsInv(max, s, events[0]);
      } else {
        CommitKeepsInv(max, s, events[0]);
      }
      RunKeepsInv(max, Step(max, s, events[0]), events[1..], t);
    }
  }

  // ---------------------------------------------------------------- what a fair log admits

  lemma {:induction false} FairPerGeneration(max: int, log: seq<Entry>, gen: nat, key: string)
    requires Fair(max, log)
    ensures AdmittedIn(log, gen, key) == Min(TakenIn(log, gen, key), Cap(max))
  {
    if log != [] {
      FairPerGeneration(max, log[..|log| - 1], gen, key);
    }
  }

  /** All takes of a key at a time counted in one generation. */
  ghost predicate InOne(log: seq<Entry>, ts: int, key: string, gen: nat) {
    forall e :: e in log ==> (e.truncTS == ts && e.key == key ==> e.gen == gen) && (e.gen == gen ==> e.truncTS == ts)
  }

  lemma {:induction false} OneGenerationCounts(log: seq<Entry>, ts: int, key: string, gen: nat)
    requires InOne(log, ts, key, gen)
    ensures Taken(log, ts, key) == TakenIn(log, gen, key) && Admitted(log, ts, key) == AdmittedIn(log, gen, key)
  {
    if log != [] {
      assert log[|log| - 1] in log;
      assert forall e :: e in log[..|log| - 1] ==> e in log;
      OneGenerationCounts(log[..|log| - 1], ts, key, gen);
    }
  }

  /** Each generation's takes are takes of its time. */
  ghost predicate OfTime(log: seq<Entry>, gen: nat, ts: int) {
    forall e :: e in log && e.gen == gen ==> e.truncTS == ts
  }

  lemma {:induction false} TwoGenerationsAdd(log: seq<Entry>, ts: int, key: string, g: nat, h: nat)
    requires g != h && OfTime(log, g, ts) && OfTime(log, h, ts)
    ensures Admitted(log, ts, key) >= AdmittedIn(log, g, key) + AdmittedIn(log, h, key)
    ensures Taken(log, ts, key) >= TakenIn(log, g, key) + TakenIn(log, h, key)
  {
    if log != [] {
      assert log[|log| - 1] in log;
      assert forall e :: e in log[..|log| - 1] ==> e in log;
      TwoGenerationsAdd(log[..|log| - 1], ts, key, g, h);
    }
  }

  lemma {:induction false} TakenAtMember(log: seq<Entry>, e: Entry)
    requires e in log
    ensures TakenIn(log, e.gen, e.key) > 0 && Taken(log, e.truncTS, e.key) > 0
  {
    if log[|log| - 1] != e {
      assert e in log[..|log| - 1];
      TakenAtMember(log[..|log| - 1], e);
    }
  }

  /** Either every take of a key at a time was admitted, or one generation was filled. */
  lemma {:induction false} AllOrFilled(max: int, log: seq<Entry>, ts: int, key: string) returns (full: nat)
    requires Fair(max, log)
    ensures Admitted(log, ts, key) <= Taken(log, ts, key)
    ensures Admitted(log, ts, key) < Taken(log, ts, key) ==>
              && TakenIn(log, full, key) > Cap(max)
              && exists e :: e in log && e.gen == full && e.truncTS == ts && e.key == key
  {
    full := 0;
    if log != [] {
      var rest, e := log[..|log| - 1], log[|log| - 1];
      assert e in log && forall x :: x in rest ==> x in log;
      full := AllOrFilled(max, rest, ts, key);
      if e.truncTS == ts && e.key == key && !e.admitted {
        full := e.gen;
      }
    }
  }

  ghost predicate OneGeneration(log: seq<Entry>, ts: int, key: string) {
    forall e, f :: e in log && f in log && e.truncTS == f.truncTS == ts && e.key == f.key == key ==> e.gen == f.gen
  }

  lemma OneGenerationLimits(max: int, gens: seq<Gen>, log: seq<Entry>, ts: int, key: string)
    requires Fair(max, log) && Placed(gens, log) && OneGeneration(log, ts, key)
    ensures Admitted(log, ts, key) == Min(Taken(log, ts, key), Cap(max))
  {
    if e :| e in log && e.truncTS == ts && e.key == key {
      OneGenerationCounts(log, ts, key, e.gen);
      FairPerGeneration(max, log, e.gen, key);
    } else {
      var full := AllOrFilled(max, log, ts, key);
      OneGenerationCounts(log, ts, key, |gens|);
      FairPerGeneration(max, log, |gens|, key);
    }
  }

  /** With takes in two generations and one of them filled, more than the limit is admitted. */
  lemma FilledAndAnother(max: int, gens: seq<Gen>, log: seq<Entry>, full: nat, e: Entry, f: Entry)
    requires Fair(max, log) && Placed(gens, log) && max > 0
    requires e in log && f in log && e.gen != f.gen && e.truncTS == f.truncTS && e.key == f.key
    requires TakenIn(log, full, e.key) > max
    requires exists x :: x in log && x.gen == full && x.truncTS == e.truncTS && x.key == e.key
    ensures Admitted(log, e.truncTS, e.key) > max
  {
    var other := if e.gen != full then e else f;
    TakenAtMember(log, other);
    FairPerGeneration(max, log, full, e.key);
    FairPerGeneration(max, log, other.gen, e.key);
    TwoGenerationsAdd(log, e.truncTS, e.key, full, other.gen);
  }

  lemma {:induction false} NoneAdmitted(max: int, log: seq<Entry>, ts: int, key: string)
    requires Fair(max, log) && max <= 0
    ensures Admitted(log, ts, key) == 0
  {
    if log != [] {
      NoneAdmitted(max, log[..|log| - 1], ts, key);
    }
  }

  lemma MoreThanFilled(max: int, gens: seq<Gen>, log: seq<Entry>, full: nat, ts: int, key: string)
    requires Placed(gens, log) && max > 0 && TakenIn(log, full, key) > max
    requires exists x :: x in log && x.gen == full && x.truncTS == ts && x.key == key
    ensures Taken(log, ts, key) > max
  {
    NoneTakenIn(log, |gens|, key);
    TwoGenerationsAdd(log, ts, key, full, |gens|);
  }

  lemma FairLimitIff(max: int, gens: seq<Gen>, log: seq<Entry>, ts: int, key: string)
    requires Fair(max, log) && Placed(gens, log)
    ensures Admitted(log, ts, key) == Min(Taken(log, ts, key), Cap(max)) <==>
              Taken(log, ts, key) <= max || max <= 0 || OneGeneration(log, ts, key)
  {
    var full := AllOrFilled(max, log, ts, key);
    if max <= 0 {
      NoneAdmitted(max, log, ts, key);
    } else if OneGeneration(log, ts, key) {
      OneGenerationLimits(max, gens, log, ts, key);
    } else {
      var e, f :| e in log && f in log && e.truncTS == f.truncTS == ts && e.key == f.key == key && e.gen != f.gen;
      if Admitted(log, ts, key) < Taken(log, ts, key) {
        FilledAndAnother(max, gens, log, full, e, f);
        MoreThanFilled(max, gens, log, full, ts, key);
      }
    }
  }

  // ---------------------------------------------------------------- the limit

  /** Under any clock and any interleaving, of the takes of a key counted in one generation exactly the
      first `max` are admitted. */
  lemma EveryGeneration(max: int, events: seq<Event>, t: State, gen: nat, key: string)
    requires Run(max, IDLE, events, t)
    ensures AdmittedIn(t.log, gen, key) == Min(TakenIn(t.log, gen, key), Cap(max))
    ensures gen < |t.gens| ==> Uses(t.gens[gen].keys, key) == TakenIn(t.log, gen, key)
  {
    RunKeepsInv(max, IDLE, events, t);
    FairPerGeneration(max, t.log, gen, key);
  }

  /** Under any clock and any interleaving, exactly min(n, max) of the n takes of a key counted for one
      truncated time are admitted if and only if they are no more than the limit, the limit admits none,
      or they were all counted in one generation. */
  lemma LimitIff(max: int, events: seq<Event>, t: State, ts: int, key: string)
    requires Run(max, IDLE, events, t)
    ensures Admitted(t.log, ts, key) == Min(Taken(t.log, ts, key), Cap(max)) <==>
              Taken(t.log, ts, key) <= max || max <= 0 || OneGeneration(t.log, ts, key)
  {
    RunKeepsInv(max, IDLE, events, t);
    FairLimitIff(max, t.gens, t.log, ts, key);
  }

  /** Generations are in order of time, none later than the clock. */
  ghost predicate Ordered(gens: seq<Gen>, clock: int) {
    && (forall i, j :: 0 <= i < j < |gens| ==> gens[i].truncTS < gens[j].truncTS)
    && (forall i :: 0 <= i < |gens| ==> gens[i].truncTS <= clock)
  }

  lemma {:induction false} NeverBackKeepsOrder(max: int, s: State, clock: int, events: seq<Event>, t: State)
    requires Ordered(s.gens, clock) && Run(max, s, events, t) && NeverBack(clock, events)
    ensures exists last :: Ordered(t.gens, last)
    decreases events
  {
    if events != [] {
      var e := events[0];
      NeverBackKeepsOrder(max, Step(max, s, e), if e.Enter? then e.truncTS else clock, events[1..], t);
    }
  }

  /** The limit under interleaving: while the truncated clock does not go back, of the n takes of a key
      counted for one truncated time exactly min(n, max) are admitted. */
  lemma EverySchedule(max: int, clock: int, events: seq<Event>, t: State, ts: int, key: string)
    requires Run(max, IDLE, events, t) && NeverBack(clock, events)
    ensures Admitted(t.log, ts, key) == Min(Taken(t.log, ts, key), Cap(max))
  {
    RunKeepsInv(max, IDLE, events, t);
    NeverBackKeepsOrder(max, IDLE, clock, events, t);
    var last :| Ordered(t.gens, last);
    OneGenerationLimits(max, t.gens, t.log, ts, key);
  }

  // ---------------------------------------------------------------- a clock that goes back

  lemma {:induction false} RunsJoin(max: int, s: State, a: seq<Event>, m: State, b: seq<Event>, t: State)
    requires Run(max, s, a, m) && Run(max, m, b, t)
    ensures Run(max, s, a + b, t)
    decreases a
  {
    if a == [] {
      assert a + b == b;
    } else {
      assert (a + b)[1..] == a[1..] + b;
      RunsJoin(max, Step(max, s, a[0]), a[1..], m, b, t);
    }
  }

  /** One whole take, uninterrupted. */
  lemma OneTake(max: int, s: State, ts: int, key: string) returns (events: seq<Event>, t: State)
    requires s.pending == map[]
    ensures Run(max, s, events, t) && t.pending == map[] && t.gens != [] && t.gens[|t.gens| - 1].truncTS == ts
    ensures |t.gens| == if s.gens == [] || s.gens[|s.gens| - 1].truncTS != ts then |s.gens| + 1 else |s.gens|
    ensures forall i :: 0 <= i < |s.gens| ==> t.gens[i].truncTS == s.gens[i].truncTS
    ensures forall g :: TakenIn(t.log, g, key) == TakenIn(s.log, g, key) + if g == |t.gens| - 1 then 1 else 0
  {
    var m := Step(max, s, Enter(0, key, ts));
    events, t := [Enter(0, key, ts), Commit(0)], Step(max, m, Commit(0));
    assert events[1..] == [Commit(0)] && events[1..][1..] == [];
    assert Run(max, m, [Commit(0)], t);
    assert t.log[..|s.log|] == s.log;
  }

  /** As many takes as the limit, in a generation of their own. */
  lemma {:induction false} Burst(max: int, s: State, ts: int, key: string, n: nat)
    returns (events: seq<Event>, t: State)
    requires s.pending == map[] && n > 0 && (s.gens == [] || s.gens[|s.gens| - 1].truncTS != ts)
    ensures Run(max, s, events, t) && t.pending == map[] && |t.gens| == |s.gens| + 1 && t.gens[|s.gens|].truncTS == ts
    ensures forall i :: 0 <= i < |s.gens| ==> t.gens[i].truncTS == s.gens[i].truncTS
    ensures forall g :: TakenIn(t.log, g, key) == TakenIn(s.log, g, key) + if g == |s.gens| then n else 0
    decreases n
  {
    if n == 1 {
      events, t := OneTake(max, s, ts, key);
    } else {
      var e1, m := Burst(max, s, ts, key, n - 1);
      var e2;
      e2, t := OneTake(max, m, ts, key);
      RunsJoin(max, s, e1, m, e2, t);
      events := e1 + e2;
    }
  }

  /** The condition can fail, for every limit: a truncated time that comes up again after another gets a
      second generation, and its whole limit anew. */
  lemma ClockBackTwiceTheLimit(max: nat, key: string) returns (events: seq<Event>, t: State)
    requires max > 0
    ensures Run(max, IDLE, events, t) && Admitted(t.log, 1, key) >= 2 * max
  {
    var e1, s1 := Burst(max, IDLE, 1, key, max);
    var e2, s2 := Burst(max, s1, 2, key, 1);
    var e3;
    e3, t := Burst(max, s2, 1, key, max);
    RunsJoin(max, IDLE, e1, s1, e2, s2);
    RunsJoin(max, IDLE, e1 + e2, s2, e3, t);
    events := e1 + e2 + e3;
    RunKeepsInv(max, IDLE, events, t);
    FairPerGeneration(max, t.log, 0, key);
    FairPerGeneration(max, t.log, 2, key);
    TwoGenerationsAdd(t.log, 1, key, 0, 2);
  }
}
