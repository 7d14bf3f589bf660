/** The batch pipeline of the server (server.go, handleBatchRPC): requests are screened, grouped so that
    no forwarded batch repeats an id, served from the cache or in minibatches, and scattered to slots. */
module BatchServer {
  import opened Common
  import opened Rewriter
  import opened BatchMerge
  import opened BatchForward

  datatype Raw = Unparsable | Parsed(req: RPCReq)

  datatype Server = Server(mappings: map<string, string>, overrideLims: set<string>, maxUpstreamBatchSize: nat)

  /** What the rate limiters and the sender checks decide for one request. */
  datatype Gate = Gate(baseLimited: bool, methodLimited: bool, sendError: Option<Err>)

  /** The surroundings of one batch: cached results by slot, the network, and for each forwarding call
      the backends to try, the group's consensus view and whether the deadline has passed. */
  datatype Env = Env(
    isBatch: bool,
    hits: map<nat, nat>,
    net: Exchange,
    plan: nat -> seq<nat>,
    context: (nat, string) -> Option<Context>,
    expired: nat -> bool)

  datatype BatchResult =
    | Answers(slots: seq<Option<RPCRes>>, cached: bool)
    | BatchFailure(err: Err)
    | BatchCrash(cause: Panic)

  // ---------------------------------------------------------------- screening

  predicate IsValidID(id: string) {
    if |id| > 0 && id[0] == '"' && id[|id| - 1] == '"' then |id| > 2
    else |id| > 0 && id[0] != '{' && id[0] != '['
  }

  predicate ValidReq(req: RPCReq) {
    req.jsonrpc == "2.0" && req.methodName != "" && IsValidID(req.id)
  }

  datatype Screening = Rejected(res: RPCRes) | Admitted(req: RPCReq, group: string)

  function Screen(s: Server, raw: Raw, g: Gate): Screening {
    match raw
    case Unparsable => Rejected(RPCRes("", Error(ParseErr)))
    case Parsed(req) =>
      if !ValidReq(req) then Rejected(RPCRes("", Error(InvalidRequest)))
      else if req.methodName == "eth_accounts" then Rejected(RPCRes(req.id, Data(0)))
      else if req.methodName !in s.mappings || s.mappings[req.methodName] == ""
      then Rejected(RPCRes(req.id, Error(MethodNotWhitelisted)))
      else if g.baseLimited then Rejected(RPCRes(req.id, Error(OverRateLimit)))
      else if req.methodName in s.overrideLims && g.methodLimited
      then Rejected(RPCRes(req.id, Error(OverRateLimit)))
      else if req.methodName in {"eth_sendRawTransaction", "eth_sendRawTransactionConditional"} && g.sendError.Some?
      then Rejected(RPCRes(req.id, Error(g.sendError.value)))
      else Admitted(req, s.mappings[req.methodName])
  }

  // ---------------------------------------------------------------- grouping

  datatype Elem = Elem(req: RPCReq, index: nat)

  /** A batch group: the occurrence number of the id, and the backend group. */
  datatype GroupKey = GroupKey(groupID: nat, backendGroup: string)

  type Batches = map<GroupKey, seq<Elem>>

  function Reqs(elems: seq<Elem>): (r: seq<RPCReq>)
    ensures |r| == |elems| && forall i :: 0 <= i < |r| ==> r[i] == elems[i].req
  {
    if elems == [] then [] else [elems[0].req] + Reqs(elems[1..])
  }

  ghost predicate DistinctSlots(elems: seq<Elem>, n: nat) {
    && (forall p :: 0 <= p < |elems| ==> elems[p].index < n)
    && (forall p, q :: 0 <= p < q < |elems| ==> elems[p].index != elems[q].index)
  }

  ghost predicate InSlotOrder(elems: seq<Elem>) {
    forall p, q :: 0 <= p < q < |elems| ==> elems[p].index < elems[q].index
  }

  /** No forwarded batch repeats an id. */
  ghost predicate DistinctIds(elems: seq<Elem>) {
    forall p, q :: 0 <= p < q < |elems| ==> elems[p].req.id != elems[q].req.id
  }

  ghost predicate Occurs(elems: seq<Elem>, j: nat) {
    exists p :: 0 <= p < |elems| && elems[p].index == j
  }

  function Screens(s: Server, raws: seq<Raw>, gates: seq<Gate>): (r: seq<Screening>)
    requires |raws| == |gates|
    ensures |r| == |raws|
  {
    if raws == [] then [] else [Screen(s, raws[0], gates[0])] + Screens(s, raws[1..], gates[1..])
  }

  lemma {:induction false} ScreenAt(s: Server, raws: seq<Raw>, gates: seq<Gate>, i: nat)
    requires i < |raws| == |gates|
    ensures Screens(s, raws, gates)[i] == Screen(s, raws[i], gates[i])
    decreases raws
  {
    if i > 0 { ScreenAt(s, raws[1..], gates[1..], i - 1); }
  }

  /** How many of the first n requests were admitted with this id. */
  function Occurrences(screens: seq<Screening>, n: nat, id: string): nat
    requires n <= |screens|
  {
    if n == 0 then 0
    else
      Occurrences(screens, n - 1, id) + if screens[n - 1].Admitted? && screens[n - 1].req.id == id then 1 else 0
  }

  lemma {:induction false} OccurrencesGrow(screens: seq<Screening>, m: nat, n: nat, id: string)
    requires m <= n <= |screens|
    ensures Occurrences(screens, m, id) <= Occurrences(screens, n, id)
  {
    if m < n { OccurrencesGrow(screens, m, n - 1, id); }
  }

  /** The group of an admitted request: which occurrence of its id it is, and its backend group. */
  function HomeOf(screens: seq<Screening>, j: nat): GroupKey
    requires j < |screens| && screens[j].Admitted?
  {
    GroupKey(Occurrences(screens, j + 1, screens[j].req.id), screens[j].group)
  }

  /** A batch holds admitted requests of its group in slot order, and repeats no id. */
  ghost predicate GoodBatch(screens: seq<Screening>, n: nat, key: GroupKey, elems: seq<Elem>)
    requires n <= |screens|
  {
    && DistinctSlots(elems, n)
    && InSlotOrder(elems)
    && DistinctIds(elems)
    && (forall p :: 0 <= p < |elems| ==>
          && screens[elems[p].index] == Admitted(elems[p].req, key.backendGroup)
          && HomeOf(screens, elems[p].index) == key)
  }

  /** Each admitted request among the first n occurs in the batch of its group. */
  ghost predicate Housed(screens: seq<Screening>, n: nat, batches: Batches)
    requires n <= |screens|
  {
    forall j :: 0 <= j < n && screens[j].Admitted? ==>
      HomeOf(screens, j) in batches && Occurs(batches[HomeOf(screens, j)], j)
  }

  /** The batches are determined: each holds exactly the admitted requests of its group, in order. */
  ghost predicate Grouped(screens: seq<Screening>, n: nat, batches: Batches)
    requires n <= |screens|
  {
    Housed(screens, n, batches) && forall key :: key in batches ==> GoodBatch(screens, n, key, batches[key])
  }

  function Count(ids: map<string, nat>, id: string): nat {
    if id in ids then ids[id] else 0
  }

  /** `ids` counts occurrences. */
  ghost predicate Counted(screens: seq<Screening>, n: nat, ids: map<string, nat>)
    requires n <= |screens|
  {
    forall id :: Count(ids, id) == Occurrences(screens, n, id)
  }

  function Batch(batches: Batches, key: GroupKey): seq<Elem> {
    if key in batches then batches[key] else []
  }

  lemma GrowBatch(screens: seq<Screening>, n: nat, key: GroupKey, elems: seq<Elem>, req: RPCReq)
    requires n < |screens| && GoodBatch(screens, n, key, elems)
    requires screens[n] == Admitted(req, key.backendGroup) && HomeOf(screens, n) == key
    requires forall p :: 0 <= p < |elems| ==> elems[p].req.id != req.id
    ensures GoodBatch(screens, n + 1, key, elems + [Elem(req, n)])
  {
  }

  lemma KeepHoused(screens: seq<Screening>, n: nat, batches: Batches, req: RPCReq)
    requires n < |screens| && Housed(screens, n, batches) && screens[n].Admitted?
    ensures var key := HomeOf(screens, n);
            Housed(screens, n + 1, batches[key := Batch(batches, key) + [Elem(req, n)]])
  {
    var key := HomeOf(screens, n);
    var grown := Batch(batches, key) + [Elem(req, n)];
    var batches' := batches[key := grown];
    assert grown[|grown| - 1].index == n;
    forall j | 0 <= j < n && screens[j].Admitted?
      ensures HomeOf(screens, j) in batches' && Occurs(batches'[HomeOf(screens, j)], j)
    {
      var home := HomeOf(screens, j);
      var p :| 0 <= p < |batches[home]| && batches[home][p].index == j;
      assert batches'[home][p].index == j;
    }
  }

  /** The batch of the next occurrence of an id does not hold that id yet. */
  lemma FreshInBatch(screens: seq<Screening>, n: nat, batches: Batches, req: RPCReq)
    requires n < |screens| && Grouped(screens, n, batches) && screens[n].Admitted? && screens[n].req == req
    ensures var batch := Batch(batches, HomeOf(screens, n));
            forall p :: 0 <= p < |batch| ==> batch[p].req.id != req.id
  {
    var key := HomeOf(screens, n);
    var batch := Batch(batches, key);
    forall p | 0 <= p < |batch| ensures batch[p].req.id != req.id {
      assert GoodBatch(screens, n, key, batch);
      OccurrencesGrow(screens, batch[p].index + 1, n, req.id);
    }
  }

  lemma CountOneMore(screens: seq<Screening>, n: nat, ids: map<string, nat>, req: RPCReq)
    requires n < |screens| && Counted(screens, n, ids) && screens[n].Admitted? && screens[n].req == req
    ensures Counted(screens, n + 1, ids[req.id := Count(ids, req.id) + 1])
  {
    var ids' := ids[req.id := Count(ids, req.id) + 1];
    forall id ensures Count(ids', id) == Occurrences(screens, n + 1, id) {
      assert Count(ids, id) == Occurrences(screens, n, id);
    }
  }

  /** Adding the next admitted request to the batch of its occurrence keeps the grouping. */
  lemma GroupOneMore(screens: seq<Screening>, n: nat, batches: Batches, ids: map<string, nat>, req: RPCReq,
                     group: string)
    requires n < |screens| && Grouped(screens, n, batches) && Counted(screens, n, ids)
    requires screens[n] == Admitted(req, group)
    ensures var key := GroupKey(Count(ids, req.id) + 1, group);
            && Grouped(screens, n + 1, batches[key := Batch(batches, key) + [Elem(req, n)]])
            && Counted(screens, n + 1, ids[req.id := Count(ids, req.id) + 1])
  {
    var key := GroupKey(Count(ids, req.id) + 1, group);
    assert HomeOf(screens, n) == key;
    CountOneMore(screens, n, ids, req);
    FreshInBatch(screens, n, batches, req);
    KeepHoused(screens, n, batches, req);
    var batch := Batch(batches, key);
    assert GoodBatch(screens, n, key, batch);
    GrowBatch(screens, n, key, batch, req);
  }

  lemma GroupSkip(screens: seq<Screening>, n: nat, batches: Batches, ids: map<string, nat>)
    requires n < |screens| && Grouped(screens, n, batches) && Counted(screens, n, ids) && screens[n].Rejected?
    ensures Grouped(screens, n + 1, batches) && Counted(screens, n + 1, ids)
  {
  }

  // ---------------------------------------------------------------- minibatches

  function NumBatches(n: nat, size: nat): nat
    requires size > 0
  {
    (n + size - 1) / size
  }

  function RangeStart(size: nat, i: nat): nat { i * size }

  function RangeEnd(n: nat, size: nat, i: nat): nat {
    if RangeStart(size, i) + size < n then RangeStart(size, i) + size else n
  }

  lemma QuotientBound(m: nat, size: nat, k: nat)
    requires size > 0 && k <= m / size
    ensures k * size <= m
  {
    assert m == (m / size) * size + m % size;
    assert k * size <= (m / size) * size;
  }

  lemma QuotientCovers(n: nat, size: nat)
    requires size > 0
    ensures NumBatches(n, size) * size >= n
  {
    var m := n + size - 1;
    assert m == (m / size) * size + m % size;
  }

  /** Minibatches partition the list: the ranges are non-empty, at most the size, each starts where
      the one before ended, and the last ends at the end of the list. */
  lemma MinibatchRanges(n: nat, size: nat, i: nat)
    requires size > 0
    ensures i < NumBatches(n, size) ==>
              && RangeStart(size, i) < RangeEnd(n, size, i) <= n
              && RangeEnd(n, size, i) - RangeStart(size, i) <= size
              && (i + 1 < NumBatches(n, size) ==> RangeEnd(n, size, i) == RangeStart(size, i + 1))
              && (i + 1 == NumBatches(n, size) ==> RangeEnd(n, size, i) == n)
    ensures NumBatches(n, size) == 0 <==> n == 0
  {
    QuotientCovers(n, size);
    if i < NumBatches(n, size) {
      QuotientBound(n + size - 1, size, i + 1);
      assert (i + 1) * size == i * size + size;
      if i + 1 < NumBatches(n, size) {
        QuotientBound(n + size - 1, size, i + 2);
        assert (i + 2) * size == i * size + size + size;
      }
    }
  }

  /** Where the i-th minibatch starts, and the one before it ends. */
  function CutPoint(n: nat, size: nat, i: nat): nat {
    if i == 0 then 0 else if CutPoint(n, size, i - 1) + size < n then CutPoint(n, size, i - 1) + size else n
  }

  lemma {:induction false} CutPoints(n: nat, size: nat, i: nat)
    requires size > 0
    ensures i < NumBatches(n, size) ==> CutPoint(n, size, i) == RangeStart(size, i) < n
    ensures i >= NumBatches(n, size) ==> CutPoint(n, size, i) == n
    ensures 0 < i <= NumBatches(n, size) ==> CutPoint(n, size, i) == RangeEnd(n, size, i - 1)
  {
    MinibatchRanges(n, size, i);
    if i > 0 {
      CutPoints(n, size, i - 1);
      MinibatchRanges(n, size, i - 1);
    }
  }

  /** The number of minibatches: the cut points reach the end of the list there, and not before. */
  method CountMinibatches(n: nat, size: nat) returns (numBatches: nat)
    requires size > 0
    ensures CutPoint(n, size, numBatches) == n
    ensures forall i :: 0 <= i < numBatches ==> CutPoint(n, size, i) < n
  {
    numBatches := NumBatches(n, size);
    forall i | 0 <= i <= numBatches ensures CutPoint(n, size, i) < n <==> i < numBatches {
      CutPoints(n, size, i);
    }
    CutPoints(n, size, numBatches);
  }

  /** The bounds of the i-th minibatch. */
  method MinibatchBounds(n: nat, size: nat, i: nat) returns (start: nat, end: nat)
    requires size > 0 && CutPoint(n, size, i) < n
    ensures start == CutPoint(n, size, i) < end == CutPoint(n, size, i + 1) <= n && end - start <= size
  {
    CutPoints(n, size, i);
    CutPoints(n, size, i + 1);
    MinibatchRanges(n, size, i);
    start := i * size;
    end := if start + size < n then start + size else n;
  }

  function Chunks<T>(xs: seq<T>, size: nat, k: nat): seq<T>
    requires size > 0 && k <= NumBatches(|xs|, size)
  {
    if k == 0 then []
    else
      MinibatchRanges(|xs|, size, k - 1);
      Chunks(xs, size, k - 1) + xs[RangeStart(size, k - 1)..RangeEnd(|xs|, size, k - 1)]
  }

  /** The minibatches, one after the other, are the whole list. */
  lemma {:induction false} ChunksConcatenate<T>(xs: seq<T>, size: nat, k: nat)
    requires size > 0 && k <= NumBatches(|xs|, size)
    ensures k > 0 ==> RangeEnd(|xs|, size, k - 1) <= |xs| && Chunks(xs, size, k) == xs[..RangeEnd(|xs|, size, k - 1)]
    ensures k == NumBatches(|xs|, size) ==> Chunks(xs, size, k) == xs
  {
    if k > 0 {
      ChunksConcatenate(xs, size, k - 1);
      MinibatchRanges(|xs|, size, k - 1);
      if k > 1 { MinibatchRanges(|xs|, size, k - 2); }
    } else {
      MinibatchRanges(|xs|, size, 0);
    }
  }

  // ---------------------------------------------------------------- what was sent

  /** One forwarding call: a minibatch of a group and the responses it got. */
  datatype Sending = Sending(key: GroupKey, elems: seq<Elem>, res: seq<RPCRes>)

  /** What becomes of each request of a minibatch under the group's view at this call. */
  function DecisionsAt(env: Env, call: nat, key: GroupKey, elems: seq<Elem>): seq<Decision> {
    Decisions(env.context(call, key.backendGroup), Reqs(elems))
  }

  function VerdictAt(env: Env, call: nat, key: GroupKey, elems: seq<Elem>): Verdict {
    GroupVerdict(env.net, call, env.plan(call), 0, Passed(DecisionsAt(env, call, key, elems)), env.isBatch)
  }

  predicate AboutReceipts(err: Err) {
    err.ReceiptsCantBeBatched? || err.ReceiptsInvalidTarget?
  }

  /** The error of a failed minibatch goes to each of its requests. */
  ghost predicate AllFailed(elems: seq<Elem>, err: Err, res: seq<RPCRes>) {
    |res| == |elems| && forall p :: 0 <= p < |elems| ==> res[p] == RPCRes(elems[p].req.id, Error(err))
  }

  /** A completed call: its responses are the forwarded answers to its own minibatch, or its error. */
  ghost predicate CallRight(env: Env, call: nat, s: Sending) {
    && s.elems != [] && !env.expired(call)
    && DistinctIds(s.elems)
    && Halt !in DecisionsAt(env, call, s.key, s.elems)
    && match VerdictAt(env, call, s.key, s.elems)
       case Refuses(err) => !AboutReceipts(err) && AllFailed(s.elems, err, s.res)
       case Breaks => false
       case Delivers(list) => Forwarded(DecisionsAt(env, call, s.key, s.elems), list, s.res)
  }

  /** A call that ends the whole batch, with the reason. */
  ghost predicate CallStops(env: Env, call: nat, s: Sending, stop: BatchResult) {
    && s.elems != [] && !env.expired(call)
    && if Halt in DecisionsAt(env, call, s.key, s.elems) then stop == BatchCrash(EmptyFilter)
       else
         match VerdictAt(env, call, s.key, s.elems)
         case Refuses(err) => AboutReceipts(err) && stop == BatchFailure(err)
         case Breaks => stop == BatchCrash(NilPointer)
         case Delivers(_) => false
  }

  /** All calls so far, numbered by their position, were completed; none was larger than the limit. */
  ghost predicate TraceRight(env: Env, size: nat, trace: seq<Sending>) {
    forall c :: 0 <= c < |trace| ==> |trace[c].elems| <= size && CallRight(env, c, trace[c])
  }

  /** Everything sent for a group, in the order in which it was sent. */
  ghost function SentFor(trace: seq<Sending>, key: GroupKey): seq<Elem> {
    if trace == [] then []
    else
      var rest, last := trace[..|trace| - 1], trace[|trace| - 1];
      SentFor(rest, key) + if last.key == key then last.elems else []
  }

  /** The calls since `before` sent these elements for this group and nothing for another. */
  ghost predicate Continues(before: seq<Sending>, trace: seq<Sending>, key: GroupKey, elems: seq<Elem>) {
    && before <= trace
    && SentFor(trace, key) == SentFor(before, key) + elems
    && (forall other :: other != key ==> SentFor(trace, other) == SentFor(before, other))
    && (forall c :: |before| <= c < |trace| ==> trace[c].key == key)
  }

  lemma ContinueOneMore(before: seq<Sending>, trace: seq<Sending>, elems: seq<Elem>, s: Sending)
    requires Continues(before, trace, s.key, elems)
    ensures Continues(before, trace + [s], s.key, elems + s.elems)
  {
    assert (trace + [s])[..|trace|] == trace;
  }

  /** Why the batch was given up: the deadline had passed when the next call was due, or the last call
      ended it; all calls before were completed. */
  ghost predicate Reason(env: Env, size: nat, trace: seq<Sending>, stop: BatchResult) {
    || (stop == BatchFailure(DeadlineExceeded) && TraceRight(env, size, trace) && env.expired(|trace|))
    || (&& |trace| > 0 && |trace[|trace| - 1].elems| <= size
        && TraceRight(env, size, trace[..|trace| - 1])
        && CallStops(env, |trace| - 1, trace[|trace| - 1], stop))
  }

  // ---------------------------------------------------------------- filling slots

  type Slots = seq<Option<RPCRes>>

  /** The response this element got in this call. */
  ghost predicate AnsweredAt(trace: seq<Sending>, c: int, p: int, key: GroupKey, e: Elem, r: RPCRes) {
    && 0 <= c < |trace| && trace[c].key == key
    && 0 <= p < |trace[c].elems| == |trace[c].res|
    && trace[c].elems[p] == e && trace[c].res[p] == r
  }

  /** The right response for a slot: the cached result, or what its own call brought. */
  ghost predicate Good(env: Env, trace: seq<Sending>, key: GroupKey, e: Elem, r: RPCRes) {
    if e.index in env.hits then r == RPCRes(e.req.id, Data(env.hits[e.index]))
    else exists c, p :: AnsweredAt(trace, c, p, key, e, r)
  }

  lemma GoodGrows(env: Env, trace: seq<Sending>, trace': seq<Sending>, key: GroupKey, e: Elem, r: RPCRes)
    requires Good(env, trace, key, e, r) && trace <= trace'
    ensures Good(env, trace', key, e, r)
  {
    if e.index !in env.hits {
      var c, p :| AnsweredAt(trace, c, p, key, e, r);
      assert AnsweredAt(trace', c, p, key, e, r);
    }
  }

  /** The slots of these elements were each written once, with good responses; nothing else was. */
  ghost predicate Filled(env: Env, trace: seq<Sending>, key: GroupKey, elems: seq<Elem>, before: Slots, after: Slots,
                         w: seq<nat>, w': seq<nat>)
  {
    && |after| == |before| == |w| == |w'|
    && (forall j :: 0 <= j < |before| ==>
          if Occurs(elems, j) then w'[j] == w[j] + 1 else after[j] == before[j] && w'[j] == w[j])
    && (forall p :: 0 <= p < |elems| ==>
          && elems[p].index < |after|
          && after[elems[p].index].Some?
          && Good(env, trace, key, elems[p], after[elems[p].index].value))
  }

  lemma FilledNone(env: Env, trace: seq<Sending>, key: GroupKey, slots: Slots, w: seq<nat>)
    requires |w| == |slots|
    ensures Filled(env, trace, key, [], slots, slots, w, w)
  {
  }

  lemma FilledGrows(env: Env, trace: seq<Sending>, trace': seq<Sending>, key: GroupKey, elems: seq<Elem>,
                    before: Slots, after: Slots, w: seq<nat>, w': seq<nat>)
    requires Filled(env, trace, key, elems, before, after, w, w') && trace <= trace'
    ensures Filled(env, trace', key, elems, before, after, w, w')
  {
    forall p | 0 <= p < |elems| ensures Good(env, trace', key, elems[p], after[elems[p].index].value) {
      GoodGrows(env, trace, trace', key, elems[p], after[elems[p].index].value);
    }
  }

  lemma OccursConcat(a: seq<Elem>, b: seq<Elem>, j: nat, n: nat)
    requires DistinctSlots(a + b, n)
    ensures Occurs(a + b, j) <==> Occurs(a, j) || Occurs(b, j)
    ensures !(Occurs(a, j) && Occurs(b, j))
  {
    forall p, q | 0 <= p < |a| && 0 <= q < |b| ensures a[p].index != b[q].index {
      assert (a + b)[p] == a[p] && (a + b)[|a| + q] == b[q];
    }
    if Occurs(a, j) {
      var p :| 0 <= p < |a| && a[p].index == j;
      assert (a + b)[p].index == j;
    } else if Occurs(b, j) {
      var q :| 0 <= q < |b| && b[q].index == j;
      assert (a + b)[|a| + q].index == j;
    }
  }

  /** Filling one set of slots and then a disjoint one fills both. */
  lemma FilledThen(env: Env, trace: seq<Sending>, key: GroupKey, a: seq<Elem>, b: seq<Elem>,
                   s0: Slots, s1: Slots, s2: Slots, w0: seq<nat>, w1: seq<nat>, w2: seq<nat>)
    requires Filled(env, trace, key, a, s0, s1, w0, w1) && Filled(env, trace, key, b, s1, s2, w1, w2)
    requires DistinctSlots(a + b, |s0|)
    ensures Filled(env, trace, key, a + b, s0, s2, w0, w2)
  {
    var both := a + b;
    forall j | 0 <= j < |s0|
      ensures Occurs(both, j) <==> Occurs(a, j) || Occurs(b, j)
      ensures !(Occurs(a, j) && Occurs(b, j))
    {
      OccursConcat(a, b, j, |s0|);
    }
    forall p | 0 <= p < |both|
      ensures s2[both[p].index].Some? && Good(env, trace, key, both[p], s2[both[p].index].value)
    {
      if p < |a| {
        assert Occurs(a, a[p].index);
      } else {
        assert both[p] == b[p - |a|];
      }
    }
  }

  lemma FilledOne(env: Env, trace: seq<Sending>, key: GroupKey, e: Elem, r: RPCRes, before: Slots, w: seq<nat>)
    requires e.index < |before| == |w| && Good(env, trace, key, e, r)
    ensures Filled(env, trace, key, [e], before, before[e.index := Some(r)], w, w[e.index := w[e.index] + 1])
  {
    assert Occurs([e], e.index) by { assert [e][0].index == e.index; }
  }

  /** The scatter loop: each response goes to the slot of its element. */
  method Scatter(ghost env: Env, ghost trace: seq<Sending>, ghost key: GroupKey, elems: seq<Elem>, res: seq<RPCRes>,
                 responses: array<Option<RPCRes>>, ghost w: seq<nat>)
    returns (ghost w': seq<nat>)
    requires DistinctSlots(elems, responses.Length) && |res| == |elems| && |w| == responses.Length
    requires forall i :: 0 <= i < |elems| ==> Good(env, trace, key, elems[i], res[i])
    modifies responses
    ensures Filled(env, trace, key, elems, old(responses[..]), responses[..], w, w')
  {
    w' := w;
    FilledNone(env, trace, key, responses[..], w);
    assert elems[..0] == [];
    for i := 0 to |elems|
      invariant Filled(env, trace, key, elems[..i], old(responses[..]), responses[..], w, w')
    {
      ghost var before, v := responses[..], w';
      responses[elems[i].index] := Some(res[i]);
      w' := w'[elems[i].index := w'[elems[i].index] + 1];
      FilledOne(env, trace, key, elems[i], res[i], before, v);
      assert elems[..i + 1] == elems[..i] + [elems[i]];
      FilledThen(env, trace, key, elems[..i], [elems[i]], old(responses[..]), before, responses[..], w, v, w');
    }
    assert elems[..|elems|] == elems;
  }

  lemma FilledSame(env: Env, trace: seq<Sending>, key: GroupKey, a: seq<Elem>, b: seq<Elem>,
                   before: Slots, after: Slots, w: seq<nat>, w': seq<nat>)
    requires Filled(env, trace, key, a, before, after, w, w') && forall e :: e in a <==> e in b
    ensures Filled(env, trace, key, b, before, after, w, w')
  {
    forall j | 0 <= j < |before| ensures Occurs(a, j) <==> Occurs(b, j) {
      if Occurs(a, j) {
        var p :| 0 <= p < |a| && a[p].index == j;
        assert a[p] in b;
      }
      if Occurs(b, j) {
        var p :| 0 <= p < |b| && b[p].index == j;
        assert b[p] in a;
      }
    }
    forall p | 0 <= p < |b|
      ensures b[p].index < |after| && after[b[p].index].Some? && Good(env, trace, key, b[p], after[b[p].index].value)
    {
      assert b[p] in a;
    }
  }

  // ---------------------------------------------------------------- serving one batch

  /** The responses of one forwarded minibatch, or the reason to give up the whole batch. */
  method ForwardMinibatch(env: Env, key: GroupKey, call: nat, elems: seq<Elem>)
    returns (res: seq<RPCRes>, stop: Option<BatchResult>)
    requires DistinctIds(elems) && elems != [] && !env.expired(call)
    ensures stop.None? ==> CallRight(env, call, Sending(key, elems, res)) && |res| == |elems|
    ensures stop.Some? ==> CallStops(env, call, Sending(key, elems, res), stop.value)
  {
    res, stop := [], None;
    var ctx := env.context(call, key.backendGroup);
    assert UniqueIds(Reqs(elems));
    PassedIdsUnique(ctx, Reqs(elems));
    var r := Forward(env.net, call, env.plan(call), ctx, Reqs(elems), env.isBatch);
    match r {
      case Served(list) =>
        res := list;
      case Crashed(cause) =>
        stop := Some(BatchCrash(cause));
      case Failure(err) =>
        if AboutReceipts(err) {
          stop := Some(BatchFailure(err));
          return;
        }
        for i := 0 to |elems|
          invariant AllFailed(elems[..i], err, res)
        {
          res := res + [RPCRes(elems[i].req.id, Error(err))];
        }
        assert elems[..|elems|] == elems;
    }
  }

  /** The elements of a batch that are not in the cache, in order. */
  function Misses(env: Env, batch: seq<Elem>): seq<Elem> {
    if batch == [] then []
    else
      var rest, e := batch[..|batch| - 1], batch[|batch| - 1];
      Misses(env, rest) + if e.index in env.hits then [] else [e]
  }

  ghost predicate NoRepeats(elems: seq<Elem>) {
    forall p, q :: 0 <= p < q < |elems| ==> elems[p] != elems[q]
  }

  /** The elements seen so far, divided by the cache, each part in order. */
  ghost predicate Divided(env: Env, seen: seq<Elem>, hits: seq<Elem>, misses: seq<Elem>) {
    && (forall e :: e in hits <==> e in seen && e.index in env.hits)
    && (forall e :: e in misses <==> e in seen && e.index !in env.hits)
    && NoRepeats(hits) && NoRepeats(misses)
  }

  lemma MembersDistinct(batch: seq<Elem>, part: seq<Elem>, n: nat)
    requires DistinctSlots(batch, n) && NoRepeats(part) && forall e :: e in part ==> e in batch
    ensures DistinctSlots(part, n)
  {
    forall p | 0 <= p < |part| ensures part[p].index < n {
      assert part[p] in batch;
    }
    forall p, q | 0 <= p < q < |part| ensures part[p].index != part[q].index {
      assert part[p] in batch && part[q] in batch;
      var a :| 0 <= a < |batch| && batch[a] == part[p];
      var b :| 0 <= b < |batch| && batch[b] == part[q];
    }
  }

  lemma DivideOneMore(env: Env, batch: seq<Elem>, i: nat, hits: seq<Elem>, misses: seq<Elem>, n: nat)
    requires i < |batch| && DistinctSlots(batch, n) && Divided(env, batch[..i], hits, misses)
    ensures batch[i].index in env.hits ==>
              Divided(env, batch[..i + 1], hits + [batch[i]], misses) && DistinctSlots(hits + [batch[i]], n)
    ensures batch[i].index !in env.hits ==> Divided(env, batch[..i + 1], hits, misses + [batch[i]])
  {
    assert batch[..i + 1] == batch[..i] + [batch[i]];
    forall e | e in batch[..i] ensures e.index != batch[i].index && e.index < n {
      var p :| 0 <= p < i && batch[p] == e;
    }
    MembersDistinct(batch, hits, n);
  }

  lemma DividedDistinct(env: Env, batch: seq<Elem>, hits: seq<Elem>, misses: seq<Elem>, n: nat)
    requires DistinctSlots(batch, n) && DistinctIds(batch) && Divided(env, batch, hits, misses)
    ensures DistinctSlots(hits + misses, n) && DistinctIds(misses)
  {
    forall p, q | 0 <= p < q < |hits + misses| ensures (hits + misses)[p] != (hits + misses)[q] {
      assert p < |hits| ==> hits[p] in hits;
      assert q >= |hits| ==> misses[q - |hits|] in misses;
    }
    MembersDistinct(batch, hits + misses, n);
    forall p, q | 0 <= p < q < |misses| ensures misses[p].req.id != misses[q].req.id {
      assert misses[p] in batch && misses[q] in batch;
      var a :| 0 <= a < |batch| && batch[a] == misses[p];
      var b :| 0 <= b < |batch| && batch[b] == misses[q];
    }
  }

  ghost predicate AnyHit(env: Env, elems: seq<Elem>) {
    exists p :: 0 <= p < |elems| && elems[p].index in env.hits
  }

  lemma HitOneMore(env: Env, batch: seq<Elem>, i: nat)
    requires i < |batch|
    ensures AnyHit(env, batch[..i + 1]) <==> AnyHit(env, batch[..i]) || batch[i].index in env.hits
  {
    assert batch[..i + 1][i] == batch[i];
    if AnyHit(env, batch[..i]) {
      var p :| 0 <= p < i && batch[..i][p].index in env.hits;
      assert batch[..i + 1][p].index in env.hits;
    }
  }

  /** The cache lookup: hits are written to their slots, misses are kept in order. */
  method LookUp(env: Env, ghost trace: seq<Sending>, ghost key: GroupKey, batch: seq<Elem>,
                responses: array<Option<RPCRes>>, ghost w: seq<nat>)
    returns (misses: seq<Elem>, cached: bool, ghost hits: seq<Elem>, ghost w': seq<nat>)
    requires DistinctSlots(batch, responses.Length) && DistinctIds(batch) && |w| == responses.Length
    modifies responses
    ensures misses == Misses(env, batch)
    ensures forall e :: e in hits + misses <==> e in batch
    ensures DistinctSlots(hits + misses, responses.Length) && DistinctIds(misses)
    ensures forall e :: e in misses ==> e.index !in env.hits
    ensures Filled(env, trace, key, hits, old(responses[..]), responses[..], w, w')
    ensures cached <==> AnyHit(env, batch)
  {
    misses, cached, hits, w' := [], false, [], w;
    FilledNone(env, trace, key, responses[..], w);
    for i := 0 to |batch|
      invariant misses == Misses(env, batch[..i])
      invariant Divided(env, batch[..i], hits, misses) && (cached <==> AnyHit(env, batch[..i]))
      invariant Filled(env, trace, key, hits, old(responses[..]), responses[..], w, w')
    {
      var e := batch[i];
      DivideOneMore(env, batch, i, hits, misses, responses.Length);
      HitOneMore(env, batch, i);
      assert batch[..i + 1][..i] == batch[..i];
      if e.index in env.hits {
        ghost var before, v := responses[..], w';
        var r := RPCRes(e.req.id, Data(env.hits[e.index]));
        responses[e.index] := Some(r);
        w' := w'[e.index := w'[e.index] + 1];
        FilledOne(env, trace, key, e, r, before, v);
        FilledThen(env, trace, key, hits, [e], old(responses[..]), before, responses[..], w, v, w');
        hits := hits + [e];
        cached := true;
      } else {
        misses := misses + [e];
      }
    }
    assert batch[..|batch|] == batch;
    DividedDistinct(env, batch, hits, misses, responses.Length);
  }

  lemma SliceDistinct(elems: seq<Elem>, start: nat, end: nat, n: nat)
    requires start <= end <= |elems| && DistinctSlots(elems, n) && DistinctIds(elems)
    ensures elems[..end] == elems[..start] + elems[start..end]
    ensures DistinctSlots(elems[start..end], n) && DistinctIds(elems[start..end]) && DistinctSlots(elems[..end], n)
    ensures forall e :: e in elems[start..end] ==> e in elems
  {
  }

  lemma TraceOneMore(env: Env, size: nat, trace: seq<Sending>, s: Sending)
    requires TraceRight(env, size, trace) && |s.elems| <= size && CallRight(env, |trace|, s)
    ensures TraceRight(env, size, trace + [s])
  {
  }

  lemma ReasonOneMore(env: Env, size: nat, trace: seq<Sending>, s: Sending, stop: BatchResult)
    requires TraceRight(env, size, trace) && |s.elems| <= size && CallStops(env, |trace|, s, stop)
    ensures Reason(env, size, trace + [s], stop) && stop != BatchFailure(DeadlineExceeded)
  {
    assert (trace + [s])[..|trace|] == trace;
  }

  /** The responses of the last call are good ones. */
  lemma LastCallGood(env: Env, trace: seq<Sending>, s: Sending)
    requires |s.res| == |s.elems| && forall e :: e in s.elems ==> e.index !in env.hits
    ensures forall p :: 0 <= p < |s.elems| ==> Good(env, trace + [s], s.key, s.elems[p], s.res[p])
  {
    forall p | 0 <= p < |s.elems| ensures Good(env, trace + [s], s.key, s.elems[p], s.res[p]) {
      assert AnsweredAt(trace + [s], |trace|, p, s.key, s.elems[p], s.res[p]);
      assert s.elems[p] in s.elems;
    }
  }

  /** What is to be sent: elements with distinct slots and ids that are not in the cache. */
  ghost predicate Sendable(env: Env, elems: seq<Elem>, n: nat) {
    DistinctSlots(elems, n) && DistinctIds(elems) && forall e :: e in elems ==> e.index !in env.hits
  }

  /** The calls since `before` were completed, and carried and answered these elements. */
  ghost predicate ServedSoFar(env: Env, size: nat, key: GroupKey, elems: seq<Elem>, before: seq<Sending>,
                              trace: seq<Sending>, s0: Slots, slots: Slots, w0: seq<nat>, w: seq<nat>)
  {
    && TraceRight(env, size, trace)
    && Continues(before, trace, key, elems)
    && Filled(env, trace, key, elems, s0, slots, w0, w)
  }

  /** The calls since `before` carried these elements, and the last one ended the batch. */
  ghost predicate StoppedAt(env: Env, size: nat, key: GroupKey, elems: seq<Elem>, before: seq<Sending>,
                            trace: seq<Sending>, stop: BatchResult)
  {
    Continues(before, trace, key, elems) && Reason(env, size, trace, stop)
  }

  lemma ServedOneMore(env: Env, size: nat, key: GroupKey, done: seq<Elem>, before: seq<Sending>, trace: seq<Sending>,
                      s0: Slots, s1: Slots, s2: Slots, w0: seq<nat>, w1: seq<nat>, w2: seq<nat>, sent: Sending)
    requires ServedSoFar(env, size, key, done, before, trace, s0, s1, w0, w1)
    requires sent.key == key && |sent.elems| <= size && CallRight(env, |trace|, sent)
    requires Filled(env, trace + [sent], key, sent.elems, s1, s2, w1, w2) && DistinctSlots(done + sent.elems, |s0|)
    ensures ServedSoFar(env, size, key, done + sent.elems, before, trace + [sent], s0, s2, w0, w2)
  {
    ContinueOneMore(before, trace, done, sent);
    TraceOneMore(env, size, trace, sent);
    FilledGrows(env, trace, trace + [sent], key, done, s0, s1, w0, w1);
    FilledThen(env, trace + [sent], key, done, sent.elems, s0, s1, s2, w0, w1, w2);
  }

  lemma StoppedOneMore(env: Env, size: nat, key: GroupKey, done: seq<Elem>, before: seq<Sending>, trace: seq<Sending>,
                       sent: Sending, stop: BatchResult)
    requires TraceRight(env, size, trace) && Continues(before, trace, key, done)
    requires sent.key == key && |sent.elems| <= size && CallStops(env, |trace|, sent, stop)
    ensures StoppedAt(env, size, key, done + sent.elems, before, trace + [sent], stop)
    ensures stop != BatchFailure(DeadlineExceeded)
  {
    ContinueOneMore(before, trace, done, sent);
    ReasonOneMore(env, size, trace, sent, stop);
  }

  /** One minibatch: its responses join those of the elements before it. */
  method ServeMinibatch(env: Env, size: nat, key: GroupKey, misses: seq<Elem>, start: nat, end: nat, call: nat,
                        responses: array<Option<RPCRes>>, ghost before: seq<Sending>, ghost trace: seq<Sending>,
                        ghost s0: Slots, ghost w0: seq<nat>, ghost w: seq<nat>)
    returns (stop: Option<BatchResult>, ghost trace': seq<Sending>, ghost w': seq<nat>)
    requires start < end <= |misses| && end - start <= size && |s0| == responses.Length
    requires call == |trace| && !env.expired(call) && Sendable(env, misses, responses.Length)
    requires ServedSoFar(env, size, key, misses[..start], before, trace, s0, responses[..], w0, w)
    modifies responses
    ensures |trace'| == |trace| + 1
    ensures stop.None? ==> ServedSoFar(env, size, key, misses[..end], before, trace', s0, responses[..], w0, w')
    ensures stop.Some? ==> StoppedAt(env, size, key, misses[..end], before, trace', stop.value)
    ensures stop != Some(BatchFailure(DeadlineExceeded))
  {
    var elems := misses[start..end];
    var res;
    w' := w;
    SliceDistinct(misses, start, end, responses.Length);
    res, stop := ForwardMinibatch(env, key, call, elems);
    ghost var sent := Sending(key, elems, res);
    trace' := trace + [sent];
    if stop.None? {
      ghost var s1 := responses[..];
      LastCallGood(env, trace, sent);
      w' := Scatter(env, trace', key, elems, res, responses, w);
      ServedOneMore(env, size, key, misses[..start], before, trace, s0, s1, responses[..], w0, w, w', sent);
    } else {
      StoppedOneMore(env, size, key, misses[..start], before, trace, sent, stop.value);
    }
  }

  lemma NothingServed(env: Env, size: nat, key: GroupKey, misses: seq<Elem>, trace: seq<Sending>, slots: Slots,
                      w: seq<nat>)
    requires TraceRight(env, size, trace) && |w| == |slots|
    ensures ServedSoFar(env, size, key, misses[..0], trace, trace, slots, slots, w, w)
  {
    assert misses[..0] == [];
    FilledNone(env, trace, key, slots, w);
  }

  lemma DeadlineStops(env: Env, size: nat, key: GroupKey, done: seq<Elem>, before: seq<Sending>, trace: seq<Sending>,
                      s0: Slots, slots: Slots, w0: seq<nat>, w: seq<nat>)
    requires ServedSoFar(env, size, key, done, before, trace, s0, slots, w0, w) && env.expired(|trace|)
    ensures StoppedAt(env, size, key, done, before, trace, BatchFailure(DeadlineExceeded))
  {
  }

  /** One turn of the minibatch loop: the deadline is checked first. */
  method ServeNext(env: Env, size: nat, key: GroupKey, misses: seq<Elem>, i: nat, call: nat,
                   responses: array<Option<RPCRes>>, ghost before: seq<Sending>, ghost trace: seq<Sending>,
                   ghost sent: nat, ghost s0: Slots, ghost w0: seq<nat>, ghost w: seq<nat>)
    returns (stop: Option<BatchResult>, ghost trace': seq<Sending>, ghost sent': nat, ghost w': seq<nat>)
    requires size > 0 && sent == CutPoint(|misses|, size, i) < |misses| && |s0| == responses.Length
    requires call == |trace| && Sendable(env, misses, responses.Length)
    requires ServedSoFar(env, size, key, misses[..sent], before, trace, s0, responses[..], w0, w)
    modifies responses
    ensures sent' <= |misses|
    ensures stop.None? ==>
              && sent' == CutPoint(|misses|, size, i + 1) && |trace'| == call + 1
              && ServedSoFar(env, size, key, misses[..sent'], before, trace', s0, responses[..], w0, w')
    ensures stop.Some? ==> StoppedAt(env, size, key, misses[..sent'], before, trace', stop.value)
    ensures stop == Some(BatchFailure(DeadlineExceeded)) ==> sent' < |misses|
  {
    if env.expired(call) {
      DeadlineStops(env, size, key, misses[..sent], before, trace, s0, responses[..], w0, w);
      stop, trace', sent', w' := Some(BatchFailure(DeadlineExceeded)), trace, sent, w;
      return;
    }
    var start, end := MinibatchBounds(|misses|, size, i);
    sent' := end;
    stop, trace', w' := ServeMinibatch(env, size, key, misses, start, end, call, responses, before, trace, s0, w0, w);
  }

  /** The minibatch loop: every miss is forwarded in a minibatch and its response scattered. */
  method ServeMisses(env: Env, size: nat, key: GroupKey, misses: seq<Elem>, call: nat,
                     responses: array<Option<RPCRes>>, ghost trace: seq<Sending>, ghost w: seq<nat>)
    returns (stop: Option<BatchResult>, calls: nat, ghost trace': seq<Sending>, ghost sent: nat, ghost w': seq<nat>)
    requires size > 0 && |w| == responses.Length && call == |trace| && TraceRight(env, size, trace)
    requires Sendable(env, misses, responses.Length)
    modifies responses
    ensures sent <= |misses|
    ensures stop.None? ==>
              && misses[..sent] == misses && calls == |trace'|
              && ServedSoFar(env, size, key, misses[..sent], trace, trace', old(responses[..]), responses[..], w, w')
    ensures stop.Some? ==> StoppedAt(env, size, key, misses[..sent], trace, trace', stop.value)
    ensures stop == Some(BatchFailure(DeadlineExceeded)) ==> sent < |misses|
  {
    stop, calls, trace', sent, w' := None, call, trace, 0, w;
    ghost var s0 := responses[..];
    NothingServed(env, size, key, misses, trace, s0, w);
    var numBatches := CountMinibatches(|misses|, size);
    for i := 0 to numBatches
      invariant stop.None? && calls == |trace'| && sent == CutPoint(|misses|, size, i) <= |misses|
      invariant ServedSoFar(env, size, key, misses[..sent], trace, trace', s0, responses[..], w, w')
    {
      stop, trace', sent, w' :=
        ServeNext(env, size, key, misses, i, calls, responses, trace, trace', sent, s0, w, w');
      if stop.Some? {
        return;
      }
      calls := calls + 1;
    }
  }

  /** The hits and then the misses make up the batch. */
  lemma HitsThenMisses(env: Env, size: nat, key: GroupKey, batch: seq<Elem>, hits: seq<Elem>, misses: seq<Elem>,
                       trace: seq<Sending>, trace': seq<Sending>, s0: Slots, s1: Slots, s2: Slots,
                       w0: seq<nat>, w1: seq<nat>, w2: seq<nat>)
    requires Filled(env, trace, key, hits, s0, s1, w0, w1) && DistinctSlots(hits + misses, |s0|)
    requires ServedSoFar(env, size, key, misses, trace, trace', s1, s2, w1, w2)
    requires forall e :: e in hits + misses <==> e in batch
    ensures Filled(env, trace', key, batch, s0, s2, w0, w2)
  {
    FilledGrows(env, trace, trace', key, hits, s0, s1, w0, w1);
    FilledThen(env, trace', key, hits, misses, s0, s1, s2, w0, w1, w2);
    FilledSame(env, trace', key, hits + misses, batch, s0, s2, w0, w2);
  }

  /** One batch group: cache hits, then the rest in minibatches; every slot of the batch is filled. */
  method ServeBatch(env: Env, size: nat, key: GroupKey, batch: seq<Elem>, call: nat,
                    responses: array<Option<RPCRes>>, ghost trace: seq<Sending>, ghost w: seq<nat>)
    returns (stop: Option<BatchResult>, calls: nat, cached: bool, ghost trace': seq<Sending>, ghost sent: nat,
             ghost w': seq<nat>)
    requires size > 0 && |w| == responses.Length && call == |trace| && TraceRight(env, size, trace)
    requires DistinctSlots(batch, responses.Length) && DistinctIds(batch)
    modifies responses
    ensures cached <==> AnyHit(env, batch)
    ensures sent <= |Misses(env, batch)|
    ensures stop.None? ==>
              && calls == |trace'| && TraceRight(env, size, trace')
              && Continues(trace, trace', key, Misses(env, batch))
              && Filled(env, trace', key, batch, old(responses[..]), responses[..], w, w')
    ensures stop.Some? ==> StoppedAt(env, size, key, Misses(env, batch)[..sent], trace, trace', stop.value)
    ensures stop == Some(BatchFailure(DeadlineExceeded)) ==> sent < |Misses(env, batch)|
  {
    var misses;
    ghost var hits, v;
    misses, cached, hits, v := LookUp(env, trace, key, batch, responses, w);
    ghost var between := responses[..];
    assert DistinctSlots(misses, responses.Length) by {
      assert forall p :: 0 <= p < |misses| ==> misses[p] == (hits + misses)[|hits| + p];
    }
    stop, calls, trace', sent, w' := ServeMisses(env, size, key, misses, call, responses, trace, v);
    if stop.None? {
      HitsThenMisses(env, size, key, batch, hits, misses, trace, trace',
                     old(responses[..]), between, responses[..], w, v, w');
    }
  }

  // ---------------------------------------------------------------- the whole batch

  /** What slot j must hold: the rejection, or a good response for the admitted request. */
  ghost predicate SlotRight(env: Env, screens: seq<Screening>, trace: seq<Sending>, j: nat, slot: Option<RPCRes>)
    requires j < |screens|
  {
    slot.Some? &&
    match screens[j]
    case Rejected(res) => slot.value == res
    case Admitted(req, _) => Good(env, trace, HomeOf(screens, j), Elem(req, j), slot.value)
  }

  ghost predicate Waits(screens: seq<Screening>, todo: set<GroupKey>, j: nat)
    requires j < |screens|
  {
    screens[j].Admitted? && HomeOf(screens, j) in todo
  }

  /** While batches are being served: slots of rejected requests and of served batches are right and
      written once; the others are still empty and unwritten. */
  ghost predicate Progress(env: Env, screens: seq<Screening>, todo: set<GroupKey>, trace: seq<Sending>,
                           slots: Slots, w: seq<nat>)
  {
    && |slots| == |w| == |screens|
    && forall j :: 0 <= j < |screens| ==>
         if Waits(screens, todo, j) then slots[j].None? && w[j] == 0
         else SlotRight(env, screens, trace, j, slots[j]) && w[j] == 1
  }

  lemma ProgressGrows(env: Env, screens: seq<Screening>, todo: set<GroupKey>, trace: seq<Sending>, trace': seq<Sending>,
                      slots: Slots, w: seq<nat>)
    requires Progress(env, screens, todo, trace, slots, w) && trace <= trace'
    ensures Progress(env, screens, todo, trace', slots, w)
  {
    forall j | 0 <= j < |screens| && !Waits(screens, todo, j) ensures SlotRight(env, screens, trace', j, slots[j]) {
      assert SlotRight(env, screens, trace, j, slots[j]);
      if screens[j].Admitted? {
        GoodGrows(env, trace, trace', HomeOf(screens, j), Elem(screens[j].req, j), slots[j].value);
      }
    }
  }

  lemma ServedProgress(env: Env, screens: seq<Screening>, batches: Batches, todo: set<GroupKey>, trace: seq<Sending>,
                       key: GroupKey, before: Slots, after: Slots, w: seq<nat>, w': seq<nat>)
    requires Grouped(screens, |screens|, batches) && key in todo && key in batches
    requires Progress(env, screens, todo, trace, before, w)
    requires Filled(env, trace, key, batches[key], before, after, w, w')
    ensures Progress(env, screens, todo - {key}, trace, after, w')
  {
    forall j | 0 <= j < |screens|
      ensures if Waits(screens, todo - {key}, j) then after[j].None? && w'[j] == 0
              else SlotRight(env, screens, trace, j, after[j]) && w'[j] == 1
    {
      assert GoodBatch(screens, |screens|, key, batches[key]);
      if Occurs(batches[key], j) {
        var p :| 0 <= p < |batches[key]| && batches[key][p].index == j;
        assert batches[key][p] == Elem(screens[j].req, j) && HomeOf(screens, j) == key;
      } else {
        assert screens[j].Admitted? ==> HomeOf(screens, j) != key;
      }
    }
  }

  /** What was sent: for each served group its misses and for each other group nothing. */
  ghost predicate Accounts(env: Env, batches: Batches, todo: set<GroupKey>, trace: seq<Sending>) {
    && (forall c :: 0 <= c < |trace| ==> trace[c].key in batches)
    && (forall key :: key in batches ==>
          SentFor(trace, key) == if key in todo then [] else Misses(env, batches[key]))
  }

  /** What was sent is a part of each group's misses, in order. */
  ghost predicate PartSent(env: Env, batches: Batches, trace: seq<Sending>) {
    && (forall c :: 0 <= c < |trace| ==> trace[c].key in batches)
    && (forall key :: key in batches ==> SentFor(trace, key) <= Misses(env, batches[key]))
  }

  ghost predicate Unfinished(env: Env, batches: Batches, trace: seq<Sending>) {
    exists key :: key in batches && SentFor(trace, key) != Misses(env, batches[key])
  }

  /** The batch was given up for a reason that occurred, with something left to send when the deadline
      had passed. */
  ghost predicate Stopped(env: Env, size: nat, batches: Batches, trace: seq<Sending>, stop: BatchResult) {
    && Reason(env, size, trace, stop)
    && PartSent(env, batches, trace)
    && (stop == BatchFailure(DeadlineExceeded) ==> Unfinished(env, batches, trace))
  }

  lemma CallsIn(batches: Batches, before: seq<Sending>, trace: seq<Sending>, key: GroupKey, elems: seq<Elem>)
    requires Continues(before, trace, key, elems) && key in batches
    requires forall c :: 0 <= c < |before| ==> before[c].key in batches
    ensures forall c :: 0 <= c < |trace| ==> trace[c].key in batches
  {
    assert forall c :: 0 <= c < |before| ==> trace[c] == before[c];
  }

  lemma AccountsOneMore(env: Env, batches: Batches, todo: set<GroupKey>, trace: seq<Sending>, trace': seq<Sending>,
                        key: GroupKey, misses: seq<Elem>)
    requires key in batches && key in todo && Accounts(env, batches, todo, trace) && misses == Misses(env, batches[key])
    requires Continues(trace, trace', key, misses)
    ensures Accounts(env, batches, todo - {key}, trace')
  {
    CallsIn(batches, trace, trace', key, misses);
    forall k | k in batches
      ensures SentFor(trace', k) == if k in todo - {key} then [] else Misses(env, batches[k])
    {
      if k == key {
        assert SentFor(trace', key) == SentFor(trace, key) + misses && SentFor(trace, key) == [];
      } else {
        assert SentFor(trace', k) == SentFor(trace, k);
      }
    }
  }

  lemma AccountsPart(env: Env, batches: Batches, todo: set<GroupKey>, trace: seq<Sending>, trace': seq<Sending>,
                     key: GroupKey, misses: seq<Elem>, sent: nat)
    requires key in batches && key in todo && Accounts(env, batches, todo, trace) && misses == Misses(env, batches[key])
    requires sent <= |misses| && Continues(trace, trace', key, misses[..sent])
    ensures PartSent(env, batches, trace') && (sent < |misses| ==> Unfinished(env, batches, trace'))
  {
    CallsIn(batches, trace, trace', key, misses[..sent]);
    assert SentFor(trace', key) == SentFor(trace, key) + misses[..sent] && SentFor(trace, key) == [];
    assert SentFor(trace', key) == misses[..sent];
    forall k | k in batches ensures SentFor(trace', k) <= Misses(env, batches[k]) {
      if k != key {
        assert SentFor(trace', k) == SentFor(trace, k);
      }
    }
  }

  lemma AccountsStopped(env: Env, size: nat, batches: Batches, todo: set<GroupKey>, trace: seq<Sending>,
                        trace': seq<Sending>, key: GroupKey, misses: seq<Elem>, sent: nat, stop: BatchResult)
    requires key in batches && key in todo && Accounts(env, batches, todo, trace) && misses == Misses(env, batches[key])
    requires sent <= |misses| && StoppedAt(env, size, key, misses[..sent], trace, trace', stop)
    requires stop == BatchFailure(DeadlineExceeded) ==> sent < |misses|
    ensures Stopped(env, size, batches, trace', stop)
  {
    AccountsPart(env, batches, todo, trace, trace', key, misses, sent);
  }

  /** A request found in the cache belongs to a batch that is already served. */
  ghost predicate HitOutside(env: Env, screens: seq<Screening>, todo: set<GroupKey>) {
    exists j :: 0 <= j < |screens| && screens[j].Admitted? && HomeOf(screens, j) !in todo && j in env.hits
  }

  lemma HitServed(env: Env, screens: seq<Screening>, batches: Batches, todo: set<GroupKey>, key: GroupKey)
    requires Grouped(screens, |screens|, batches) && key in todo && key in batches
    ensures HitOutside(env, screens, todo - {key}) <==> HitOutside(env, screens, todo) || AnyHit(env, batches[key])
  {
    assert GoodBatch(screens, |screens|, key, batches[key]);
    if HitOutside(env, screens, todo - {key}) && !HitOutside(env, screens, todo) {
      var j :| 0 <= j < |screens| && screens[j].Admitted? && HomeOf(screens, j) !in todo - {key} && j in env.hits;
      assert Occurs(batches[key], j);
    }
    if AnyHit(env, batches[key]) {
      var p :| 0 <= p < |batches[key]| && batches[key][p].index in env.hits;
      assert HomeOf(screens, batches[key][p].index) == key;
    }
  }

  /** Some admitted request was found in the cache. */
  ghost predicate SomeCached(env: Env, screens: seq<Screening>) {
    exists j :: 0 <= j < |screens| && screens[j].Admitted? && j in env.hits
  }

  /** The loop over the batch groups, which a hash map gives in any order. */
  method ServeBatches(env: Env, size: nat, batches: Batches, responses: array<Option<RPCRes>>,
                      ghost screens: seq<Screening>, ghost w0: seq<nat>)
    returns (stop: Option<BatchResult>, cached: bool, ghost trace: seq<Sending>, ghost w: seq<nat>)
    requires size > 0 && Grouped(screens, |screens|, batches)
    requires Progress(env, screens, batches.Keys, [], responses[..], w0)
    modifies responses
    ensures stop.None? ==>
              && TraceRight(env, size, trace) && Accounts(env, batches, {}, trace)
              && Progress(env, screens, {}, trace, responses[..], w)
              && (cached <==> SomeCached(env, screens))
    ensures stop.Some? ==> Stopped(env, size, batches, trace, stop.value)
  {
    stop, trace, w := None, [], w0;
    var todo := batches.Keys;
    var calls;
    calls, cached := 0, false;
    assert !HitOutside(env, screens, todo);
    while todo != {}
      invariant stop.None? && todo <= batches.Keys && calls == |trace|
      invariant TraceRight(env, size, trace) && Accounts(env, batches, todo, trace)
      invariant Progress(env, screens, todo, trace, responses[..], w)
      invariant cached <==> HitOutside(env, screens, todo)
      decreases todo
    {
      var key :| key in todo;
      ghost var before, v, trace0, sent := responses[..], w, trace, 0;
      assert GoodBatch(screens, |screens|, key, batches[key]);
      var hit;
      stop, calls, hit, trace, sent, w := ServeBatch(env, size, key, batches[key], calls, responses, trace0, v);
      if stop.Some? {
        AccountsStopped(env, size, batches, todo, trace0, trace, key, Misses(env, batches[key]), sent, stop.value);
        return;
      }
      AccountsOneMore(env, batches, todo, trace0, trace, key, Misses(env, batches[key]));
      ProgressGrows(env, screens, todo, trace0, trace, before, v);
      ServedProgress(env, screens, batches, todo, trace, key, before, responses[..], v, w);
      HitServed(env, screens, batches, todo, key);
      cached := cached || hit;
      todo := todo - {key};
    }
  }

  /** After screening n requests, the rejections among them are written and nothing else is. */
  ghost predicate Screened(screens: seq<Screening>, n: nat, slots: Slots, w: seq<nat>) {
    && |slots| == |w| == |screens|
    && forall j :: 0 <= j < |screens| ==>
         if j < n && screens[j].Rejected? then slots[j] == Some(screens[j].res) && w[j] == 1
         else slots[j].None? && w[j] == 0
  }

  lemma ScreenedReject(screens: seq<Screening>, n: nat, slots: Slots, w: seq<nat>)
    requires n < |screens| && Screened(screens, n, slots, w) && screens[n].Rejected?
    ensures Screened(screens, n + 1, slots[n := Some(screens[n].res)], w[n := w[n] + 1])
  {
  }

  lemma ScreenedProgress(env: Env, screens: seq<Screening>, batches: Batches, slots: Slots, w: seq<nat>)
    requires Grouped(screens, |screens|, batches) && Screened(screens, |screens|, slots, w)
    ensures Progress(env, screens, batches.Keys, [], slots, w)
  {
  }

  method ScreenRequest(s: Server, raws: seq<Raw>, gates: seq<Gate>, i: nat) returns (r: Screening)
    requires i < |raws| == |gates|
    ensures r == Screens(s, raws, gates)[i]
  {
    ScreenAt(s, raws, gates, i);
    r := Screen(s, raws[i], gates[i]);
  }

  /** The first loop: rejections are written, admitted requests are grouped. */
  method GroupRequests(s: Server, ghost env: Env, raws: seq<Raw>, gates: seq<Gate>, responses: array<Option<RPCRes>>)
    returns (batches: Batches, ghost w: seq<nat>)
    requires |gates| == |raws| == responses.Length
    requires forall j :: 0 <= j < responses.Length ==> responses[j].None?
    modifies responses
    ensures Grouped(Screens(s, raws, gates), |raws|, batches)
    ensures Progress(env, Screens(s, raws, gates), batches.Keys, [], responses[..], w)
  {
    ghost var screens := Screens(s, raws, gates);
    batches := map[];
    w := seq(|raws|, _ => 0);
    var ids: map<string, nat> := map[];
    for i := 0 to |raws|
      invariant Grouped(screens, i, batches) && Counted(screens, i, ids)
      invariant Screened(screens, i, responses[..], w)
    {
      var screening := ScreenRequest(s, raws, gates, i);
      match screening {
        case Rejected(res) =>
          GroupSkip(screens, i, batches, ids);
          ScreenedReject(screens, i, responses[..], w);
          responses[i] := Some(res);
          w := w[i := w[i] + 1];
        case Admitted(req, group) =>
          GroupOneMore(screens, i, batches, ids, req, group);
          ids := ids[req.id := Count(ids, req.id) + 1];
          var key := GroupKey(ids[req.id], group);
          batches := batches[key := Batch(batches, key) + [Elem(req, i)]];
      }
    }
    ScreenedProgress(env, screens, batches, responses[..], w);
  }

  /** A single health probe is answered before anything else. */
  predicate IsHealthProbe(raws: seq<Raw>) {
    |raws| == 1 && raws[0].Parsed? && raws[0].req.methodName == "proxyd_healthz"
  }

  /** The calls account for every miss, and every slot was written exactly once and holds the rejection,
      the cached result or what its own call brought. */
  ghost predicate Complete(env: Env, size: nat, screens: seq<Screening>, batches: Batches, trace: seq<Sending>,
                           slots: Slots, w: seq<nat>)
  {
    && TraceRight(env, size, trace)
    && Accounts(env, batches, {}, trace)
    && |slots| == |w| == |screens|
    && forall j :: 0 <= j < |screens| ==> w[j] == 1 && SlotRight(env, screens, trace, j, slots[j])
  }

  lemma ProgressComplete(env: Env, size: nat, screens: seq<Screening>, batches: Batches, trace: seq<Sending>,
                         slots: Slots, w: seq<nat>)
    requires TraceRight(env, size, trace) && Accounts(env, batches, {}, trace)
    requires Progress(env, screens, {}, trace, slots, w)
    ensures Complete(env, size, screens, batches, trace, slots, w)
  {
    assert forall j :: 0 <= j < |screens| ==> !Waits(screens, {}, j);
  }

  /** Every slot whose request parses and validates carries that request's id. */
  ghost predicate IdsMatch(raws: seq<Raw>, slots: Slots) {
    && |slots| == |raws|
    && forall j :: 0 <= j < |raws| && raws[j].Parsed? && ValidReq(raws[j].req) ==>
         slots[j].Some? && slots[j].value.id == raws[j].req.id
  }

  /** With a well-behaved network a completed call answers each request under its own id. */
  lemma CallIds(env: Env, call: nat, s: Sending, p: nat)
    requires WellBehaved(env.net) && CallRight(env, call, s) && p < |s.elems| == |s.res|
    ensures s.res[p].id == s.elems[p].req.id
  {
    var v := VerdictAt(env, call, s.key, s.elems);
    if v.Delivers? {
      var ctx := env.context(call, s.key.backendGroup);
      ForwardedIds(env.net, call, env.plan(call), ctx, Reqs(s.elems), env.isBatch, v.list, s.res);
    }
  }

  /** So does every slot of an admitted request. */
  lemma SlotId(env: Env, size: nat, screens: seq<Screening>, trace: seq<Sending>, j: nat, slot: Option<RPCRes>)
    requires WellBehaved(env.net) && TraceRight(env, size, trace)
    requires j < |screens| && screens[j].Admitted? && SlotRight(env, screens, trace, j, slot)
    ensures slot.value.id == screens[j].req.id
  {
    if j !in env.hits {
      var e := Elem(screens[j].req, j);
      var c, p :| AnsweredAt(trace, c, p, HomeOf(screens, j), e, slot.value);
      CallIds(env, c, trace[c], p);
    }
  }

  lemma CompleteIds(s: Server, env: Env, raws: seq<Raw>, gates: seq<Gate>, batches: Batches, trace: seq<Sending>,
                    slots: Slots, w: seq<nat>)
    requires |gates| == |raws| && WellBehaved(env.net)
    requires Complete(env, s.maxUpstreamBatchSize, Screens(s, raws, gates), batches, trace, slots, w)
    ensures IdsMatch(raws, slots)
  {
    var screens := Screens(s, raws, gates);
    forall j | 0 <= j < |raws| && raws[j].Parsed? && ValidReq(raws[j].req)
      ensures slots[j].Some? && slots[j].value.id == raws[j].req.id
    {
      ScreenAt(s, raws, gates, j);
      assert SlotRight(env, screens, trace, j, slots[j]);
      if screens[j].Admitted? {
        SlotId(env, s.maxUpstreamBatchSize, screens, trace, j, slots[j]);
      }
    }
  }

  /** The whole pipeline. On a nil-error return every slot was written exactly once and holds the
      rejection, the cached result or what the one call that carried its request brought, and the calls
      carried each group's misses once and in order; if the network answers each batch with one reply per
      id in any order, every slot whose request parses and validates carries that request's id. Otherwise
      the batch was given up because the deadline had passed at the call that was due, or because of what
      became of the last call; the duplicate-id panic is not among the reasons. */
  method HandleBatchRPC(s: Server, env: Env, raws: seq<Raw>, gates: seq<Gate>)
    returns (r: BatchResult, ghost batches: Batches, ghost trace: seq<Sending>, ghost w: seq<nat>)
    requires |gates| == |raws| && s.maxUpstreamBatchSize > 0
    ensures |raws| == 1 && raws[0].Parsed? && raws[0].req.methodName == "proxyd_healthz" ==>
              r == Answers([Some(RPCRes(raws[0].req.id, Data(1)))], false)
    ensures !(|raws| == 1 && raws[0].Parsed? && raws[0].req.methodName == "proxyd_healthz") ==>
              var screens := Screens(s, raws, gates);
              && Grouped(screens, |screens|, batches)
              && (r.Answers? ==>
                    && Complete(env, s.maxUpstreamBatchSize, screens, batches, trace, r.slots, w)
                    && (r.cached <==> SomeCached(env, screens)))
              && (!r.Answers? ==> Stopped(env, s.maxUpstreamBatchSize, batches, trace, r))
    ensures r.Answers? && WellBehaved(env.net) ==> IdsMatch(raws, r.slots)
  {
    batches, trace, w := map[], [], [1];
    if IsHealthProbe(raws) {
      r := Answers([Some(RPCRes(raws[0].req.id, Data(1)))], false);
      return;
    }
    var responses := new Option<RPCRes>[|raws|](_ => None);
    var groups;
    groups, w := GroupRequests(s, env, raws, gates, responses);
    batches := groups;
    var stop, cached;
    stop, cached, trace, w := ServeBatches(env, s.maxUpstreamBatchSize, groups, responses, Screens(s, raws, gates), w);
    if stop.Some? {
      r := stop.value;
      return;
    }
    r := Answers(responses[..], cached);
    ProgressComplete(env, s.maxUpstreamBatchSize, Screens(s, raws, gates), batches, trace, r.slots, w);
    if WellBehaved(env.net) {
      CompleteIds(s, env, raws, gates, batches, trace, r.slots, w);
    }
  }
}
