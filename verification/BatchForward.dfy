/** Forwarding one list of requests to a backend group (backend.go): local overrides are split off, the
    rest is sent with retries and failover, and the replies are put back in order. */
module BatchForward {
  import opened Common
  import opened Rewriter
  import opened BatchMerge

  /** The outcome of one HTTP exchange: an element of the reply may be null; `badRequest` is status 400,
      other replies have status 200. */
  datatype Reply = NoReply(err: Err) | Replies(list: seq<Option<RPCRes>>, badRequest: bool)

  /** The network: which forwarding call, which backend in failover order, which attempt, what was sent. */
  type Exchange = (nat, nat, nat, seq<RPCReq>) -> Reply

  datatype Panic = DuplicateId | EmptyFilter | NilPointer

  datatype Result = Served(res: seq<RPCRes>) | Failure(err: Err) | Crashed(cause: Panic)

  predicate NoNulls(list: seq<Option<RPCRes>>) {
    forall i :: 0 <= i < |list| ==> list[i].Some?
  }

  function Values(list: seq<Option<RPCRes>>): (r: seq<RPCRes>)
    requires NoNulls(list)
    ensures |r| == |list| && forall i :: 0 <= i < |r| ==> r[i] == list[i].value
  {
    if list == [] then [] else Values(list[..|list| - 1]) + [list[|list| - 1].value]
  }

  /** A batch that is answered in full is answered with one reply per id, in any order. */
  ghost predicate WellBehaved(net: Exchange) {
    forall c: nat, b: nat, a: nat, q: seq<RPCReq> ::
      var r := net(c, b, a, q);
      r.Replies? && NoNulls(r.list) && |r.list| == |q| && UniqueIds(q) ==> OneReplyPerId(q, Values(r.list))
  }

  /** What comes of asking: an error, a full list of replies, or a crash. */
  datatype Verdict = Refuses(err: Err) | Delivers(list: seq<RPCRes>) | Breaks

  /** The result follows from the verdict: a failure is passed on, and a full list is sorted back into
      request order, unless two requests share an id. */
  ghost predicate Matching(reqs: seq<RPCReq>, v: Verdict, r: Result) {
    match v
    case Refuses(e) => r == Failure(e)
    case Breaks => r == Crashed(NilPointer)
    case Delivers(list) =>
      if UniqueIds(reqs) then r.Served? && |list| == |reqs| && Reordered(reqs, list, r.res)
      else r == Crashed(DuplicateId)
  }

  // ---------------------------------------------------------------- one backend

  predicate HasReceiptsCall(reqs: seq<RPCReq>) {
    exists i :: 0 <= i < |reqs| && reqs[i].methodName == "consensus_getReceipts"
  }

  predicate AllErrors(list: seq<Option<RPCRes>>) {
    forall i :: 0 <= i < |list| ==> list[i].Some? && list[i].value.body.Error?
  }

  /** What comes of one attempt: every element of the reply is dereferenced, and the error of every element
      of a reply to a bad request is written to, so a null element, or there one without an error, crashes. */
  function AttemptVerdict(net: Exchange, call: nat, backend: nat, attempt: nat, reqs: seq<RPCReq>,
                          isBatch: bool): Verdict
  {
    if isBatch && HasReceiptsCall(reqs) then Refuses(ReceiptsCantBeBatched)
    else
      match net(call, backend, attempt, reqs)
      case NoReply(e) => Refuses(e)
      case Replies(list, badRequest) =>
        if |list| != |reqs| then Refuses(UnexpectedJSONRPC)
        else if !NoNulls(list) || (badRequest && !AllErrors(list)) then Breaks
        else Delivers(Values(list))
  }

  /** One attempt, exactly. */
  lemma AttemptExact(net: Exchange, call: nat, backend: nat, attempt: nat, reqs: seq<RPCReq>, isBatch: bool)
    ensures var reply := net(call, backend, attempt, reqs);
            var v := AttemptVerdict(net, call, backend, attempt, reqs, isBatch);
            if isBatch && exists i :: 0 <= i < |reqs| && reqs[i].methodName == "consensus_getReceipts"
            then v == Refuses(ReceiptsCantBeBatched)
            else if reply.NoReply? then v == Refuses(reply.err)
            else if |reply.list| != |reqs| then v == Refuses(UnexpectedJSONRPC)
            else if exists i :: 0 <= i < |reply.list|
                                && (reply.list[i].None? || (reply.badRequest && !reply.list[i].value.body.Error?))
            then v == Breaks
            else v.Delivers? && |v.list| == |reqs| && forall i :: 0 <= i < |reqs| ==> reply.list[i] == Some(v.list[i])
  {
  }

  method DoForward(net: Exchange, call: nat, backend: nat, attempt: nat, reqs: seq<RPCReq>, isBatch: bool)
    returns (r: Result)
    ensures Matching(reqs, AttemptVerdict(net, call, backend, attempt, reqs, isBatch), r)
  {
    if isBatch && HasReceiptsCall(reqs) {
      return Failure(ReceiptsCantBeBatched);
    }
    var reply := net(call, backend, attempt, reqs);
    if reply.NoReply? {
      return Failure(reply.err);
    }
    if |reply.list| != |reqs| {
      return Failure(UnexpectedJSONRPC);
    }
    if reply.badRequest {
      for i := 0 to |reply.list|
        invariant AllErrors(reply.list[..i])
      {
        if reply.list[i].None? || !reply.list[i].value.body.Error? {
          return Crashed(NilPointer);
        }
      }
      assert reply.list[..|reply.list|] == reply.list;
    }
    var values: seq<RPCRes> := [];
    for i := 0 to |reply.list|
      invariant NoNulls(reply.list[..i]) && values == Values(reply.list[..i])
    {
      if reply.list[i].None? {
        return Crashed(NilPointer);
      }
      assert reply.list[..i + 1][..i] == reply.list[..i];
      values := values + [reply.list[i].value];
    }
    assert reply.list[..|reply.list|] == reply.list;
    var sorted, panicked := SortBatchRPCResponse(reqs, values);
    if panicked {
      return Crashed(DuplicateId);
    }
    return Served(sorted);
  }

  /** Errors after which a backend is not asked again. */
  predicate Final(err: Err) {
    err.ResponseTooLarge? || err.ReceiptsCantBeBatched? || err.ReceiptsInvalidTarget?
    || err.UnexpectedJSONRPC? || err.ContextCanceled?
  }

  /** What comes of a backend from this attempt on: the first verdict that is final, or the last retry's. */
  function BackendVerdict(net: Exchange, call: nat, backend: nat, attempt: nat, retries: nat, reqs: seq<RPCReq>,
                          isBatch: bool): Verdict
    decreases retries - attempt
  {
    var v := AttemptVerdict(net, call, backend, attempt, reqs, isBatch);
    if !v.Refuses? || Final(v.err) || attempt >= retries then v
    else BackendVerdict(net, call, backend, attempt + 1, retries, reqs, isBatch)
  }

  const FINAL_ERRORS: set<Err> :=
    {ResponseTooLarge, ReceiptsCantBeBatched, ReceiptsInvalidTarget, UnexpectedJSONRPC, ContextCanceled}

  /** Retries, exactly: every attempt before the deciding one failed with an error that is retried, and the
      deciding one succeeded, crashed, failed with one that is not, or was the last. */
  lemma {:induction false} RetriesExact(net: Exchange, call: nat, backend: nat, attempt: nat, retries: nat,
                                        reqs: seq<RPCReq>, isBatch: bool) returns (k: nat)
    requires attempt <= retries
    ensures var v := BackendVerdict(net, call, backend, attempt, retries, reqs, isBatch);
            && attempt <= k <= retries && v == AttemptVerdict(net, call, backend, k, reqs, isBatch)
            && (v.Refuses? ==> k == retries || v.err in FINAL_ERRORS)
            && (forall j :: attempt <= j < k ==>
                  var u := AttemptVerdict(net, call, backend, j, reqs, isBatch);
                  u.Refuses? && u.err !in FINAL_ERRORS)
    decreases retries - attempt
  {
    var v := AttemptVerdict(net, call, backend, attempt, reqs, isBatch);
    if v.Refuses? && v.err !in FINAL_ERRORS && attempt < retries {
      k := RetriesExact(net, call, backend, attempt + 1, retries, reqs, isBatch);
    } else {
      k := attempt;
    }
  }

  method ForwardToBackend(net: Exchange, call: nat, backend: nat, retries: nat, reqs: seq<RPCReq>, isBatch: bool)
    returns (r: Result)
    ensures Matching(reqs, BackendVerdict(net, call, backend, 0, retries, reqs, isBatch), r)
  {
    ghost var verdict := BackendVerdict(net, call, backend, 0, retries, reqs, isBatch);
    r := Failure(NoBackends);
    for attempt := 0 to retries + 1
      invariant attempt <= retries ==> verdict == BackendVerdict(net, call, backend, attempt, retries, reqs, isBatch)
      invariant attempt == retries + 1 ==> Matching(reqs, verdict, r)
    {
      r := DoForward(net, call, backend, attempt, reqs, isBatch);
      if !r.Failure? || Final(r.err) {
        return;
      }
    }
  }

  // ---------------------------------------------------------------- one group

  /** Errors that end the failover and are returned to the caller. */
  predicate Conclusive(err: Err) {
    err.ReceiptsCantBeBatched? || err.ReceiptsInvalidTarget? || err.ContextCanceled?
    || err.ResponseTooLarge? || err.RequestBodyTooLarge? || err.MethodNotWhitelisted?
  }

  /** What comes of a group from this backend on: the first conclusive verdict, or no backend is left. */
  function GroupVerdict(net: Exchange, call: nat, plan: seq<nat>, i: nat, reqs: seq<RPCReq>, isBatch: bool): Verdict
    decreases |plan| - i
  {
    if i >= |plan| then Refuses(NoBackends)
    else if reqs == [] then Delivers([])
    else
      var v := BackendVerdict(net, call, i, 0, plan[i], reqs, isBatch);
      if !v.Refuses? || Conclusive(v.err) then v else GroupVerdict(net, call, plan, i + 1, reqs, isBatch)
  }

  const CONCLUSIVE_ERRORS: set<Err> :=
    {ReceiptsCantBeBatched, ReceiptsInvalidTarget, ContextCanceled, ResponseTooLarge, RequestBodyTooLarge,
     MethodNotWhitelisted}

  /** Failover, exactly: every backend before the deciding one failed with an error that is passed over, and
      the deciding one succeeded, crashed or failed with one that is not; if none decides there is no backend
      left. */
  lemma {:induction false} FailoverExact(net: Exchange, call: nat, plan: seq<nat>, i: nat, reqs: seq<RPCReq>,
                                         isBatch: bool) returns (k: nat)
    requires i <= |plan| && reqs != []
    ensures var v := GroupVerdict(net, call, plan, i, reqs, isBatch);
            && i <= k <= |plan|
            && (k < |plan| ==>
                  && v == BackendVerdict(net, call, k, 0, plan[k], reqs, isBatch)
                  && (v.Refuses? ==> v.err in CONCLUSIVE_ERRORS))
            && (k == |plan| ==> v == Refuses(NoBackends))
            && (forall j :: i <= j < k ==>
                  var u := BackendVerdict(net, call, j, 0, plan[j], reqs, isBatch);
                  u.Refuses? && u.err !in CONCLUSIVE_ERRORS)
    decreases |plan| - i
  {
    k := i;
    if i < |plan| {
      var v := BackendVerdict(net, call, i, 0, plan[i], reqs, isBatch);
      if v.Refuses? && v.err !in CONCLUSIVE_ERRORS {
        k := FailoverExact(net, call, plan, i + 1, reqs, isBatch);
      }
    }
  }

  /** With nothing to send, the first backend serves an empty answer; without a backend there is none. */
  lemma NothingToSend(net: Exchange, call: nat, plan: seq<nat>, isBatch: bool)
    ensures GroupVerdict(net, call, plan, 0, [], isBatch) == if plan == [] then Refuses(NoBackends) else Delivers([])
  {
  }

  lemma NothingReordered(reqs: seq<RPCReq>)
    requires reqs == []
    ensures Reordered(reqs, [], [])
  {
    assert Permutes([], [], []);
    assert PositionsOf(reqs, map[]) && SortedByKey(map[], []);
  }

  /** ForwardRequestToBackendGroup; `plan` holds the number of retries of each backend to try. With
      nothing to send, the first backend is credited with an empty answer. */
  method ForwardToGroup(net: Exchange, call: nat, plan: seq<nat>, reqs: seq<RPCReq>, isBatch: bool)
    returns (r: Result)
    ensures Matching(reqs, GroupVerdict(net, call, plan, 0, reqs, isBatch), r)
  {
    for i := 0 to |plan|
      invariant GroupVerdict(net, call, plan, 0, reqs, isBatch) == GroupVerdict(net, call, plan, i, reqs, isBatch)
    {
      r := Served([]);
      if |reqs| > 0 {
        r := ForwardToBackend(net, call, i, plan[i], reqs, isBatch);
        if r.Failure? && !Conclusive(r.err) {
          continue;
        }
      } else {
        NothingReordered(reqs);
      }
      return;
    }
    r := Failure(NoBackends);
  }

  ghost predicate Carries(reply: Reply, list: seq<RPCRes>) {
    reply.Replies? && NoNulls(reply.list) && Values(reply.list) == list
  }

  /** A full list is the answer of one exchange that carried exactly these requests. */
  ghost predicate Exchanged(net: Exchange, call: nat, reqs: seq<RPCReq>, list: seq<RPCRes>) {
    |list| == |reqs| && exists b: nat, a: nat :: Carries(net(call, b, a, reqs), list)
  }

  lemma {:induction false} BackendExchanged(net: Exchange, call: nat, backend: nat, attempt: nat, retries: nat,
                                            reqs: seq<RPCReq>, isBatch: bool)
    ensures var v := BackendVerdict(net, call, backend, attempt, retries, reqs, isBatch);
            v.Delivers? ==> Exchanged(net, call, reqs, v.list)
    decreases retries - attempt
  {
    if attempt < retries {
      BackendExchanged(net, call, backend, attempt + 1, retries, reqs, isBatch);
    }
  }

  lemma {:induction false} GroupExchanged(net: Exchange, call: nat, plan: seq<nat>, i: nat, reqs: seq<RPCReq>,
                                          isBatch: bool)
    requires reqs != []
    ensures var v := GroupVerdict(net, call, plan, i, reqs, isBatch);
            v.Delivers? ==> Exchanged(net, call, reqs, v.list)
    decreases |plan| - i
  {
    if i < |plan| {
      BackendExchanged(net, call, i, 0, plan[i], reqs, isBatch);
      GroupExchanged(net, call, plan, i + 1, reqs, isBatch);
    }
  }

  // ---------------------------------------------------------------- overrides

  /** What becomes of a request: answered locally, forwarded as pinned to the view, or a crash. */
  datatype Decision = Local(res: RPCRes) | Pass(req: RPCReq) | Halt

  /** Without a consensus view every request is forwarded as it is. */
  function Decide(ctx: Option<Context>, req: RPCReq): Decision {
    if ctx.None? then Pass(req)
    else
      match RewriteTags(ctx.value, req)
      case Failed(OutOfRange) => Local(RPCRes(req.id, Error(BlockOutOfRange)))
      case Failed(RangeTooLarge) => Local(RPCRes(req.id, Error(InvalidParams)))
      case Failed(ParseFailure) => Local(RPCRes(req.id, Error(ParseErr)))
      case Answered(n) => Local(RPCRes(req.id, Number(n)))
      case Changed(r) => Pass(r)
      case Unchanged => Pass(req)
      case Crash => Halt
  }

  /** A decision never changes the id. */
  lemma DecisionKeepsId(ctx: Option<Context>, req: RPCReq)
    ensures var d := Decide(ctx, req);
            (d.Local? ==> d.res.id == req.id) && (d.Pass? ==> d.req.id == req.id)
  {
  }

  function Decisions(ctx: Option<Context>, reqs: seq<RPCReq>): (ds: seq<Decision>)
    ensures |ds| == |reqs|
  {
    if reqs == [] then [] else [Decide(ctx, reqs[0])] + Decisions(ctx, reqs[1..])
  }

  lemma {:induction false} DecisionAt(ctx: Option<Context>, reqs: seq<RPCReq>, i: nat)
    requires i < |reqs|
    ensures Decisions(ctx, reqs)[i] == Decide(ctx, reqs[i])
    decreases reqs
  {
    if i > 0 { DecisionAt(ctx, reqs[1..], i - 1); }
  }

  /** The split: overrides hold the local answers at their index, the others are forwarded in order. */
  ghost predicate Split(ds: seq<Decision>, rewritten: seq<RPCReq>, ovs: seq<Indexed>) {
    && |rewritten| + |ovs| == |ds|
    && FitsIn(ovs, |ds|)
    && (forall k :: 0 <= k < |ovs| ==> ds[ovs[k].index] == Local(ovs[k].res))
    && (forall p, k :: 0 <= p < |ds| && Between(ovs, p, k) ==>
          0 <= p - k < |rewritten| && ds[p] == Pass(rewritten[p - k]))
  }

  /** The requests passed on, in order. */
  function Passed(ds: seq<Decision>): seq<RPCReq> {
    if ds == [] then []
    else
      var rest, d := ds[..|ds| - 1], ds[|ds| - 1];
      Passed(rest) + if d.Pass? then [d.req] else []
  }

  /** The forwarded requests are those passed on at distinct positions among the first n, in order. */
  ghost predicate DrawnFrom(ds: seq<Decision>, n: nat, rewritten: seq<RPCReq>, source: seq<nat>)
    requires n <= |ds|
  {
    && |source| == |rewritten|
    && (forall a :: 0 <= a < |source| ==> source[a] < n && ds[source[a]] == Pass(rewritten[a]))
    && (forall a, b :: 0 <= a < b < |source| ==> source[a] < source[b])
  }

  method DecideAt(ctx: Option<Context>, reqs: seq<RPCReq>, i: nat) returns (d: Decision)
    requires i < |reqs|
    ensures d == Decisions(ctx, reqs)[i]
  {
    DecisionAt(ctx, reqs, i);
    d := Decide(ctx, reqs[i]);
  }

  lemma SplitLocal(ds: seq<Decision>, i: nat, rewritten: seq<RPCReq>, ovs: seq<Indexed>, res: RPCRes)
    requires i < |ds| && Split(ds[..i], rewritten, ovs) && ds[i] == Local(res)
    ensures Split(ds[..i + 1], rewritten, ovs + [Indexed(i, res)])
  {
    var ovs' := ovs + [Indexed(i, res)];
    forall p, k | 0 <= p < i + 1 && Between(ovs', p, k)
      ensures 0 <= p - k < |rewritten| && ds[p] == Pass(rewritten[p - k])
    {
      assert Between(ovs, p, k);
      assert ds[..i][p] == ds[p];
    }
  }

  lemma SplitPass(ds: seq<Decision>, i: nat, rewritten: seq<RPCReq>, ovs: seq<Indexed>, req: RPCReq)
    requires i < |ds| && Split(ds[..i], rewritten, ovs) && ds[i] == Pass(req)
    ensures Split(ds[..i + 1], rewritten + [req], ovs)
  {
    forall p, k | 0 <= p < i + 1 && Between(ovs, p, k)
      ensures 0 <= p - k < |rewritten + [req]| && ds[p] == Pass((rewritten + [req])[p - k])
    {
      if p == i {
        assert k == |ovs|;
      } else {
        assert ds[..i][p] == ds[p];
      }
    }
  }

  method OverwriteConsensusResponses(ctx: Option<Context>, reqs: seq<RPCReq>)
    returns (rewritten: seq<RPCReq>, ovs: seq<Indexed>, crashed: bool)
    ensures crashed <==> Halt in Decisions(ctx, reqs)
    ensures !crashed ==>
              var ds := Decisions(ctx, reqs);
              rewritten == Passed(ds) && Split(ds, rewritten, ovs)
  {
    ghost var ds := Decisions(ctx, reqs);
    rewritten, ovs, crashed := [], [], false;
    for i := 0 to |reqs|
      invariant Halt !in ds[..i] && rewritten == Passed(ds[..i])
      invariant Split(ds[..i], rewritten, ovs)
    {
      var d := DecideAt(ctx, reqs, i);
      assert ds[..i + 1] == ds[..i] + [ds[i]] && ds[..i + 1][..i] == ds[..i];
      match d {
        case Halt =>
          assert ds[i] in ds;
          crashed := true;
          return;
        case Local(res) =>
          SplitLocal(ds, i, rewritten, ovs, res);
          ovs := ovs + [Indexed(i, res)];
        case Pass(req) =>
          SplitPass(ds, i, rewritten, ovs, req);
          rewritten := rewritten + [req];
      }
    }
    assert ds[..|ds|] == ds;
  }

  lemma DrawnIdsUnique(ctx: Option<Context>, reqs: seq<RPCReq>, rewritten: seq<RPCReq>, source: seq<nat>)
    requires DrawnFrom(Decisions(ctx, reqs), |reqs|, rewritten, source) && UniqueIds(reqs)
    ensures UniqueIds(rewritten)
  {
    forall a | 0 <= a < |rewritten| ensures rewritten[a].id == reqs[source[a]].id {
      DecisionAt(ctx, reqs, source[a]);
      DecisionKeepsId(ctx, reqs[source[a]]);
    }
  }

  // ---------------------------------------------------------------- the whole of Forward

  /** What the caller gets for one request: the local answer if there is one, and otherwise the reply at
      the position at which the request was sent. */
  ghost predicate AnswerFor(q: seq<RPCReq>, replies: seq<RPCRes>, d: Decision, r: RPCRes) {
    match d
    case Local(res) => r == res
    case Pass(sent) => exists j :: 0 <= j < |q| && j < |replies| && q[j] == sent && r == replies[j]
    case Halt => false
  }

  ghost predicate AnswersAll(ds: seq<Decision>, replies: seq<RPCRes>, res: seq<RPCRes>) {
    |res| == |ds| && forall i :: 0 <= i < |ds| ==> AnswerFor(Passed(ds), replies, ds[i], res[i])
  }

  /** The answers to a whole list, made of the local ones and of the delivered ones, sorted back. */
  ghost predicate Forwarded(ds: seq<Decision>, list: seq<RPCRes>, res: seq<RPCRes>) {
    exists replies :: Reordered(Passed(ds), list, replies) && AnswersAll(ds, replies, res)
  }

  /** Split and merge are inverse: whatever was taken out, the merged list answers request by request. */
  lemma MergeRestores(ds: seq<Decision>, ovs: seq<Indexed>, replies: seq<RPCRes>, res: seq<RPCRes>)
    requires Split(ds, Passed(ds), ovs) && |replies| == |Passed(ds)| && Merged(ovs, replies, res)
    ensures AnswersAll(ds, replies, res)
  {
    forall p | 0 <= p < |ds| ensures AnswerFor(Passed(ds), replies, ds[p], res[p]) {
      var k, overridden := Locate(ovs, p);
      if !overridden {
        assert ds[p] == Pass(Passed(ds)[p - k]) && res[p] == replies[p - k];
      }
    }
  }

  /** The result of forwarding a list: what the verdict on the requests passed on makes of it. */
  ghost predicate ForwardResult(net: Exchange, call: nat, plan: seq<nat>, ds: seq<Decision>, isBatch: bool, r: Result) {
    if Halt in ds then r == Crashed(EmptyFilter)
    else
      match GroupVerdict(net, call, plan, 0, Passed(ds), isBatch)
      case Refuses(e) => r == Failure(e)
      case Breaks => r == Crashed(NilPointer)
      case Delivers(list) =>
        if UniqueIds(Passed(ds)) then r.Served? && Forwarded(ds, list, r.res) else r == Crashed(DuplicateId)
  }

  /** BackendGroup.Forward; `ctx` is the consensus view if the group is consensus aware. */
  method Forward(net: Exchange, call: nat, plan: seq<nat>, ctx: Option<Context>, reqs: seq<RPCReq>, isBatch: bool)
    returns (r: Result)
    ensures if reqs == [] then r == Served([])
            else ForwardResult(net, call, plan, Decisions(ctx, reqs), isBatch, r)
  {
    if |reqs| == 0 {
      return Served([]);
    }
    var rewritten, ovs, crashed := OverwriteConsensusResponses(ctx, reqs);
    if crashed {
      return Crashed(EmptyFilter);
    }
    ghost var ds := Decisions(ctx, reqs);
    assert rewritten == Passed(ds);
    r := ForwardToGroup(net, call, plan, rewritten, isBatch);
    if r.Served? {
      ghost var replies := r.res;
      var res := OverrideResponses(r.res, ovs);
      MergeRestores(ds, ovs, replies, res);
      r := Served(res);
    }
  }

  lemma DrawOneMore(ds: seq<Decision>, q: seq<RPCReq>, source: seq<nat>)
    requires ds != [] && DrawnFrom(ds[..|ds| - 1], |ds| - 1, q, source)
    ensures DrawnFrom(ds, |ds|, q, source)
    ensures ds[|ds| - 1].Pass? ==> DrawnFrom(ds, |ds|, q + [ds[|ds| - 1].req], source + [|ds| - 1])
  {
    assert forall a :: 0 <= a < |source| ==> ds[source[a]] == ds[..|ds| - 1][source[a]];
  }

  /** Every request passed on has its own position. */
  lemma {:induction false} PassedFrom(ds: seq<Decision>) returns (source: seq<nat>)
    ensures DrawnFrom(ds, |ds|, Passed(ds), source)
  {
    if ds == [] {
      source := [];
    } else {
      var rest, last := ds[..|ds| - 1], ds[|ds| - 1];
      var before := PassedFrom(rest);
      DrawOneMore(ds, Passed(rest), before);
      source := if last.Pass? then before + [|rest|] else before;
      assert Passed(ds) == if last.Pass? then Passed(rest) + [last.req] else Passed(rest);
    }
  }

  /** Distinct ids stay distinct through the split, so forwarding a batch without repeats never panics. */
  lemma PassedIdsUnique(ctx: Option<Context>, reqs: seq<RPCReq>)
    requires UniqueIds(reqs)
    ensures UniqueIds(Passed(Decisions(ctx, reqs)))
  {
    var source := PassedFrom(Decisions(ctx, reqs));
    DrawnIdsUnique(ctx, reqs, Passed(Decisions(ctx, reqs)), source);
  }

  /** With a well-behaved network every forwarded answer carries the id of its own request. */
  lemma ForwardedIds(net: Exchange, call: nat, plan: seq<nat>, ctx: Option<Context>, reqs: seq<RPCReq>, isBatch: bool,
                     list: seq<RPCRes>, res: seq<RPCRes>)
    requires WellBehaved(net) && UniqueIds(reqs)
    requires GroupVerdict(net, call, plan, 0, Passed(Decisions(ctx, reqs)), isBatch) == Delivers(list)
    requires Forwarded(Decisions(ctx, reqs), list, res)
    ensures Aligned(reqs, res)
  {
    var ds := Decisions(ctx, reqs);
    var q := Passed(ds);
    var replies :| Reordered(q, list, replies) && AnswersAll(ds, replies, res);
    PassedIdsUnique(ctx, reqs);
    if q != [] {
      GroupExchanged(net, call, plan, 0, q, isBatch);
      assert OneReplyPerId(q, list);
    }
    forall i | 0 <= i < |reqs| ensures res[i].id == reqs[i].id {
      DecisionAt(ctx, reqs, i);
      DecisionKeepsId(ctx, reqs[i]);
      assert AnswerFor(q, replies, ds[i], res[i]);
    }
  }
}
