/** What the batch pipeline comes to for each request: why it is rejected, when it is sent, under which group,
    and with which block parameter. */
module BatchOutcomes {
  import opened Common
  import opened Rewriter
  import opened RewriterMeaning
  import opened BatchMerge
  import opened BatchForward
  import opened BatchServer

  // ---------------------------------------------------------------- which requests are rejected

  /** A request of JSON-RPC 2.0 with a method and an id that is neither empty nor an object or a list. */
  predicate WellFormed(req: RPCReq) {
    && req.jsonrpc == "2.0"
    && req.methodName != ""
    && req.id != "" && req.id != "\"" && req.id != "\"\""
    && req.id[0] != '{' && req.id[0] != '['
  }

  predicate Mapped(s: Server, name: string) {
    name in s.mappings && s.mappings[name] != ""
  }

  predicate Limited(s: Server, name: string, g: Gate) {
    g.baseLimited || (g.methodLimited && name in s.overrideLims)
  }

  predicate SendRefused(name: string, g: Gate) {
    g.sendError.Some? && (name == "eth_sendRawTransaction" || name == "eth_sendRawTransactionConditional")
  }

  /** Nothing stands against sending this request. */
  predicate Sendable(s: Server, raw: Raw, g: Gate) {
    && raw.Parsed? && WellFormed(raw.req)
    && raw.req.methodName != "eth_accounts"
    && Mapped(s, raw.req.methodName)
    && !Limited(s, raw.req.methodName, g)
    && !SendRefused(raw.req.methodName, g)
  }

  /** The answer to a request that is not sent. */
  ghost predicate RejectedWith(s: Server, raw: Raw, g: Gate, r: RPCRes) {
    && (raw.Unparsable? ==> r == RPCRes("", Error(ParseErr)))
    && (raw.Parsed? && !WellFormed(raw.req) ==> r == RPCRes("", Error(InvalidRequest)))
    && (raw.Parsed? && WellFormed(raw.req) ==>
          var name := raw.req.methodName;
          && r.id == raw.req.id
          && (name == "eth_accounts" ==> r.body == Data(0))
          && (name != "eth_accounts" && !Mapped(s, name) ==> r.body == Error(MethodNotWhitelisted))
          && (name != "eth_accounts" && Mapped(s, name) && Limited(s, name, g) ==> r.body == Error(OverRateLimit))
          && (name != "eth_accounts" && Mapped(s, name) && !Limited(s, name, g) && SendRefused(name, g) ==>
                r.body == Error(g.sendError.value)))
  }

  /** Screening, exactly. */
  lemma ScreenExact(s: Server, raw: Raw, g: Gate)
    ensures var screening := Screen(s, raw, g);
            if Sendable(s, raw, g) then screening == Admitted(raw.req, s.mappings[raw.req.methodName])
            else screening.Rejected? && RejectedWith(s, raw, g, screening.res)
  {
  }

  // ---------------------------------------------------------------- which requests are sent

  /** This call carries the request of slot j. */
  ghost predicate CarriedBy(raws: seq<Raw>, j: nat, call: Sending) {
    j < |raws| && raws[j].Parsed? && Elem(raws[j].req, j) in call.elems
  }

  lemma {:induction false} InSentFor(trace: seq<Sending>, c: nat, e: Elem)
    requires c < |trace| && e in trace[c].elems
    ensures e in SentFor(trace, trace[c].key)
  {
    if c < |trace| - 1 {
      assert trace[..|trace| - 1][c] == trace[c];
      InSentFor(trace[..|trace| - 1], c, e);
    }
  }

  /** The misses of a batch are its elements that are not in the cache, in order. */
  lemma {:induction false} MissesInOrder(env: Env, batch: seq<Elem>) returns (at: seq<nat>)
    ensures |at| == |Misses(env, batch)|
    ensures forall k :: 0 <= k < |at| ==> at[k] < |batch| && Misses(env, batch)[k] == batch[at[k]]
    ensures forall j, k :: 0 <= j < k < |at| ==> at[j] < at[k]
    ensures forall i :: 0 <= i < |batch| ==> (i in at <==> batch[i].index !in env.hits)
    decreases batch
  {
    at := [];
    if batch != [] {
      var rest := batch[..|batch| - 1];
      at := MissesInOrder(env, rest);
      assert forall i :: i in at ==> i < |rest|;
      if batch[|rest|].index !in env.hits {
        at := at + [|rest|];
      }
    }
  }

  lemma MissInBatch(env: Env, batch: seq<Elem>, e: Elem)
    requires e in Misses(env, batch)
    ensures e in batch && e.index !in env.hits
  {
    var at := MissesInOrder(env, batch);
    var k :| 0 <= k < |at| && Misses(env, batch)[k] == e;
    assert at[k] in at;
  }

  /** Whatever is sent, also in a batch that is given up, is a request against which nothing stands and
      which is not in the cache, under the backend group of its method. */
  lemma SentOnly(s: Server, env: Env, raws: seq<Raw>, gates: seq<Gate>, batches: Batches, trace: seq<Sending>,
                 c: nat, e: Elem)
    requires |gates| == |raws| && Grouped(Screens(s, raws, gates), |raws|, batches) && PartSent(env, batches, trace)
    requires c < |trace| && e in trace[c].elems
    ensures e.index < |raws| && e.index !in env.hits
    ensures Sendable(s, raws[e.index], gates[e.index]) && raws[e.index] == Parsed(e.req)
    ensures trace[c].key.backendGroup == s.mappings[e.req.methodName]
  {
    var key := trace[c].key;
    InSentFor(trace, c, e);
    assert SentFor(trace, key) <= Misses(env, batches[key]);
    assert e in Misses(env, batches[key]);
    MissInBatch(env, batches[key], e);
    assert GoodBatch(Screens(s, raws, gates), |raws|, key, batches[key]);
    ScreenAt(s, raws, gates, e.index);
    ScreenExact(s, raws[e.index], gates[e.index]);
  }

  /** Every slot of an answered batch, exactly: the answer of a rejected request says why, a cached result is
      returned as it is, and a request is sent if and only if nothing stands against it and it is not in the
      cache, under the backend group of its method, where it gets the answer of the call that carried it. */
  lemma SlotExact(s: Server, env: Env, raws: seq<Raw>, gates: seq<Gate>, batches: Batches, trace: seq<Sending>,
                  slots: Slots, w: seq<nat>, j: nat)
    requires |gates| == |raws| && j < |raws| && Grouped(Screens(s, raws, gates), |raws|, batches)
    requires Complete(env, s.maxUpstreamBatchSize, Screens(s, raws, gates), batches, trace, slots, w)
    ensures slots[j].Some?
    ensures !Sendable(s, raws[j], gates[j]) ==> RejectedWith(s, raws[j], gates[j], slots[j].value)
    ensures Sendable(s, raws[j], gates[j]) && j in env.hits ==>
              slots[j].value == RPCRes(raws[j].req.id, Data(env.hits[j]))
    ensures Sendable(s, raws[j], gates[j]) && j !in env.hits ==>
              exists c, p ::
                && 0 <= c < |trace| && trace[c].key.backendGroup == s.mappings[raws[j].req.methodName]
                && AnsweredAt(trace, c, p, trace[c].key, Elem(raws[j].req, j), slots[j].value)
    ensures (exists c :: 0 <= c < |trace| && CarriedBy(raws, j, trace[c])) <==>
              Sendable(s, raws[j], gates[j]) && j !in env.hits
  {
    var screens := Screens(s, raws, gates);
    ScreenAt(s, raws, gates, j);
    ScreenExact(s, raws[j], gates[j]);
    assert SlotRight(env, screens, trace, j, slots[j]);
    if Sendable(s, raws[j], gates[j]) && j !in env.hits {
      var e := Elem(raws[j].req, j);
      var c, p :| AnsweredAt(trace, c, p, HomeOf(screens, j), e, slots[j].value);
      assert e in trace[c].elems;
      assert CarriedBy(raws, j, trace[c]);
    }
    if c :| 0 <= c < |trace| && CarriedBy(raws, j, trace[c]) {
      SentOnly(s, env, raws, gates, batches, trace, c, Elem(raws[j].req, j));
    }
  }

  // ---------------------------------------------------------------- grouping and giving up

  /** The group number of a request counts the admitted requests with its id up to it. */
  lemma {:induction false} OccurrencesCount(screens: seq<Screening>, n: nat, id: string)
    requires n <= |screens|
    ensures Occurrences(screens, n, id) == |set i | 0 <= i < n && screens[i].Admitted? && screens[i].req.id == id|
  {
    var upTo := set i | 0 <= i < n && screens[i].Admitted? && screens[i].req.id == id;
    if n > 0 {
      OccurrencesCount(screens, n - 1, id);
      var before := set i | 0 <= i < n - 1 && screens[i].Admitted? && screens[i].req.id == id;
      if screens[n - 1].Admitted? && screens[n - 1].req.id == id {
        assert upTo == before + {n - 1};
      } else {
        assert upTo == before;
      }
    } else {
      assert upTo == {};
    }
  }

  /** A failed minibatch ends the batch if and only if the error is one of the two about receipts; any other
      error is given to each of its requests. */
  lemma FailureExact(env: Env, call: nat, s: Sending, stop: BatchResult)
    requires Halt !in DecisionsAt(env, call, s.key, s.elems) && VerdictAt(env, call, s.key, s.elems).Refuses?
    ensures var err := VerdictAt(env, call, s.key, s.elems).err;
            && (CallStops(env, call, s, stop) ==>
                  stop == BatchFailure(err) && err in {ReceiptsCantBeBatched, ReceiptsInvalidTarget})
            && (CallRight(env, call, s) ==>
                  && err !in {ReceiptsCantBeBatched, ReceiptsInvalidTarget} && |s.res| == |s.elems|
                  && forall p :: 0 <= p < |s.elems| ==> s.res[p] == RPCRes(s.elems[p].req.id, Error(err)))
  {
  }

  // ---------------------------------------------------------------- local answers and what is passed on

  /** A request with a block parameter, under a view: answered locally with the right error, or passed on
      asking for the same block. */
  lemma DecideBlock(ctx: Context, req: RPCReq, pos: nat, own: Triple)
    requires Signed(ctx.view) && BlockAt(req.methodName, pos)
    ensures var d := Decide(Some(ctx), req);
            if req.params.BadParams? then d == Local(RPCRes(req.id, Error(ParseErr)))
            else if !HasBlock(req.methodName, req.params.items, pos) then d == Pass(req)
            else
              var asked := AskedBlock(req.params.items, pos);
              if Unusable(asked, TakesObject(req.methodName), ctx.view) then d == Local(RPCRes(req.id, Error(ParseErr)))
              else if TooHigh(asked, ctx.view) then d == Local(RPCRes(req.id, Error(BlockOutOfRange)))
              else d.Pass? && SameBlockAsked(ctx.view, req, pos, d.req, own)
  {
    RequestMeaning(ctx, req, pos, own);
  }

  /** A request with a log filter, under a view. */
  lemma DecideRange(ctx: Context, req: RPCReq, key: string, own: Triple)
    requires Signed(ctx.view) && ctx.maxBlockRange < TWO63 && req.methodName in {"eth_getLogs", "eth_newFilter"}
    ensures var d := Decide(Some(ctx), req);
            if req.params.BadParams? || exists j :: j in req.params.items && !j.Object? && !j.Null?
            then d == Local(RPCRes(req.id, Error(ParseErr)))
            else if req.params.items == [] then d == Halt
            else
              match FilterError(ctx.view, ctx.maxBlockRange, FilterFields(req.params.items[0]))
              case Some(ParseFailure) => d == Local(RPCRes(req.id, Error(ParseErr)))
              case Some(OutOfRange) => d == Local(RPCRes(req.id, Error(BlockOutOfRange)))
              case Some(RangeTooLarge) => d == Local(RPCRes(req.id, Error(InvalidParams)))
              case None => d.Pass? && SameRangeAsked(ctx.view, req, d.req, key, own)
  {
    RangeRequestMeaning(ctx, req, key, own);
  }

  /** Any other request: the block number is answered from the view, the rest is passed on as it is, and so is
      everything without a view. */
  lemma DecideOther(ctx: Context, req: RPCReq)
    ensures Decide(None, req) == Pass(req)
    ensures req.methodName == "eth_blockNumber" ==>
              Decide(Some(ctx), req) == Local(RPCRes(req.id, Number(ctx.view.latest)))
    ensures (forall pos: nat :: !BlockAt(req.methodName, pos))
            && req.methodName !in {"eth_blockNumber", "eth_getLogs", "eth_newFilter"} ==>
              Decide(Some(ctx), req) == Pass(req)
  {
    if forall pos: nat :: !BlockAt(req.methodName, pos) {
      OtherRequests(ctx, req);
    }
  }

  /** The same block, or range of blocks, is asked of every node. */
  ghost predicate SameAsked(view: Triple, req: RPCReq, sent: RPCReq) {
    && (forall pos: nat, own :: BlockAt(req.methodName, pos) && req.params.Params?
                                && HasBlock(req.methodName, req.params.items, pos) ==>
          SameBlockAsked(view, req, pos, sent, own))
    && (req.methodName in {"eth_getLogs", "eth_newFilter"} ==>
          forall key, own :: SameRangeAsked(view, req, sent, key, own))
  }

  lemma PassedMeaning(ctx: Context, req: RPCReq)
    requires Signed(ctx.view) && ctx.maxBlockRange < TWO63 && Decide(Some(ctx), req).Pass?
    ensures SameAsked(ctx.view, req, Decide(Some(ctx), req).req)
  {
    var sent := Decide(Some(ctx), req).req;
    forall pos: nat, own | BlockAt(req.methodName, pos) && req.params.Params?
                           && HasBlock(req.methodName, req.params.items, pos)
      ensures SameBlockAsked(ctx.view, req, pos, sent, own)
    {
      DecideBlock(ctx, req, pos, own);
    }
    if req.methodName in {"eth_getLogs", "eth_newFilter"} {
      forall key, own ensures SameRangeAsked(ctx.view, req, sent, key, own) {
        DecideRange(ctx, req, key, own);
      }
    }
  }

  /** Pinning reaches the backends: every request sent in a call of a consensus-aware group asks every node
      for the block that the client's request asked for under the view at that call. */
  lemma SentMeaning(env: Env, call: nat, s: Sending, ctx: Context, k: nat) returns (p: nat)
    requires env.context(call, s.key.backendGroup) == Some(ctx) && Signed(ctx.view) && ctx.maxBlockRange < TWO63
    requires k < |Passed(DecisionsAt(env, call, s.key, s.elems))|
    ensures p < |s.elems| && SameAsked(ctx.view, s.elems[p].req, Passed(DecisionsAt(env, call, s.key, s.elems))[k])
  {
    var ds := DecisionsAt(env, call, s.key, s.elems);
    var source := PassedFrom(ds);
    p := source[k];
    DecisionAt(Some(ctx), Reqs(s.elems), p);
    PassedMeaning(ctx, s.elems[p].req);
  }
}
