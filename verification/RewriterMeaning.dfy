/** What the rewriter promises: a forwarded request means, on any backend, what it meant under the
    consensus view, and accepted log ranges respect the cap. */
module RewriterMeaning {
  import opened Common
  import opened Rewriter

  /** The view fits signed 64-bit numbers, as every real chain's does. */
  predicate Signed(view: Triple) {
    view.latest < TWO63 && view.safe < TWO63 && view.finalized < TWO63
  }

  function SentItem(item: Json, r: TagResult<Json>): Json {
    if r.Replaced? then r.value else item
  }

  // ---------------------------------------------------------------- how references are read

  /** A string, read as a block reference. */
  lemma TextReading(t: Text, view: Triple)
    ensures MeaningOf(Str(t), view) ==
              match t
              case Earliest => At(0)
              case Latest => At(view.latest)
              case Safe => At(view.safe)
              case Finalized => At(view.finalized)
              case Pending => PendingBlock
              case Quantity(n) => if n < TWO63 then At(n) else Unreadable
              case HashText(h) => Hashed(h)
              case EmptyText => Unreadable
              case Garbled(_) => Unreadable
  {
  }

  /** An object, read as in EIP-1898: a number or a hash, not both; anything else is no reference. */
  lemma ObjectReading(m: map<string, Json>, view: Triple)
    ensures var number, hash := Field(m, "blockNumber"), Field(m, "blockHash");
            var r := MeaningOf(Object(m), view);
            && (number.Null? && hash.Null? ==> r == At(view.latest))
            && (number.Str? && hash.Null? ==>
                  r == if number.text.HashText? then Unreadable else MeaningOf(number, view))
            && (number.Null? && hash.Str? ==>
                  r == if hash.text.HashText? then Hashed(hash.text.hash) else Unreadable)
            && (!number.Null? && !hash.Null? ==> r == Unreadable)
            && (!(number.Null? || number.Str?) || !(hash.Null? || hash.Str?) ==> r == Unreadable)
    ensures MeaningOf(Null, view) == At(view.latest)
    ensures forall id :: MeaningOf(Opaque(id), view) == Unreadable
  {
  }

  /** A reference that names no block, null or an empty object, is left to the node that reads it. */
  predicate LeftOpen(item: Json) {
    item.Null? || (item.Object? && Field(item.fields, "blockNumber").Null? && Field(item.fields, "blockHash").Null?)
  }

  /** A reference to a height by its number, as a string or in an object. */
  predicate NamesHeight(item: Json, n: nat) {
    && n < TWO63
    && (|| (item.Str? && item.text.Quantity? && item.text.n == n)
        || (item.Object? && Field(item.fields, "blockHash").Null?
            && Field(item.fields, "blockNumber").Str?
            && Field(item.fields, "blockNumber").text.Quantity?
            && Field(item.fields, "blockNumber").text.n == n))
  }

  /** It names a height above the view's latest. */
  ghost predicate TooHigh(item: Json, view: Triple) {
    exists n: nat :: NamesHeight(item, n) && n > view.latest
  }

  /** It is no reference, or not in a form that the method takes. */
  predicate Unusable(item: Json, objects: bool, view: Triple) {
    MeaningOf(item, view).Unreadable? || (!objects && !item.Str?)
  }

  // ---------------------------------------------------------------- one block parameter

  /** One block parameter: it is refused exactly when it cannot be used, or is a height above the view's
      latest. Otherwise, unless it asks for the pending block and stays as it is, what is sent means on a
      node what was asked under the consensus view, if and only if it names a block or the node's latest is
      the view's. */
  lemma ItemMeaning(ctx: RewriteContext, item: Json, blockNrOrHash: bool, own: Triple)
    requires InContext(ctx) && Signed(ctx.view)
    ensures var r := RewriteItem(ctx, item, blockNrOrHash);
            var bad, high := Unusable(item, blockNrOrHash, ctx.view), TooHigh(item, ctx.view);
            && (bad ==> r == Refused(ParseFailure))
            && (!bad && high ==> r == Refused(OutOfRange))
            && (!bad && !high ==> !r.Refused?)
            && (MeaningOf(item, ctx.view) == PendingBlock ==> r.Same? || bad)
            && (!bad && !high && MeaningOf(item, ctx.view) != PendingBlock ==>
                  (MeaningOf(SentItem(item, r), own) == MeaningOf(item, ctx.view) <==>
                     (LeftOpen(item) ==> own.latest == ctx.view.latest)))
            && (r.Replaced? ==> MeaningOf(r.value, own).At?)
  {
    if blockNrOrHash && Decode(item).Some? && RewriteRef(ctx, Decode(item).value).Replaced? {
      assert forall n | 0 <= n < TWO63 :: Decode(NumberObject(n)) == Some(ByNumber(Height(n)));
    }
    if Decode(item).Some? && Decode(item).value.ByNumber? && Decode(item).value.number.Height? {
      assert NamesHeight(item, Decode(item).value.number.n);
    }
  }

  // ---------------------------------------------------------------- which argument is the block

  /** The position of the block parameter in the calls that take one. */
  predicate BlockAt(name: string, pos: nat) {
    || (pos == 0 && name in {"eth_getBlockByNumber", "eth_getBlockTransactionCountByNumber",
                             "eth_getTransactionByBlockNumberAndIndex", "eth_getUncleByBlockNumberAndIndex",
                             "eth_getUncleCountByBlockNumber", "debug_getRawReceipts", "consensus_getReceipts"})
    || (pos == 1 && name in {"eth_call", "eth_getBalance", "eth_getCode", "eth_getTransactionCount"})
    || (pos == 2 && name in {"eth_getProof", "eth_getStorageAt"})
  }

  /** It may be left out, and then means latest, except where receipts are asked for. */
  predicate MayOmitBlock(name: string) {
    name !in {"debug_getRawReceipts", "consensus_getReceipts"}
  }

  /** Calls on the state of an account take it as an object too. */
  predicate TakesObject(name: string) {
    name in {"eth_call", "eth_getBalance", "eth_getCode", "eth_getProof", "eth_getStorageAt", "eth_getTransactionCount"}
  }

  /** The table of methods agrees: each method's block parameter is where it belongs. */
  lemma SlotsExact(name: string, pos: nat)
    ensures BlockAt(name, pos) <==> BlockSlot(name).Some? && BlockSlot(name).value.pos == pos
    ensures BlockAt(name, pos) ==> BlockSlot(name) == Some(Slot(pos, !MayOmitBlock(name), TakesObject(name)))
  {
  }

  function Sent(req: RPCReq, r: Rewrite): RPCReq {
    if r.Changed? then r.req else req
  }

  lemma NotSpecial(name: string)
    requires BlockSlot(name).Some?
    ensures name != "eth_blockNumber" && !TakesRange(name)
  {
  }

  /** The block parameter a request asks with, a missing one meaning latest. */
  function AskedBlock(items: seq<Json>, pos: nat): Json {
    if pos < |items| then items[pos] else Str(Latest)
  }

  /** The request has its block parameter, or may leave it out. */
  predicate HasBlock(name: string, items: seq<Json>, pos: nat) {
    |items| > pos || (|items| == pos && MayOmitBlock(name))
  }

  /** What is sent for a request with a block parameter: that parameter means on a node what it meant under
      the view, if and only if it names a block or the node's latest is the view's; nothing else differs. */
  ghost predicate SameBlockAsked(view: Triple, req: RPCReq, pos: nat, sent: RPCReq, own: Triple) {
    && req.params.Params? && sent.params.Params? && sent == req.(params := sent.params)
    && var items, out, asked := req.params.items, sent.params.items, AskedBlock(req.params.items, pos);
       && pos < |out| && |out| == (if pos < |items| then |items| else |items| + 1)
       && (forall j :: 0 <= j < |items| && j != pos ==> out[j] == items[j])
       && (if MeaningOf(asked, view) == PendingBlock then out[pos] == asked
           else
             (MeaningOf(out[pos], own) == MeaningOf(asked, view) <==>
                (LeftOpen(asked) ==> own.latest == view.latest)))
  }

  /** Every request of a method with a block parameter: exactly that argument decides. The request is
      refused as unreadable, refused as out of range, left alone when the argument is missing, and otherwise
      sent asking for the same block. */
  lemma RequestMeaning(ctx: RewriteContext, req: RPCReq, pos: nat, own: Triple)
    requires InContext(ctx) && Signed(ctx.view) && BlockAt(req.methodName, pos)
    ensures var r := RewriteTags(ctx, req);
            if req.params.BadParams? then r == Failed(ParseFailure)
            else if !HasBlock(req.methodName, req.params.items, pos) then r == Unchanged
            else
              var asked := AskedBlock(req.params.items, pos);
              if Unusable(asked, TakesObject(req.methodName), ctx.view) then r == Failed(ParseFailure)
              else if TooHigh(asked, ctx.view) then r == Failed(OutOfRange)
              else (r.Unchanged? || r.Changed?) && SameBlockAsked(ctx.view, req, pos, Sent(req, r), own)
  {
    SlotsExact(req.methodName, pos);
    NotSpecial(req.methodName);
    var slot := BlockSlot(req.methodName).value;
    assert RewriteTags(ctx, req) == RewriteParam(ctx, req, slot);
    if req.params.Params? && HasBlock(req.methodName, req.params.items, pos) {
      ItemMeaning(ctx, AskedBlock(req.params.items, pos), slot.blockNrOrHash, own);
    }
  }

  /** Every other request: the block number is answered from the view, log filters are treated as ranges,
      and all else is left alone. */
  lemma OtherRequests(ctx: RewriteContext, req: RPCReq)
    requires InContext(ctx) && forall pos: nat :: !BlockAt(req.methodName, pos)
    ensures var r := RewriteTags(ctx, req);
            && (req.methodName == "eth_blockNumber" ==> r == Answered(ctx.view.latest))
            && (req.methodName in {"eth_getLogs", "eth_newFilter"} ==> r == RewriteRange(ctx, req))
            && (req.methodName !in {"eth_blockNumber", "eth_getLogs", "eth_newFilter"} ==> r == Unchanged)
  {
    if BlockSlot(req.methodName).Some? {
      SlotsExact(req.methodName, BlockSlot(req.methodName).value.pos);
    }
  }

  // ---------------------------------------------------------------- log filters

  function SentFields(m: map<string, Json>, r: TagResult<map<string, Json>>): map<string, Json> {
    if r.Replaced? then r.value else m
  }

  predicate NamesRange(m: map<string, Json>) {
    "fromBlock" in m || "toBlock" in m
  }

  /** An end that is missing, null or empty is never pinned either. */
  predicate EndLeftOpen(j: Json) {
    j.Null? || j == Str(EmptyText)
  }

  /** The block an end of a range names on a node: its latest, if the end is left open. */
  function EndMeaning(j: Json, view: Triple): Meaning {
    if EndLeftOpen(j) then At(view.latest) else MeaningOf(j, view)
  }

  lemma FieldMeaning(ctx: RewriteContext, m: map<string, Json>, key: string, own: Triple)
    requires InContext(ctx) && Signed(ctx.view)
    ensures var r := RewriteField(ctx, m, key);
            var asked := Field(m, key);
            !r.Refused? ==>
              && (forall k :: k != key ==> Field(SentFields(m, r), k) == Field(m, k))
              && (key in m ==> key in SentFields(m, r))
              && if EndMeaning(asked, ctx.view) == PendingBlock then Field(SentFields(m, r), key) == asked
                 else
                   (EndMeaning(Field(SentFields(m, r), key), own) == EndMeaning(asked, ctx.view) <==>
                      (EndLeftOpen(asked) ==> own.latest == ctx.view.latest))
  {
  }

  /** The end a filter asks with: its own, or latest if it has only the other one. */
  function AskedEnd(m: map<string, Json>, key: string): Json {
    if key in m then m[key] else if NamesRange(m) then Str(Latest) else Null
  }

  /** An end is no reference in a string. */
  predicate UnusableEnd(j: Json, view: Triple) {
    !EndLeftOpen(j) && (!j.Str? || MeaningOf(j, view).Unreadable?)
  }

  /** A field is refused exactly when it is not left open and cannot be used or is too high. */
  lemma FieldRefusal(ctx: RewriteContext, m: map<string, Json>, key: string)
    requires InContext(ctx) && Signed(ctx.view)
    ensures var r, j := RewriteField(ctx, m, key), Field(m, key);
            if UnusableEnd(j, ctx.view) then r == Refused(ParseFailure)
            else if TooHigh(j, ctx.view) then r == Refused(OutOfRange)
            else !r.Refused?
  {
    var j := Field(m, key);
    if j.Str? {
      ItemMeaning(ctx, j, false, ctx.view);
    }
  }

  ghost predicate SameEndAsked(view: Triple, m: map<string, Json>, key: string, sent: map<string, Json>, own: Triple) {
    && (NamesRange(m) ==> "fromBlock" in sent && "toBlock" in sent)
    && if key in ["fromBlock", "toBlock"] then
         var asked := AskedEnd(m, key);
         if EndMeaning(asked, view) == PendingBlock then Field(sent, key) == asked
         else
           (EndMeaning(Field(sent, key), own) == EndMeaning(asked, view) <==>
              (EndLeftOpen(asked) ==> own.latest == view.latest))
       else Field(sent, key) == Field(m, key)
  }

  /** A forwarded filter: each end means on a node what it meant under the consensus view, if and only if
      it names a block or the node's latest is the view's; a pending end stays as it is. If the filter has
      either end it is sent with both, a missing one as latest; other fields are untouched. */
  lemma FilterMeaning(ctx: RewriteContext, m: map<string, Json>, key: string, own: Triple)
    requires InContext(ctx) && Signed(ctx.view) && !RewriteFilter(ctx, m).Refused?
    ensures SameEndAsked(ctx.view, m, key, SentFields(m, RewriteFilter(ctx, m)), own)
  {
    var full := WithDefaults(m);
    var from := RewriteField(ctx, full, "fromBlock");
    var mid := Pinned(full, from);
    FieldMeaning(ctx, full, "fromBlock", own);
    FieldMeaning(ctx, mid, "toBlock", own);
    assert Field(mid, "toBlock") == Field(full, "toBlock");
  }

  /** Open references do occur: a null parameter is forwarded as it is, and without a cap on ranges so is a
      filter whose ends are null. */
  lemma NullIsForwarded(ctx: RewriteContext, req: RPCReq, tx: Json)
    requires InContext(ctx) && req.methodName == "eth_call" && req.params == Params([tx, Null])
    ensures RewriteTags(ctx, req) == Unchanged
    ensures ctx.maxBlockRange == 0 ==> RewriteFilter(ctx, map["fromBlock" := Null, "toBlock" := Null]) == Same
  {
    assert BlockSlot("eth_call") == Some(Slot(1, false, true));
  }

  // ---------------------------------------------------------------- the range cap

  /** The height an end of the range asks for under the view. */
  function AskedHeight(j: Json, view: Triple): Option<nat> {
    match j
    case Str(Earliest) => Some(0)
    case Str(Latest) => Some(view.latest)
    case Str(Safe) => Some(view.safe)
    case Str(Finalized) => Some(view.finalized)
    case Str(Pending) => Some(view.latest + 1)
    case Str(Quantity(n)) => Some(n)
    case _ => None
  }

  /** The unsigned test is the intended one on all heights up to a bound exactly when the cap and the
      bound together stay below 2^64. */
  lemma UnsignedCapExact(bound: nat, cap: nat)
    requires 0 < bound < TWO64 && cap < TWO64
    ensures (forall from, to :: 0 <= from <= bound && 0 <= to <= bound ==>
               (WithinCap(from, to, cap) <==> from <= to <= from + cap))
       <==> bound + cap < TWO64
  {
    if bound + cap >= TWO64 {
      assert WithinCap(bound, 0, cap);
    }
  }

  lemma PinnedHeight(ctx: RewriteContext, m: map<string, Json>, key: string)
    requires InContext(ctx) && Signed(ctx.view) && !RewriteField(ctx, m, key).Refused?
    ensures FieldHeight(Pinned(m, RewriteField(ctx, m, key)), key, ctx.view.latest)
         == AskedHeight(Field(m, key), ctx.view)
    ensures forall k :: k != key ==> Field(Pinned(m, RewriteField(ctx, m, key)), k) == Field(m, k)
    ensures var h := AskedHeight(Field(m, key), ctx.view);
            h.Some? ==> h.value <= TWO63
  {
  }

  /** Why a filter is refused: an end that cannot be used or is too high, first of the two, or else, under a
      cap, ends that are no heights or are not from <= to <= from + cap. Earliest counts as 0, pending as
      latest + 1, a missing end as latest; a filter without ends is not capped. */
  ghost function FilterError(view: Triple, cap: nat, m: map<string, Json>): Option<RewriteError> {
    var f, t := AskedEnd(m, "fromBlock"), AskedEnd(m, "toBlock");
    var from, to := AskedHeight(f, view), AskedHeight(t, view);
    if UnusableEnd(f, view) then Some(ParseFailure)
    else if TooHigh(f, view) then Some(OutOfRange)
    else if UnusableEnd(t, view) then Some(ParseFailure)
    else if TooHigh(t, view) then Some(OutOfRange)
    else if cap == 0 || !NamesRange(m) then None
    else if from.None? || to.None? then Some(ParseFailure)
    else if from.value <= to.value <= from.value + cap then None
    else Some(RangeTooLarge)
  }

  /** The range check, despite unsigned subtraction: a filter is refused exactly for these reasons. */
  lemma RangeCap(ctx: RewriteContext, m: map<string, Json>)
    requires InContext(ctx) && Signed(ctx.view) && ctx.maxBlockRange < TWO63
    ensures var e := FilterError(ctx.view, ctx.maxBlockRange, m);
            if e.Some? then RewriteFilter(ctx, m) == Refused(e.value) else !RewriteFilter(ctx, m).Refused?
  {
    var full := WithDefaults(m);
    FieldRefusal(ctx, full, "fromBlock");
    var from := RewriteField(ctx, full, "fromBlock");
    if !from.Refused? {
      var mid := Pinned(full, from);
      PinnedHeight(ctx, full, "fromBlock");
      FieldRefusal(ctx, mid, "toBlock");
      var to := RewriteField(ctx, mid, "toBlock");
      if !to.Refused? {
        PinnedHeight(ctx, mid, "toBlock");
        var done := Pinned(mid, to);
        assert Field(done, "fromBlock") == Field(mid, "fromBlock");
        assert FieldHeight(done, "fromBlock", ctx.view.latest) == FieldHeight(mid, "fromBlock", ctx.view.latest);
        UnsignedCapExact(TWO63, ctx.maxBlockRange);
      }
    }
  }

  ghost predicate SameRangeAsked(view: Triple, req: RPCReq, sent: RPCReq, key: string, own: Triple) {
    && req.params.Params? && sent.params.Params? && sent == req.(params := sent.params)
    && var items, out := req.params.items, sent.params.items;
       && |out| == |items| > 0
       && (forall j :: 0 < j < |items| ==> out[j] == items[j])
       && SameEndAsked(view, FilterFields(items[0]), key, FilterFields(out[0]), own)
  }

  /** Every request of a method with a log filter: it is refused when the parameters are not a list of
      filters, crashes on an empty list, is refused for the reasons above, and is otherwise sent with the
      first filter asking for the same blocks and everything else as it was. */
  lemma RangeRequestMeaning(ctx: RewriteContext, req: RPCReq, key: string, own: Triple)
    requires InContext(ctx) && Signed(ctx.view) && ctx.maxBlockRange < TWO63
    requires req.methodName in {"eth_getLogs", "eth_newFilter"}
    ensures var r := RewriteTags(ctx, req);
            if req.params.BadParams? || exists j :: j in req.params.items && !j.Object? && !j.Null?
            then r == Failed(ParseFailure)
            else if req.params.items == [] then r == Crash
            else
              var m := FilterFields(req.params.items[0]);
              var e := FilterError(ctx.view, ctx.maxBlockRange, m);
              if e.Some? then r == Failed(e.value)
              else (r.Unchanged? || r.Changed?) && SameRangeAsked(ctx.view, req, Sent(req, r), key, own)
  {
    assert RewriteTags(ctx, req) == RewriteRange(ctx, req);
    if req.params.Params? && FilterList(req.params.items) && req.params.items != [] {
      var m := FilterFields(req.params.items[0]);
      RangeCap(ctx, m);
      if !RewriteFilter(ctx, m).Refused? {
        FilterMeaning(ctx, m, key, own);
      }
    }
  }
}
