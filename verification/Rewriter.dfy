/** The tag rewriter (rewriter.go): block parameters are pinned to the consensus view before a request
    is forwarded, so that it means the same block on every backend. */
module Rewriter {
  import opened Common

  // ---------------------------------------------------------------- JSON as the rewriter sees it

  /** A JSON string read as a block reference: a tag, a hexadecimal quantity, a 32-byte hash, the
      empty string, or something that is none of these. */
  datatype Text =
    | Earliest | Latest | Pending | Safe | Finalized
    | Quantity(n: Uint64)
    | HashText(hash: string)
    | EmptyText
    | Garbled(s: string)

  datatype Json = Null | Str(text: Text) | Object(fields: map<string, Json>) | Opaque(id: nat)

  datatype Params = BadParams | Params(items: seq<Json>)

  datatype RPCReq = RPCReq(jsonrpc: string, methodName: string, params: Params, id: string)

  /** The consensus view that requests are pinned to, and the cap on log ranges (0 means none). */
  datatype RewriteContext = RewriteContext(view: Triple, maxBlockRange: nat)

  datatype RewriteError = OutOfRange | RangeTooLarge | ParseFailure

  /** The verdict of a rewrite. `Crash` is the index panic on an empty filter list. */
  datatype Rewrite =
    | Unchanged
    | Failed(error: RewriteError)
    | Changed(req: RPCReq)
    | Answered(latest: nat)
    | Crash

  // ---------------------------------------------------------------- decoding a block reference

  datatype BlockNumber = EarliestNumber | LatestNumber | PendingNumber | SafeNumber | FinalizedNumber | Height(n: nat)

  /** A decoded block reference: by number, by hash, or neither (an empty object or null). */
  datatype Ref = ByNumber(number: BlockNumber) | ByHash(hash: string) | Neither

  /** A number above the signed range is refused. */
  function DecodeText(t: Text): Option<Ref> {
    match t
    case Earliest => Some(ByNumber(EarliestNumber))
    case Latest => Some(ByNumber(LatestNumber))
    case Pending => Some(ByNumber(PendingNumber))
    case Safe => Some(ByNumber(SafeNumber))
    case Finalized => Some(ByNumber(FinalizedNumber))
    case Quantity(n) => if n < TWO63 then Some(ByNumber(Height(n))) else None
    case HashText(h) => Some(ByHash(h))
    case EmptyText => None
    case Garbled(_) => None
  }

  function Field(m: map<string, Json>, key: string): Json {
    if key in m then m[key] else Null
  }

  /** The object form of EIP-1898: at most one of blockNumber and blockHash. */
  function DecodeObject(m: map<string, Json>): Option<Ref> {
    match (Field(m, "blockNumber"), Field(m, "blockHash"))
    case (Null, Null) => Some(Neither)
    case (Str(t), Null) =>
      var r := DecodeText(t);
      if r.Some? && r.value.ByNumber? then r else None
    case (Null, Str(HashText(h))) => Some(ByHash(h))
    case _ => None
  }

  function Decode(j: Json): Option<Ref> {
    match j
    case Null => Some(Neither)
    case Str(t) => DecodeText(t)
    case Object(m) => DecodeObject(m)
    case Opaque(_) => None
  }

  // ---------------------------------------------------------------- what a reference means

  /** The block a reference names on a node with a given view of the tags. */
  datatype Meaning = At(height: nat) | Hashed(hash: string) | PendingBlock | Unreadable

  function NumberMeaning(b: BlockNumber, view: Triple): Meaning {
    match b
    case EarliestNumber => At(0)
    case LatestNumber => At(view.latest)
    case PendingNumber => PendingBlock
    case SafeNumber => At(view.safe)
    case FinalizedNumber => At(view.finalized)
    case Height(n) => At(n)
  }

  /** A reference that names no block, null or an empty object, is read as the latest block. */
  function MeaningOf(j: Json, view: Triple): Meaning {
    match Decode(j)
    case None => Unreadable
    case Some(ByNumber(b)) => NumberMeaning(b, view)
    case Some(ByHash(h)) => Hashed(h)
    case Some(Neither) => At(view.latest)
  }

  // ---------------------------------------------------------------- rewriting one reference

  /** The signed reading of an unsigned 64-bit number. */
  function Int64(n: nat): int
    requires n < TWO64
  {
    if n < TWO63 then n else n - TWO64
  }

  datatype TagResult<T> = Same | Replaced(value: T) | Refused(error: RewriteError)

  predicate InContext(ctx: RewriteContext) {
    ctx.view.latest < TWO64 && ctx.view.safe < TWO64 && ctx.view.finalized < TWO64 && ctx.maxBlockRange < TWO64
  }

  type Context = c: RewriteContext | InContext(c) witness RewriteContext(ZERO_TRIPLE, 0)

  /** rewriteTag, on a string. */
  function RewriteTag(ctx: RewriteContext, t: Text): TagResult<Text>
    requires InContext(ctx)
  {
    match DecodeText(t)
    case None => Refused(ParseFailure)
    case Some(ByHash(_)) => Same
    case Some(Neither) => Same
    case Some(ByNumber(b)) =>
      match b
      case PendingNumber => Same
      case EarliestNumber => Same
      case FinalizedNumber => Replaced(Quantity(ctx.view.finalized))
      case SafeNumber => Replaced(Quantity(ctx.view.safe))
      case LatestNumber => Replaced(Quantity(ctx.view.latest))
      case Height(n) => if n > Int64(ctx.view.latest) then Refused(OutOfRange) else Same
  }

  /** The JSON of a reference by number; a number that does not fit a signed one cannot be read back. */
  function NumberObject(n: nat): Json
    requires n < TWO64
  {
    Object(map["blockNumber" := Str(if n < TWO63 then Quantity(n) else Garbled("negative"))])
  }

  /** rewriteTagBlockNumberOrHash, on a decoded reference. */
  function RewriteRef(ctx: RewriteContext, r: Ref): TagResult<Json>
    requires InContext(ctx)
  {
    match r
    case ByHash(_) => Same
    case Neither => Same
    case ByNumber(b) =>
      match b
      case PendingNumber => Same
      case EarliestNumber => Same
      case FinalizedNumber => Replaced(NumberObject(ctx.view.finalized))
      case SafeNumber => Replaced(NumberObject(ctx.view.safe))
      case LatestNumber => Replaced(NumberObject(ctx.view.latest))
      case Height(n) => if n > Int64(ctx.view.latest) then Refused(OutOfRange) else Same
  }

  /** The block parameter at a position, as a string only or also as an EIP-1898 object. */
  function RewriteItem(ctx: RewriteContext, item: Json, blockNrOrHash: bool): TagResult<Json>
    requires InContext(ctx)
  {
    if blockNrOrHash && Decode(item).Some? then RewriteRef(ctx, Decode(item).value)
    else if item.Str? then
      match RewriteTag(ctx, item.text)
      case Same => Same
      case Replaced(t) => Replaced(Str(t))
      case Refused(e) => Refused(e)
    else Refused(ParseFailure)
  }

  // ---------------------------------------------------------------- rewriting a request

  /** Where a method takes its block parameter, whether it may be left out, and whether EIP-1898 applies. */
  datatype Slot = Slot(pos: nat, required: bool, blockNrOrHash: bool)

  function BlockSlot(name: string): Option<Slot> {
    if name in {"debug_getRawReceipts", "consensus_getReceipts"} then Some(Slot(0, true, false))
    else if name in {"eth_getBalance", "eth_getCode", "eth_getTransactionCount", "eth_call"}
    then Some(Slot(1, false, true))
    else if name in {"eth_getStorageAt", "eth_getProof"} then Some(Slot(2, false, true))
    else if name in {"eth_getBlockTransactionCountByNumber", "eth_getUncleCountByBlockNumber", "eth_getBlockByNumber",
                        "eth_getTransactionByBlockNumberAndIndex", "eth_getUncleByBlockNumberAndIndex"}
    then Some(Slot(0, false, false))
    else None
  }

  predicate TakesRange(name: string) {
    name in {"eth_getLogs", "eth_newFilter"}
  }

  /** The parameters with a missing optional block parameter filled in as "latest". */
  function Completed(items: seq<Json>, slot: Slot): seq<Json> {
    if |items| == slot.pos && !slot.required then items + [Str(Latest)] else items
  }

  function RewriteParam(ctx: RewriteContext, req: RPCReq, slot: Slot): Rewrite
    requires InContext(ctx)
  {
    match req.params
    case BadParams => Failed(ParseFailure)
    case Params(items) =>
      var p := Completed(items, slot);
      if |p| <= slot.pos then Unchanged
      else
        match RewriteItem(ctx, p[slot.pos], slot.blockNrOrHash)
        case Refused(e) => Failed(e)
        case Same => Unchanged
        case Replaced(v) => Changed(req.(params := Params(p[slot.pos := v])))
  }

  /** rewriteTagMap: an absent, null or empty field is left alone. */
  function RewriteField(ctx: RewriteContext, m: map<string, Json>, key: string): TagResult<map<string, Json>>
    requires InContext(ctx)
  {
    match Field(m, key)
    case Null => Same
    case Str(EmptyText) => Same
    case Str(t) =>
      (match RewriteTag(ctx, t)
       case Same => Same
       case Replaced(v) => Replaced(m[key := Str(v)])
       case Refused(e) => Refused(e))
    case _ => Refused(ParseFailure)
  }

  /** blockNumber: the height in a rewritten field, for the range check. */
  function FieldHeight(m: map<string, Json>, key: string, latest: nat): Option<nat> {
    match Field(m, key)
    case Str(Earliest) => Some(0)
    case Str(Pending) => Some((latest + 1) % TWO64)
    case Str(Quantity(n)) => Some(n)
    case _ => None
  }

  function WithDefaults(m: map<string, Json>): map<string, Json> {
    if "fromBlock" in m && "toBlock" !in m then m["toBlock" := Str(Latest)]
    else if "toBlock" in m && "fromBlock" !in m then m["fromBlock" := Str(Latest)]
    else m
  }

  /** The unsigned test of the source: to - from wraps around when to is below from. */
  predicate WithinCap(from: nat, to: nat, cap: nat) {
    (to - from) % TWO64 <= cap
  }

  function CheckRange(ctx: RewriteContext, m: map<string, Json>): Option<RewriteError> {
    var from := FieldHeight(m, "fromBlock", ctx.view.latest);
    var to := FieldHeight(m, "toBlock", ctx.view.latest);
    if from.None? || to.None? then Some(ParseFailure)
    else if WithinCap(from.value, to.value, ctx.maxBlockRange) then None
    else Some(RangeTooLarge)
  }

  function Pinned(m: map<string, Json>, r: TagResult<map<string, Json>>): map<string, Json> {
    if r.Replaced? then r.value else m
  }

  /** The rewritten filter; `Same` when both fields stay. */
  function RewriteFilter(ctx: RewriteContext, m: map<string, Json>): TagResult<map<string, Json>>
    requires InContext(ctx)
  {
    var full := WithDefaults(m);
    var from := RewriteField(ctx, full, "fromBlock");
    if from.Refused? then from
    else
      var to := RewriteField(ctx, Pinned(full, from), "toBlock");
      if to.Refused? then to
      else
        var done := Pinned(Pinned(full, from), to);
        if ctx.maxBlockRange > 0 && ("fromBlock" in m || "toBlock" in m) && CheckRange(ctx, done).Some?
        then Refused(CheckRange(ctx, done).value)
        else if from.Replaced? || to.Replaced? then Replaced(done)
        else Same
  }

  /** A filter list holds objects; null counts as an object without fields. */
  predicate FilterList(items: seq<Json>) {
    forall j :: j in items ==> j.Object? || j.Null?
  }

  function FilterFields(j: Json): map<string, Json> {
    if j.Object? then j.fields else map[]
  }

  function RewriteRange(ctx: RewriteContext, req: RPCReq): Rewrite
    requires InContext(ctx)
  {
    match req.params
    case BadParams => Failed(ParseFailure)
    case Params(items) =>
      if !FilterList(items) then Failed(ParseFailure)
      else if items == [] then Crash
      else
        match RewriteFilter(ctx, FilterFields(items[0]))
        case Refused(e) => Failed(e)
        case Same => Unchanged
        case Replaced(m) => Changed(req.(params := Params(items[0 := Object(m)])))
  }

  /** RewriteTags: eth_blockNumber is answered from the view, other methods have their request pinned. */
  function RewriteTags(ctx: RewriteContext, req: RPCReq): Rewrite
    requires InContext(ctx)
  {
    if req.methodName == "eth_blockNumber" then Answered(ctx.view.latest)
    else if TakesRange(req.methodName) then RewriteRange(ctx, req)
    else
      match BlockSlot(req.methodName)
      case None => Unchanged
      case Some(slot) => RewriteParam(ctx, req, slot)
  }
}
