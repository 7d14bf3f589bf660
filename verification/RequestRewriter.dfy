/** The rewriter at work on a request object: parameters and filter fields are updated in place. */
module RequestRewriter {
  import opened Common
  import opened Rewriter
  import opened RewriterMeaning

  class Request {
    var req: RPCReq

    constructor (req: RPCReq)
      ensures this.req == req
    {
      this.req := req;
    }

    method RewriteParam(ctx: Context, slot: Slot) returns (r: Rewrite)
      modifies this
      ensures r == Rewriter.RewriteParam(ctx, old(req), slot)
      ensures req == Sent(old(req), r)
    {
      if req.params.BadParams? {
        return Failed(ParseFailure);
      }
      var p := req.params.items;
      if |p| == slot.pos && !slot.required {
        p := p + [Str(Latest)];
      } else if |p| <= slot.pos {
        return Unchanged;
      }
      var val: Json, rw: bool := Null, false;
      var ref := if slot.blockNrOrHash then Decode(p[slot.pos]) else None;
      if ref.Some? {
        var res := RewriteRef(ctx, ref.value);
        if res.Refused? {
          return Failed(res.error);
        }
        if res.Replaced? {
          val, rw := res.value, true;
        }
      } else {
        if !p[slot.pos].Str? {
          return Failed(ParseFailure);
        }
        var res := RewriteTag(ctx, p[slot.pos].text);
        if res.Refused? {
          return Failed(res.error);
        }
        if res.Replaced? {
          val, rw := Str(res.value), true;
        }
      }
      if rw {
        p := p[slot.pos := val];
        req := req.(params := Params(p));
        return Changed(req);
      }
      return Unchanged;
    }

    static method RewriteTagMap(ctx: Context, m: map<string, Json>, key: string)
      returns (m': map<string, Json>, modified: bool, error: Option<RewriteError>)
      ensures var r := RewriteField(ctx, m, key);
              && m' == Pinned(m, r) && (modified <==> r.Replaced?)
              && error == if r.Refused? then Some(r.error) else None
    {
      m', modified, error := m, false, None;
      var current := Field(m, key);
      if current.Null? || current == Str(EmptyText) {
        return;
      }
      if !current.Str? {
        error := Some(ParseFailure);
        return;
      }
      var r := RewriteTag(ctx, current.text);
      if r.Refused? {
        error := Some(r.error);
      } else if r.Replaced? {
        m' := m[key := Str(r.value)];
        modified := true;
      }
    }

    method RewriteRange(ctx: Context) returns (r: Rewrite)
      modifies this
      ensures r == Rewriter.RewriteRange(ctx, old(req))
      ensures req == Sent(old(req), r)
    {
      if req.params.BadParams? || !FilterList(req.params.items) {
        return Failed(ParseFailure);
      }
      if |req.params.items| == 0 {
        return Crash;
      }
      var m := FilterFields(req.params.items[0]);
      var hasFrom, hasTo := "fromBlock" in m, "toBlock" in m;
      if hasFrom && !hasTo {
        m := m["toBlock" := Str(Latest)];
      } else if hasTo && !hasFrom {
        m := m["fromBlock" := Str(Latest)];
      }
      var modifiedFrom, modifiedTo, error;
      m, modifiedFrom, error := RewriteTagMap(ctx, m, "fromBlock");
      if error.Some? {
        return Failed(error.value);
      }
      m, modifiedTo, error := RewriteTagMap(ctx, m, "toBlock");
      if error.Some? {
        return Failed(error.value);
      }
      if ctx.maxBlockRange > 0 && (hasFrom || hasTo) {
        var from := FieldHeight(m, "fromBlock", ctx.view.latest);
        if from.None? {
          return Failed(ParseFailure);
        }
        var to := FieldHeight(m, "toBlock", ctx.view.latest);
        if to.None? {
          return Failed(ParseFailure);
        }
        if !WithinCap(from.value, to.value, ctx.maxBlockRange) {
          return Failed(RangeTooLarge);
        }
      }
      if modifiedFrom || modifiedTo {
        req := req.(params := Params(req.params.items[0 := Object(m)]));
        return Changed(req);
      }
      return Unchanged;
    }

    /** RewriteTags: the verdict of the specification, and the request as it is to be sent. */
    method RewriteTags(ctx: Context) returns (r: Rewrite)
      modifies this
      ensures r == Rewriter.RewriteTags(ctx, old(req))
      ensures req == Sent(old(req), r)
    {
      if req.methodName == "eth_blockNumber" {
        return Answered(ctx.view.latest);
      }
      if TakesRange(req.methodName) {
        r := RewriteRange(ctx);
        return;
      }
      var slot := BlockSlot(req.methodName);
      if slot.None? {
        return Unchanged;
      }
      r := RewriteParam(ctx, slot.value);
    }
  }
}
