/** The order-restoring half of the batch pipeline (backend.go): replies are sorted back into request
    order, and locally answered requests are taken out before forwarding and put back afterwards. */
module BatchMerge {
  import opened Rewriter

  /** The failures that the pipeline tells apart. */
  datatype Err =
    | ReceiptsCantBeBatched | ReceiptsInvalidTarget | ContextCanceled
    | ResponseTooLarge | RequestBodyTooLarge | MethodNotWhitelisted
    | BackendOffline | BackendOverCapacity | UnexpectedJSONRPC | NoBackends | DeadlineExceeded
    | ParseErr | InvalidRequest | OverRateLimit | BlockOutOfRange | InvalidParams
    | Other(code: int)

  datatype Body = Data(value: nat) | Number(n: nat) | Error(err: Err)

  /** A response; an absent id is the empty string. */
  datatype RPCRes = RPCRes(id: string, body: Body)

  ghost predicate UniqueIds(reqs: seq<RPCReq>) {
    forall i, j :: 0 <= i < j < |reqs| ==> reqs[i].id != reqs[j].id
  }

  /** Reply i answers request i. */
  ghost predicate Aligned(reqs: seq<RPCReq>, res: seq<RPCRes>) {
    |res| == |reqs| && forall i :: 0 <= i < |reqs| ==> res[i].id == reqs[i].id
  }

  // ---------------------------------------------------------------- sorting replies

  /** One reply per request id, in any order. */
  ghost predicate OneReplyPerId(reqs: seq<RPCReq>, res: seq<RPCRes>) {
    && |res| == |reqs|
    && (forall i, j :: 0 <= i < j < |res| ==> res[i].id != res[j].id)
    && (forall i :: 0 <= i < |res| ==> exists k :: 0 <= k < |reqs| && reqs[k].id == res[i].id)
  }

  ghost predicate Permutes(out: seq<RPCRes>, res: seq<RPCRes>, perm: seq<nat>) {
    && |out| == |res| == |perm|
    && (forall i :: 0 <= i < |out| ==> perm[i] < |res| && out[i] == res[perm[i]])
    && (forall i, j :: 0 <= i < j < |perm| ==> perm[i] != perm[j])
  }

  ghost predicate IsPermutation(out: seq<RPCRes>, res: seq<RPCRes>) {
    exists perm :: Permutes(out, res, perm)
  }

  type Positions = map<string, nat>

  /** The sort key: the position of the id among the requests, or 0 for an id that is not there. */
  function Key(pos: Positions, r: RPCRes): nat {
    if r.id in pos then pos[r.id] else 0
  }

  ghost predicate PositionsOf(reqs: seq<RPCReq>, pos: Positions) {
    && (forall i :: 0 <= i < |reqs| ==> reqs[i].id in pos && pos[reqs[i].id] == i)
    && (forall id :: id in pos ==> pos[id] < |reqs| && reqs[pos[id]].id == id)
  }

  ghost predicate SortedByKey(pos: Positions, out: seq<RPCRes>) {
    forall i, j :: 0 <= i < j < |out| ==> Key(pos, out[i]) <= Key(pos, out[j])
  }

  /** The key, exactly: a reply to a request has its position, and one that matches none counts as first. */
  lemma KeyExact(reqs: seq<RPCReq>, pos: Positions, r: RPCRes)
    requires PositionsOf(reqs, pos)
    ensures forall k :: 0 <= k < |reqs| && reqs[k].id == r.id ==> Key(pos, r) == k
    ensures (forall k :: 0 <= k < |reqs| ==> reqs[k].id != r.id) ==> Key(pos, r) == 0
  {
  }

  /** The replies follow the order of their requests; those that match no request come first. */
  ghost predicate InRequestOrder(reqs: seq<RPCReq>, out: seq<RPCRes>) {
    exists pos :: PositionsOf(reqs, pos) && SortedByKey(pos, out)
  }

  /** The replies sorted back: all of them, in request order, and aligned if there is one per id. */
  ghost predicate Reordered(reqs: seq<RPCReq>, res: seq<RPCRes>, out: seq<RPCRes>) {
    IsPermutation(out, res) && InRequestOrder(reqs, out) && (OneReplyPerId(reqs, res) ==> Aligned(reqs, out))
  }

  lemma {:induction false} KeysAtLeast(pos: Positions, out: seq<RPCRes>, i: nat)
    requires forall a, b :: 0 <= a < b < |out| ==> Key(pos, out[a]) < Key(pos, out[b])
    requires i < |out|
    ensures Key(pos, out[i]) >= i
  {
    if i > 0 { KeysAtLeast(pos, out, i - 1); }
  }

  lemma {:induction false} KeysAtMost(pos: Positions, out: seq<RPCRes>, i: nat)
    requires forall a, b :: 0 <= a < b < |out| ==> Key(pos, out[a]) < Key(pos, out[b])
    requires forall a :: 0 <= a < |out| ==> Key(pos, out[a]) < |out|
    requires i < |out|
    ensures Key(pos, out[i]) <= i
    decreases |out| - i
  {
    if i + 1 < |out| { KeysAtMost(pos, out, i + 1); }
  }

  /** Distinct keys in ascending order, all below the length, are 0, 1, 2, ... */
  lemma AscendingKeysAreIndices(pos: Positions, out: seq<RPCRes>, i: nat)
    requires forall a, b :: 0 <= a < b < |out| ==> Key(pos, out[a]) < Key(pos, out[b])
    requires forall a :: 0 <= a < |out| ==> Key(pos, out[a]) < |out|
    requires i < |out|
    ensures Key(pos, out[i]) == i
  {
    KeysAtLeast(pos, out, i);
    KeysAtMost(pos, out, i);
  }

  /** Any sort by request position puts one-reply-per-id answers back into request order. */
  lemma SortAligns(reqs: seq<RPCReq>, res: seq<RPCRes>, pos: Positions, out: seq<RPCRes>, perm: seq<nat>)
    requires PositionsOf(reqs, pos) && OneReplyPerId(reqs, res)
    requires Permutes(out, res, perm) && SortedByKey(pos, out)
    ensures Aligned(reqs, out)
  {
    forall a, b | 0 <= a < b < |out| ensures Key(pos, out[a]) < Key(pos, out[b]) {
      assert res[perm[a]].id != res[perm[b]].id;
      assert out[a].id in pos && out[b].id in pos;
    }
    forall i | 0 <= i < |out| ensures out[i].id == reqs[i].id {
      AscendingKeysAreIndices(pos, out, i);
      assert out[i].id in pos;
    }
  }

  lemma InsertKeepsPermutation(out: seq<RPCRes>, res: seq<RPCRes>, perm: seq<nat>, i: nat, k: nat)
    requires i < |res| && Permutes(out, res[..i], perm) && k <= |out|
    ensures Permutes(out[..k] + [res[i]] + out[k..], res[..i + 1], perm[..k] + [i] + perm[k..])
  {
    var out', perm' := out[..k] + [res[i]] + out[k..], perm[..k] + [i] + perm[k..];
    forall a | 0 <= a < |out'| ensures perm'[a] < i + 1 && out'[a] == res[perm'[a]] {
      if a > k { assert out'[a] == out[a - 1] && perm'[a] == perm[a - 1]; }
    }
    forall a, b | 0 <= a < b < |perm'| ensures perm'[a] != perm'[b] {
      var a', b' := if a <= k then a else a - 1, if b <= k then b else b - 1;
      assert a != k ==> perm'[a] == perm[a'];
      assert b != k ==> perm'[b] == perm[b'];
    }
  }

  lemma InsertKeepsSorted(pos: Positions, out: seq<RPCRes>, r: RPCRes, k: nat)
    requires SortedByKey(pos, out) && k <= |out|
    requires k > 0 ==> Key(pos, out[k - 1]) <= Key(pos, r)
    requires forall j :: k <= j < |out| ==> Key(pos, r) <= Key(pos, out[j])
    ensures SortedByKey(pos, out[..k] + [r] + out[k..])
  {
    var out' := out[..k] + [r] + out[k..];
    forall a, b | 0 <= a < b < |out'| ensures Key(pos, out'[a]) <= Key(pos, out'[b]) {
      assert a < k ==> out'[a] == out[a] && Key(pos, out[a]) <= Key(pos, r);
      assert a > k ==> out'[a] == out[a - 1];
      assert b < k ==> out'[b] == out[b];
      assert b > k ==> out'[b] == out[b - 1];
    }
  }

  method InsertionSort(pos: Positions, res: seq<RPCRes>) returns (out: seq<RPCRes>, ghost perm: seq<nat>)
    ensures Permutes(out, res, perm) && SortedByKey(pos, out)
  {
    out, perm := [], [];
    for i := 0 to |res|
      invariant Permutes(out, res[..i], perm) && SortedByKey(pos, out)
    {
      var k := |out|;
      while k > 0 && Key(pos, out[k - 1]) > Key(pos, res[i])
        invariant 0 <= k <= |out|
        invariant forall j :: k <= j < |out| ==> Key(pos, res[i]) <= Key(pos, out[j])
      {
        k := k - 1;
      }
      InsertKeepsPermutation(out, res, perm, i, k);
      InsertKeepsSorted(pos, out, res[i], k);
      out := out[..k] + [res[i]] + out[k..];
      perm := perm[..k] + [i] + perm[k..];
    }
    assert res[..|res|] == res;
  }

  /** sortBatchRPCResponse: an insertion sort stands in for the library's sort. Two requests with one
      id make it panic. */
  method SortBatchRPCResponse(reqs: seq<RPCReq>, res: seq<RPCRes>) returns (out: seq<RPCRes>, panicked: bool)
    ensures panicked <==> !UniqueIds(reqs)
    ensures !panicked ==> Reordered(reqs, res, out)
  {
    var pos: Positions := map[];
    out, panicked := [], false;
    for i := 0 to |reqs|
      invariant PositionsOf(reqs[..i], pos)
      invariant UniqueIds(reqs[..i])
    {
      if reqs[i].id in pos {
        assert reqs[..i][pos[reqs[i].id]].id == reqs[i].id;
        return [], true;
      }
      pos := pos[reqs[i].id := i];
      assert reqs[..i + 1] == reqs[..i] + [reqs[i]];
    }
    assert reqs[..|reqs|] == reqs;
    ghost var perm: seq<nat>;
    out, perm := InsertionSort(pos, res);
    if OneReplyPerId(reqs, res) {
      SortAligns(reqs, res, pos, out, perm);
    }
  }

  // ---------------------------------------------------------------- taking out and putting back

  /** A response prepared locally, for the request at this index. */
  datatype Indexed = Indexed(index: nat, res: RPCRes)

  ghost predicate Ascending(ovs: seq<Indexed>) {
    forall a, b :: 0 <= a < b < |ovs| ==> ovs[a].index < ovs[b].index
  }

  /** Position p is not overridden, and exactly the first k overrides lie below it. */
  ghost predicate Between(ovs: seq<Indexed>, p: int, k: int) {
    && 0 <= k <= |ovs|
    && (k > 0 ==> ovs[k - 1].index < p)
    && (k < |ovs| ==> p < ovs[k].index)
  }

  /** Wherever nothing is overridden, the replies follow in order. */
  ghost predicate Ranked(ovs: seq<Indexed>, replies: seq<RPCRes>, out: seq<RPCRes>) {
    forall p, k :: 0 <= p < |out| && Between(ovs, p, k) ==> 0 <= p - k < |replies| && out[p] == replies[p - k]
  }

  /** The merged list: overrides at their own index, replies in rank order everywhere else. */
  ghost predicate Merged(ovs: seq<Indexed>, replies: seq<RPCRes>, out: seq<RPCRes>) {
    && |out| == |replies| + |ovs|
    && (forall k :: 0 <= k < |ovs| ==> ovs[k].index < |out| && out[ovs[k].index] == ovs[k].res)
    && Ranked(ovs, replies, out)
  }

  /** The overrides fit a list of n requests of which the others were forwarded. */
  ghost predicate FitsIn(ovs: seq<Indexed>, n: nat) {
    |ovs| <= n && Ascending(ovs) && forall k :: 0 <= k < |ovs| ==> ovs[k].index < n
  }

  lemma {:induction false} IndexFloor(ovs: seq<Indexed>, k: nat)
    requires Ascending(ovs) && k < |ovs|
    ensures k <= ovs[k].index
  {
    if k > 0 { IndexFloor(ovs, k - 1); }
  }

  lemma {:induction false} IndexCeiling(ovs: seq<Indexed>, n: nat, k: nat)
    requires FitsIn(ovs, n) && k < |ovs|
    ensures ovs[k].index <= n - |ovs| + k
    decreases |ovs| - k
  {
    if k + 1 < |ovs| { IndexCeiling(ovs, n, k + 1); }
  }

  lemma IndexRoom(ovs: seq<Indexed>, n: nat, k: nat)
    requires FitsIn(ovs, n) && k < |ovs|
    ensures k <= ovs[k].index <= n - |ovs| + k
  {
    IndexFloor(ovs, k);
    IndexCeiling(ovs, n, k);
  }

  /** Every position is overridden or lies between two overrides. */
  lemma Locate(ovs: seq<Indexed>, p: nat) returns (k: nat, overridden: bool)
    requires Ascending(ovs)
    ensures if overridden then k < |ovs| && ovs[k].index == p else Between(ovs, p, k)
  {
    k := 0;
    while k < |ovs| && ovs[k].index < p
      invariant 0 <= k <= |ovs| && (k > 0 ==> ovs[k - 1].index < p)
    {
      k := k + 1;
    }
    overridden := k < |ovs| && ovs[k].index == p;
  }

  lemma InsertKeepsRanks(ovs: seq<Indexed>, i: nat, replies: seq<RPCRes>, before: seq<RPCRes>, after: seq<RPCRes>)
    requires i < |ovs| && Ascending(ovs) && |before| == |replies| + i && ovs[i].index <= |before|
    requires Ranked(ovs[..i], replies, before)
    requires after == before[..ovs[i].index] + [ovs[i].res] + before[ovs[i].index..]
    ensures Ranked(ovs[..i + 1], replies, after)
  {
    var now := ovs[..i + 1];
    forall p, k | 0 <= p < |after| && Between(now, p, k)
      ensures 0 <= p - k < |replies| && after[p] == replies[p - k]
    {
      if k == i + 1 {
        assert Between(ovs[..i], p - 1, i);
      } else {
        assert Between(ovs[..i], p, k);
      }
    }
  }

  /** OverrideResponses: the insertion loop never indexes out of range and restores the whole list. */
  method OverrideResponses(replies: seq<RPCRes>, ovs: seq<Indexed>) returns (res: seq<RPCRes>)
    requires FitsIn(ovs, |replies| + |ovs|)
    ensures Merged(ovs, replies, res)
  {
    res := replies;
    for i := 0 to |ovs|
      invariant |res| == |replies| + i
      invariant forall k :: 0 <= k < i ==> ovs[k].index < |res| && res[ovs[k].index] == ovs[k].res
      invariant Ranked(ovs[..i], replies, res)
    {
      var ov := ovs[i];
      IndexRoom(ovs, |replies| + |ovs|, i);
      ghost var before := res;
      if |res| > 0 {
        res := res[..ov.index] + ([ov.res] + res[ov.index..]);
      } else {
        res := res + [ov.res];
      }
      assert res == before[..ov.index] + [ov.res] + before[ov.index..];
      InsertKeepsRanks(ovs, i, replies, before, res);
    }
    assert ovs[..|ovs|] == ovs;
  }
}
