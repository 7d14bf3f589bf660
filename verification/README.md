# A verified model of proxyd's consensus core

proxyd is an RPC proxy in front of a group of Ethereum nodes. Its consensus-aware mode polls the nodes,
resolves one block on which they agree, publishes that block, pins every forwarded request to it, and puts
the answers of a batch back in order. This project models that core in Dafny and proves what it promises.

| files | what they model |
|---|---|
| `WalkBack`, `PollerSpec`, `PollerRuns`, `Poller` | the consensus poller: polling, banning, choosing candidates, walking back to an agreed block |
| `TrackerSpec`, `TrackerRuns`, `Tracker` | the highly available tracker: leader election through an expiring lock, shared state |
| `Rewriter`, `RewriterMeaning`, `RequestRewriter` | pinning block tags to the consensus view; the cap on log ranges |
| `BatchMerge`, `BatchForward`, `BatchServer`, `BatchOutcomes` | the batch pipeline: grouping, minibatches, retries and failover, overrides, scattering; what each request comes to |
| `SlidingWindow`, `RateLimiter` | the windowed error rates and the in-memory rate limiter |
| `SameView` | what poller and rewriter give together: one block from every backend |
| `Common` | 64-bit bounds, options, the published triple, iteration orders |

Each stateful part has a specification on values (a state and what every operation makes of it), a class
whose methods are proved to compute exactly that, and theorems about the specification, over every run where
the promise is about runs. `dafny verify dfyconfig.toml` checks the whole project.

How the surroundings appear in the model:

- A hash map is enumerated in any order. A group update is given one order for the minima and one for each
  round of questions, so a theorem that mentions no order holds for all of them.
- The network is a function or map from what is asked to what is answered. A missing entry, or an error, is a
  failed call.
- Clock readings are arguments. Where the code reads the clock twice there are two of them.
- Block numbers are naturals below 2^64 and every wrap-around is written out, including the decrement in the
  walk.
- Concurrent code is a state machine over its critical sections or store calls, in any interleaving.

## What is proved, in short

- **Walk-back.** The walk ends before its unsigned height passes zero exactly when the answering candidates
  agree at some height at or below the lowest latest block, and then it ends at the greatest such height. The
  broken-consensus listeners run exactly when the result is below both the lowest candidate and the block
  published before. With named hashes, answers that match the records and no zero heights, the published triple
  and the group do not depend on iteration order; with faithful numbers neither do the listeners.
- **Poller, over every run.** Polls overlap each other and the group updates, which also fall between the write of a
  record and its judgment. The candidates all
  have 0 < finalized <= safe <= latest exactly when no forced candidate is unwritten and no forced or unjudged
  one has tags out of order; published safe and finalized are then true minima, in order.
- **Tracker, over every run.** Every call to the store is a step of its own. At most one instance owns the token in
  the lock. Every record in the store was posted by the acquirer of its token, and every served triple was posted,
  or was the local state of a poster at the moment it moved on to serve it.
- **Rewriter.** A forwarded request that names a block means, on any node, what it meant under the consensus view, and
  it is this pinned request that every call of the batch pipeline sends.
- **Batches.** Every slot is written once, with the rejection, the cached result or what the one call that
  carried its request brought. The calls carry each group's misses once and in order. Retries and failover give
  exactly what the sequence of attempts says. A batch is given up for what became of its last call, or because
  the deadline had passed at the call that was due; the duplicate-id panic cannot happen.
- **Counters.** The window's sum, count and average are those of the plain list of recent points. Of n takes
  counted for one key and time exactly min(n, max) are admitted, under any interleaving.

Where the code does less than one might expect, the model keeps the code and says exactly when it does what is
expected:

- Zero is both a height and "nothing seen yet" in the minimum (`LowestIsMinimumIff`).
- Iteration order decides a round exactly when no hash is known and empty hashes are mixed with one common hash
  (`OrderMattersIff`).
- A drift below the threshold is tolerated only from above the threshold: the comment in the code promises
  more than the code does (`DriftExact`).
- A poll writes a record before judging it, and a forced candidate always qualifies (`CandidatesSoundIff`, with
  `UnjudgedRecordIsEligible` and `ForcedCandidateUnsound` as witnesses). A banned backend qualifies again exactly
  when its ban ends before its record is stale (`BannedQualifiesIff`), so the run theorem takes bans to be longer.
- The walk lowers latest only: published safe is within published latest exactly when the candidates agree
  somewhere between the two minima (`SafeWithinLatestIff`, with `SafeCanExceedLatest` as a witness).
- Two instances both believe they lead exactly after one takes a free lock while another keeps its flag
  (`FlagsBreakExactly`), and the stale one then serves a frozen state (`StaleLeaderFrozen`).
- A post lands under the lock exactly when the lock does not expire between its confirmation and the write
  (`PostedUnderLockIff`), and what is served is what was posted exactly when no group update falls between the two
  readings of the local state (`ServesWhatItPosted`).
- A takeover can move the served state back exactly when that state is incomplete and has a component above 1
  (`BackwardsIff`), or when a group update lowers the local state while it posts (`TakeoverRun`).
- A null block parameter, an empty object, and a missing, null or empty end of a filter are forwarded without being
  pinned: they keep their meaning exactly on nodes whose latest block is the view's (`ItemMeaning`, `RequestMeaning`,
  `FilterMeaning`, with `NullIsForwarded` as a witness).
- The unsigned range check is right exactly while bound plus cap stays below 2^64 (`UnsignedCapExact`).
- Points out of order leave old buckets behind, and the count is exact exactly when no old bucket follows a recent
  one (`EvictedExactIff`, `Count`).
- Under a clock that may go back, the limit holds for a time exactly when its takes fit the limit, the limit
  admits none, or they fell into one generation (`LimitIff`, with `ClockBackTwiceTheLimit` as a witness).

## Model

| member | source | states |
|---|---|---|
| WalkBack.LowestIsMinimumIff | consensus_poller.go:461-476 | the fold with zero as "nothing yet" gives the true minimum if and only if no value is zero or the last one is |
| WalkBack.RoundExact | consensus_poller.go:492-516 | in any iteration order a round succeeds if and only if all answering candidates return the height with the known hash, or with one common hash when none is known; it then ends with that hash and is not broken |
| WalkBack.RoundBroken | consensus_poller.go:502-515 | with faithful numbers, a round is broken if and only if it fails at a height already published |
| WalkBack.RoundAny | consensus_poller.go:492-516 | on any answers, a round with a known hash succeeds if and only if all answering candidates return the height with that hash, and one without if and only if they return the height with empty hashes followed by one common hash |
| WalkBack.RoundStopsAt | consensus_poller.go:492-516 | on any answers, a round that fails stops at the first candidate whose number or hash differs from what is known by then, and is broken if and only if that number was already published |
| WalkBack.OrderMattersIff | consensus_poller.go:499-515 | two iteration orders of the same candidates give different outcomes if and only if all answers have the height, and empty hashes are mixed with exactly one other hash |
| WalkBack.WalkEnds | consensus_poller.go:480-526 | the walk ends without the unsigned height passing zero if and only if the candidates agree at some height up to the start, and then at the greatest such height, with its common hash |
| WalkBack.BrokenExactly | consensus_poller.go:480-526 | consensus counts as broken if and only if the resolved block is below both the start of the walk and the block published before |
| WalkBack.WalkOrderFree | consensus_poller.go:490-526 | walks under different iteration orders end at the same height in the same round |
| WalkBack.AskCandidates | consensus_poller.go:492-516 | the inner loop computes one round of the specification |
| WalkBack.FindProposal | consensus_poller.go:480-526 | the outer loop computes the walk, or has gone round the whole 64-bit range |
| PollerSpec.DriftExact | consensus_poller.go:428-448 | tags are as expected if and only if finalized <= safe <= latest and each drop is at most its threshold and starts above it |
| PollerSpec.PollOutcomes | consensus_poller.go:306-422 | the whole record after a poll, with the exact condition of each outcome: the observed values, a ban with the heights erased, or no change |
| PollerSpec.WithFallbackFlag | backend.go:978-997 | holds exactly the backends configured with this flag; an unconfigured one is in neither list |
| PollerSpec.FlaggedInOrder | backend.go:978-997 | primaries and fallbacks are the configured list at exactly the positions with the flag, in order |
| PollerSpec.FilterKeepsHighest | consensus_poller.go:754-812 | survivors are eligible and within the lag of each other, a highest eligible backend survives, each dropped one is beyond the lag of a survivor, and nothing survives only if nothing was eligible |
| PollerSpec.PrimariesFirst | consensus_poller.go:732-742 | candidates are all primaries, or all fallbacks and then no primary was eligible |
| PollerSpec.CandidatesExactly | consensus_poller.go:732-812 | a backend is a candidate, with its own record, if and only if it is a fit primary, or a fit fallback when no primary is fit, and no other such is more than the lag ahead; fit is forced, or not banned, healthy, with enough peers, in sync and updated recently |
| PollerSpec.LagExactIff | consensus_poller.go:799-803 | the unsigned lag is the plain difference if and only if the subtraction does not pass zero |
| PollerSpec.Present | consensus_poller.go:545-556 | the group holds exactly the configured backends that are candidates |
| PollerSpec.PresentInOrder | consensus_poller.go:548-556 | the group is the configured list at exactly the positions of candidates, in order |
| PollerRuns.LeastInAnyOrder | consensus_poller.go:465-476 | without zeros the fold is the least value over the candidates in every iteration order |
| PollerRuns.LowestBlockIsLowest | consensus_poller.go:465-469 | the hash kept with the lowest latest block is one recorded for that block |
| PollerRuns.NonZeroGroupUpdate | consensus_poller.go:461-542 | over candidates without zeros, ordered or not, the walk starts at a recorded lowest block above zero, and safe and finalized are true minima |
| PollerRuns.SoundGroupUpdate | consensus_poller.go:461-542 | over sound candidates the walk starts at a recorded lowest block, and safe and finalized are true minima with 0 < finalized <= safe <= lowest latest |
| PollerRuns.EmptyGroupUpdate | consensus_poller.go:451-560 | without candidates the zero triple and an empty group are published and no listener runs |
| PollerRuns.OrderIndependence | consensus_poller.go:451-560 | with named hashes, answers that match the records and no zero heights, two updates that differ only in how the candidates are enumerated publish the same triple and the same group, and with faithful numbers and a walk that does not wrap they run the same listeners |
| PollerRuns.ListenersRunExactly | consensus_poller.go:528-537 | each listener runs once if the published block is below both the lowest candidate and the former block, and none runs otherwise, also when nothing is left to propose |
| PollerRuns.SafeWithinLatestIff | consensus_poller.go:540-542 | over sound candidates whose walk settles, published safe is at most published latest if and only if the candidates agree at some height between the lowest safe and the lowest latest block |
| PollerRuns.UpdateExact | consensus_poller.go:451-560 | an update leaves the records alone, publishes the height where the walk ended, runs the listeners if it broke and sets the group to the candidates in configured order; while the walk has not ended it changes nothing |
| PollerRuns.WriteKeepsSettled | consensus_poller.go:306-383 | up to its write, a poll leaves a record that is unjudged and without zeros, or as settled as before |
| PollerRuns.JudgeKeepsSettled | consensus_poller.go:402-421 | judging an unjudged record leaves it sound, banned beyond its staleness, or forced |
| PollerRuns.WriteThenJudge | consensus_poller.go:306-422 | a write and then its judgment, uninterrupted, is a whole poll |
| PollerRuns.CandidatesSoundIff | consensus_poller.go:754-787 | under the run invariant the candidates are all sound if and only if no forced one is unwritten and no forced or unjudged one is out of order, and all without zeros if and only if no forced one is unwritten |
| PollerRuns.UpdateKeepsOrder | consensus_poller.go:451-560 | a group update over sound candidates leaves the records alone, publishes minima in order, and keeps finalized at most safe |
| PollerRuns.RunKeepsInv | consensus_poller.go:306-560 | every admissible run of writes, judgments and group updates keeps the invariant, polls overlapping each other and the updates |
| PollerRuns.EveryRun | consensus_poller.go:306-560 | in every reachable state, polls overlapping each other and the updates and being interrupted before their judgment, the records of the candidates are sound if and only if the candidates are trusted, and the next update then starts at the lowest recorded latest block and publishes the least recorded safe and finalized, in order |
| PollerRuns.EveryTrustedRun | consensus_poller.go:306-560 | in every run whose updates find trusted candidates, published finalized is at most published safe |
| PollerRuns.EveryRunAgrees | consensus_poller.go:451-560 | from every reachable state in which no forced candidate is unwritten, the update starts at a lowest recorded block of the candidates and publishes the greatest block up to it on which the answering candidates agree, whenever there is one, with the least recorded safe and finalized |
| PollerRuns.UnjudgedRecordIsEligible | consensus_poller.go:381-421 | whenever a poll reads tags out of order, the backend qualifies between the write and the judgment, and not after it |
| PollerRuns.BannedQualifiesIff | consensus_poller.go:593-607 | a banned backend qualifies again, with erased heights, if and only if its ban ends before its record is stale and the other checks pass |
| PollerRuns.ForcedCandidateUnsound | consensus_poller.go:754-787 | a forced primary qualifies before its first poll, with an unsound record |
| Poller.ConsensusPoller.constructor | consensus_poller.go:269-303 | every backend starts with a fresh record, nothing is published |
| Poller.ConsensusPoller.Ban | consensus_poller.go:593-607 | only this record changes, to its banned form; a forced candidate is never banned |
| Poller.ConsensusPoller.UpdateBackend | consensus_poller.go:306-422 | only this record changes, to what the specification makes of the poll |
| Poller.ConsensusPoller.FilterCandidates | consensus_poller.go:754-812 | the loops compute the eligible backends that no other is ahead of by more than the lag |
| Poller.ConsensusPoller.DropLagging | consensus_poller.go:789-811 | the loops, with their unsigned subtraction, keep exactly those no other is ahead of by more than the lag |
| Poller.ConsensusPoller.GetConsensusCandidates | consensus_poller.go:732-742 | primaries that pass, or else fallbacks that pass |
| Poller.ConsensusPoller.SelectBackends | backend.go:978-997 | the loop selects the backends with this configured flag, in order |
| Poller.ConsensusPoller.UpdateBackendGroupConsensus | consensus_poller.go:451-560 | the whole new state is the specification's; nothing is published exactly when the walk has not ended |
| Poller.ConsensusPoller.Settle | consensus_poller.go:460-560 | the same once the candidates are known |
| Poller.ConsensusPoller.Group | consensus_poller.go:545-556 | the candidates in the order of the configured backends |
| Poller.ConsensusPoller.Minima | consensus_poller.go:461-476 | the one loop computes the three folds, latest together with its hash |
| TrackerRuns.StepLegal | consensus_tracker.go:189-293 | under the invariant every step of a heartbeat, whatever fails and whatever changed since it read the lock, takes only a free lock, posts only its own state under its own token, and serves only what it served, read, or holds after posting |
| TrackerRuns.StepKeepsInv | consensus_tracker.go:189-293 | every event of the cluster keeps exclusion and provenance |
| TrackerRuns.EveryRun | consensus_tracker.go:189-356 | in every state that any interleaving of single store calls, group updates, expiries and faults reaches, at most one instance owns the token in the lock; every post was made by the acquirer of its token, of its local state; every record comes from such a post; every served triple is the initial one, was posted so, or was the local state, at that moment, of an acquirer that had posted and moved on to serve it |
| TrackerRuns.HeldUntilExpiry | consensus_tracker.go:212-225 | while an instance is about to post, whatever the others do, the lock still holds its token if and only if it did and has not expired |
| TrackerRuns.PostingIsConfirmed | consensus_tracker.go:212-225 | a heartbeat goes on to post only when the lock holds its own token, just acquired or extended |
| TrackerRuns.PostedUnderLockIff | consensus_tracker.go:212-337 | from the reaction that confirms the lock, after any steps of the others, the post that follows is its acquirer's and is made under the lock if and only if the lock has not expired meanwhile |
| TrackerRuns.EveryUndisturbedRun | consensus_tracker.go:323-351 | in every run in which no group update falls between the two readings of a post, every served triple is the initial one or was posted by a lock's acquirer exactly as it is served |
| TrackerRuns.ServesWhatItPosted | consensus_tracker.go:323-351 | an acknowledged post serves what it posted if and only if the local state is the same at both readings |
| TrackerRuns.BeatIsARun | consensus_tracker.go:189-293 | an uninterrupted heartbeat is a run of the cluster's single steps, with the same effect on instance and store |
| TrackerRuns.BlindBeatIsARun | consensus_tracker.go:195-208 | so is a heartbeat that could not read the lock |
| TrackerRuns.TakeoverNeverBackwards | consensus_tracker.go:263-292 | in a heartbeat that acquires the lock, a complete served state falls if and only if all writes are acknowledged and a group update while posting has lowered the local state below it |
| TrackerRuns.TakeoverRun | consensus_tracker.go:263-351 | under any interleaving, from the reaction that acquires the lock to any point of the same heartbeat, a complete served state falls if and only if the instance has moved on to serve a local state that falls short of it, and never without a group update of the instance in between |
| TrackerRuns.BackwardsIff | consensus_tracker.go:264-271 | a takeover can lower the served state if and only if that state is incomplete and has a component above 1 |
| TrackerRuns.PostExact | consensus_tracker.go:323-356 | what a post writes and what it makes of the instance, for every combination of failures; unless both writes are acknowledged the leadership ends and the served state stays |
| TrackerRuns.ElectionExact | consensus_tracker.go:263-292 | an instance, leader or not, that finds the lock free does nothing without a complete state or behind a complete served one; otherwise it ends as leader if and only if the lock is still free and all three writes are acknowledged, and a failed attempt ends its leadership |
| TrackerRuns.LeaderBeatExact | consensus_tracker.go:209-225 | a leader whose lock can be extended posts under its token; otherwise it posts nothing and gives the lock up, and its leadership ends if and only if the lock was still its own and the release is confirmed |
| TrackerRuns.FollowerBeatExact | consensus_tracker.go:226-262 | a follower writes nothing and takes over the leader's name and the state posted under the token it read |
| TrackerRuns.BlindBeatExact | consensus_tracker.go:195-208 | a leader that cannot read the lock gives it up, and stops leading if and only if the release is confirmed; a follower does nothing |
| TrackerRuns.StatePropagates | consensus_tracker.go:225-257 | after a heartbeat of the lock's owner and one of a follower, both serve the owner's local state and name the owner |
| TrackerRuns.FlagsBreakExactly | consensus_tracker.go:263-290 | from exclusive leader flags, an event makes two of them true if and only if it is a takeover, by an instance that read the lock as free and may take over, of a lock still free, while another keeps its flag |
| TrackerRuns.StaleLeaderFrozen | consensus_tracker.go:209-224 | a leader whose token left the lock, and who is not posting, keeps its flag and its served triple through any run in which it never finds the lock free |
| Tracker.RedisConsensusTracker.PostPayload | consensus_tracker.go:323-356 | the instance and the store after a post, for every combination of failures and any group update before the second reading of the local state |
| Tracker.RedisConsensusTracker.StateHeartbeat | consensus_tracker.go:189-293 | the instance and the store after an uninterrupted heartbeat are the specification's, for every combination of failures and any group update while it posts |
| RewriterMeaning.TextReading | rewriter.go:239-282 | what each form of string means as a block reference |
| RewriterMeaning.ObjectReading | rewriter.go:239-252 | what each form of EIP-1898 object means as a block reference |
| RewriterMeaning.ItemMeaning | rewriter.go:254-310 | a block parameter is refused as unreadable exactly when it cannot be used, and as out of range exactly when it is a height above latest; otherwise pending stays as it is, and any other means on a node what it meant under the view if and only if it names a block or the node's latest is the view's |
| RewriterMeaning.SlotsExact | rewriter.go:63-86 | each method's block parameter is at its own position, may be left out except where receipts are asked for, and may be an object in calls on the state of an account |
| RewriterMeaning.RequestMeaning | rewriter.go:63-147 | every request of a method with a block parameter is refused, left alone when the parameter is missing, or sent with exactly that argument asking for the same block, an omitted one meaning latest; nothing else changes |
| RewriterMeaning.OtherRequests | rewriter.go:40-86 | the block number is answered with the view's latest, log filters are treated as ranges, every other request is left alone |
| RewriterMeaning.FieldMeaning | rewriter.go:217-237 | rewriting one filter field preserves its meaning if and only if the field names a block or the node's latest is the view's, leaves a pending one as it is, and leaves the other fields alone |
| RewriterMeaning.FieldRefusal | rewriter.go:217-237 | a field is refused exactly when it is not left open and cannot be used or is too high |
| RewriterMeaning.FilterMeaning | rewriter.go:149-173 | a filter that has an end is forwarded with both; each end of any forwarded filter means on a node what it meant under the view if and only if it names a block or the node's latest is the view's; other fields are untouched |
| RewriterMeaning.RangeRequestMeaning | rewriter.go:149-200 | every request with a log filter is refused, crashes on an empty list, or is sent with the first filter asking for the same blocks and everything else as it was |
| RewriterMeaning.NullIsForwarded | rewriter.go:217-310 | a null block parameter is forwarded as it is, and without a cap so is a filter with null ends |
| RewriterMeaning.UnsignedCapExact | rewriter.go:175-187 | the unsigned test is from <= to <= from + cap on all heights up to a bound if and only if bound + cap < 2^64 |
| RewriterMeaning.PinnedHeight | rewriter.go:202-215 | the height read back from a rewritten field is the one asked for under the view |
| RewriterMeaning.RangeCap | rewriter.go:149-215 | a filter is refused exactly for an end that cannot be used or is too high, or under a cap for ends that are no heights or not from <= to <= from + cap, each with its own error |
| RequestRewriter.Request.RewriteParam | rewriter.go:88-147 | the verdict is the specification's, and the request is changed in place only by a Changed verdict |
| RequestRewriter.Request.RewriteRange | rewriter.go:149-200 | the same for log filters |
| RequestRewriter.Request.RewriteTagMap | rewriter.go:217-237 | the field is replaced in place exactly when the specification says so, and the error is its error |
| RequestRewriter.Request.RewriteTags | rewriter.go:40-86 | the verdict is the specification's, and the request becomes what is to be sent |
| BatchMerge.SortAligns | backend.go:957-961 | any sort by request position puts one-reply-per-id answers into request order |
| BatchMerge.KeyExact | backend.go:947-961 | a reply is sorted by the position of its request, and one that matches none as the first |
| BatchMerge.SortBatchRPCResponse | backend.go:947-962 | panics if and only if two requests share an id; otherwise permutes the replies into the order of their requests, unmatched ones first, and aligns them when there is one per id |
| BatchMerge.OverrideResponses | backend.go:1732-1742 | the insertion loop never indexes out of range; overrides end at their own index and the replies keep their order between them |
| BatchForward.DoForward | backend.go:698-910 | fails with exactly the error of the attempt, crashes exactly when the reply has a null element, a bad-request reply has an element without an error, or two requests share an id, and otherwise returns the replies of this exchange sorted back |
| BatchForward.AttemptExact | backend.go:698-910 | the exact condition for an attempt to be refused with each error, to crash, or to deliver all elements of the reply |
| BatchForward.ForwardToBackend | backend.go:540-638 | gives exactly the first verdict that is not retried, or the last retry's |
| BatchForward.RetriesExact | backend.go:540-638 | every attempt before the deciding one failed with an error that is retried, and the deciding one succeeded, crashed, failed with one of the five that are not, or was the last |
| BatchForward.ForwardToGroup | backend.go:1635-1730 | gives exactly the first conclusive verdict in failover order, or "no backends" when every backend failed; nothing to send is served empty |
| BatchForward.FailoverExact | backend.go:1635-1730 | every backend before the deciding one failed with an error that is passed over, and the deciding one succeeded, crashed or failed with one of the six that are not; if none decides there is no backend left |
| BatchForward.NothingToSend | backend.go:1641-1725 | with nothing to send the first backend serves an empty answer, and without a backend there is none |
| BatchForward.GroupExchanged | backend.go:1635-1730 | a full list is the answer of one exchange that carried exactly the requests sent |
| BatchForward.DecisionKeepsId | backend.go:1752-1778 | neither a local answer nor a rewrite changes the id |
| BatchForward.OverwriteConsensusResponses | backend.go:1744-1782 | local answers are kept at their index, the rest is passed on in order; it crashes exactly when rewriting a request does |
| BatchForward.PassedIdsUnique | backend.go:1752-1781 | what is passed on repeats no id if the requests repeat none |
| BatchForward.MergeRestores | backend.go:1732-1782 | merging undoes the split: position by position, the local answer or the reply at the position at which the request was sent |
| BatchForward.Forward | backend.go:1000-1050 | the result is exactly what the verdict on the requests passed on makes of it: its error, its crash, or for each request the local answer or its own reply |
| BatchForward.ForwardedIds | backend.go:1000-1050 | with a well-behaved network and distinct ids every answer carries the id of its own request |
| BatchServer.GroupOneMore | server.go:646-651 | the batches stay exactly those of the admitted requests by occurrence of their id and backend group, in order, without repeated ids |
| BatchServer.MinibatchRanges | server.go:669-684 | the ranges are non-empty, at most the maximum size, adjacent, and end at the end |
| BatchServer.CountMinibatches | server.go:670-671 | the cut points reach the end of the list after exactly this many minibatches |
| BatchServer.MinibatchBounds | server.go:682-683 | the bounds of each minibatch are consecutive cut points |
| BatchServer.ChunksConcatenate | server.go:669-684 | the minibatches one after the other are the whole list |
| BatchServer.Scatter | server.go:705-706 | each response goes to the slot of its request, each such slot is written once, no other changes |
| BatchServer.ForwardMinibatch | server.go:684-703 | the responses are the forwarded answers of this very call, or its error for each element; or the batch ends with exactly the reason this call gives |
| BatchServer.LookUp | server.go:657-667 | hits fill their slots, misses are the rest; reports a hit exactly when there is one |
| BatchServer.ServeMinibatch | server.go:682-706 | after each minibatch the trace has one more call with these elements, and the slots of all elements so far hold what their own calls brought, once each |
| BatchServer.ServeMisses | server.go:669-719 | the calls carry the misses once and in order and fill their slots, or a prefix of them and then the batch ends for what became of the last call, or for a deadline that had passed with something left to send |
| BatchServer.ServeBatch | server.go:657-719 | every slot of the group is filled once, from the cache or by its own call |
| BatchServer.ServedProgress | server.go:654-720 | serving one group leaves every other slot as it was |
| BatchServer.ServeBatches | server.go:654-720 | in any order of groups, every slot of every group is filled once, the calls account for every miss, and the cached flag is exact; or the batch ends for a reason of its last or due call |
| BatchServer.GroupRequests | server.go:548-652 | rejections are written to their slots, admitted requests are grouped, nothing else is written |
| BatchServer.CallIds | server.go:684-703 | with a well-behaved network a completed call answers each request under its own id |
| BatchServer.CompleteIds | server.go:536-731 | with a well-behaved network every slot of a parsable, valid request carries its id |
| BatchServer.HandleBatchRPC | server.go:536-731 | every slot is written once, with the rejection, the cached result or what the one call that carried its request brought; the calls carry each group's misses once, in order, in minibatches of at most the limit; the cached flag is exact; the batch is given up only because the deadline had passed at the call that was due, or for what became of the last call (a receipts error, a crash in rewriting, or one on a null element or a bad-request reply), never for a repeated id |
| BatchOutcomes.ScreenExact | server.go:554-645 | without naming the screening: which requests are admitted and under which backend group, and the answer of each that is not, with the exact condition of each reason |
| BatchOutcomes.SlotExact | server.go:548-731 | every slot of an answered batch holds the right rejection or the cached result, or the answer of the call that carried it; a request is sent if and only if nothing stands against it and it is not in the cache, under the backend group of its method |
| BatchOutcomes.SentOnly | server.go:646-684 | whatever is sent, also in a batch that is given up, is a request against which nothing stands and which is not in the cache, under the backend group of its method |
| BatchOutcomes.MissesInOrder | server.go:657-667 | the misses are the elements of the batch that are not in the cache, in order |
| BatchOutcomes.OccurrencesCount | server.go:646-650 | the group number of a request counts the admitted requests with its id up to it |
| BatchOutcomes.FailureExact | server.go:685-703 | a failed minibatch ends the batch if and only if its error is one of the two about receipts; any other error goes to each of its requests |
| BatchOutcomes.DecideBlock | backend.go:1752-1778 | a request with a block parameter is answered locally with the right error, or passed on asking for the same block |
| BatchOutcomes.DecideRange | backend.go:1752-1778 | a request with a log filter is answered locally with the right error, crashes on an empty list, or is passed on asking for the same blocks |
| BatchOutcomes.DecideOther | backend.go:1752-1778 | the block number is answered locally with the view's latest; any other request, and every request without a view, is passed on as it is |
| BatchOutcomes.SentMeaning | backend.go:1744-1782 | every request sent in a call of a consensus-aware group asks every node for the block the client's request asked for under the view at that call |
| SlidingWindow.RoundMonotone | pkg/avg-sliding-window/sliding.go:96-100 | rounding to buckets is monotone |
| SlidingWindow.RoundNearest | pkg/avg-sliding-window/sliding.go:96-100 | rounding is to the nearest multiple of the bucket size, halfway values up |
| SlidingWindow.TotalsMatch | pkg/avg-sliding-window/sliding.go:170-188 | buckets in any order that hold exactly the recent points have the totals of those points, plus those of older buckets still there |
| SlidingWindow.EvictedExactIff | pkg/avg-sliding-window/sliding.go:146-167 | eviction leaves only recent buckets if and only if no old bucket follows a recent one, and never drops a recent one |
| SlidingWindow.AvgSlidingWindow.EvictUpTo | pkg/avg-sliding-window/sliding.go:151-166 | drops exactly the old front buckets and keeps the totals equal to those of the rest |
| SlidingWindow.AvgSlidingWindow.Advance | pkg/avg-sliding-window/sliding.go:146-167 | nothing old is left if and only if no old bucket followed a recent one; with points in order that is always so |
| SlidingWindow.AvgSlidingWindow.Insert | pkg/avg-sliding-window/sliding.go:125-142 | the point joins the bucket of its rounded time and the totals follow |
| SlidingWindow.AvgSlidingWindow.AddWithTime | pkg/avg-sliding-window/sliding.go:114-143 | for a point at any time, the history gains it unless it lies in the future, and buckets and totals still summarise the history |
| SlidingWindow.AvgSlidingWindow.Add | pkg/avg-sliding-window/sliding.go:103-106 | the same at the current time |
| SlidingWindow.AvgSlidingWindow.Sum | pkg/avg-sliding-window/sliding.go:179-182 | the sum over exactly the points whose rounded time is after the window start, when points come in order; in general that plus the old buckets left behind |
| SlidingWindow.AvgSlidingWindow.Count | pkg/avg-sliding-window/sliding.go:185-188 | the number of exactly those points, if and only if no old bucket followed a recent one, as when points come in order |
| SlidingWindow.AvgSlidingWindow.Avg | pkg/avg-sliding-window/sliding.go:170-176 | the mean of exactly those points, 0 if there are none, when points come in order or no old bucket followed a recent one |
| RateLimiter.LimitedKeys.Take | frontend_rate_limiter.go:39-49 | the key's count grows by one, and the take is admitted if and only if the old count is below the limit |
| RateLimiter.MemoryFrontendRateLimiter.Generation | frontend_rate_limiter.go:74-87 | the current generation is kept for the same truncated time and replaced by an empty one otherwise |
| RateLimiter.MemoryFrontendRateLimiter.Take | frontend_rate_limiter.go:73-90 | an uninterrupted take counts in the generation of its time |
| RateLimiter.CommitKeepsInv | frontend_rate_limiter.go:39-49 | a take counts in the generation it picked up, even if that was replaced meanwhile |
| RateLimiter.EveryGeneration | frontend_rate_limiter.go:39-90 | under any clock and any interleaving, of the n takes of a key counted in one generation exactly min(n, max) are admitted |
| RateLimiter.LimitIff | frontend_rate_limiter.go:73-90 | under any clock and any interleaving, of the n takes of a key counted for one time exactly min(n, max) are admitted if and only if n is at most max, max admits none, or they were counted in one generation |
| RateLimiter.EverySchedule | frontend_rate_limiter.go:73-90 | while the truncated time does not go back, of the n takes of a key counted for one time exactly min(n, max) are admitted, under any interleaving |
| RateLimiter.ClockBackTwiceTheLimit | frontend_rate_limiter.go:78-82 | for every positive limit there is a schedule, with a truncated time that goes back, in which at least twice the limit is admitted for one time |
| SameView.OneBlockBelow | consensus_poller.go:490-526 | candidates that answered the final round name the same block at every height up to the published one |
| SameView.SameBlockEverywhere | rewriter.go:254-310 | a parameter forwarded right after a group update, for a height up to latest, is read by any two group members that answered the final round as that height, with the same block there, unless it is left open and their latest is not the published one |
| SameView.AcceptedWithinLatest | rewriter.go:254-310 | only the safe and finalized tags can be pinned above the published latest |
| SameView.SafeCanExceedLatest | consensus_poller.go:540-542 | two chains that part at a block both call safe: latest is published below safe, and safe is pinned to a height with two different blocks |
| SameView.LoadBalancedConsensusGroup | backend.go:1257-1293 | the order holds exactly the healthy group members as often as the group does, degraded ones last |
| SameView.AnyRouteSameBlock | backend.go:1257-1293 | any two positions of the order a request is routed by, held by backends that answered the final round, read its parameter as one height with one block |

## Left out

- HTTP, WebSocket, TLS and Redis clients, JSON and hexadecimal codecs, metrics, logging, configuration, commands.
- Multicall routing, interop and transaction checks: the decisions of rate limiters and sender checks are inputs of the batch pipeline.
- The translation of consensus_getReceipts: only its refusal in batches is modelled.
- The response cache: hits are given per slot, and storing an answer is not modelled.
- Unban, Reset, adding listeners, the polling loops and their schedule.
- The Redis and fallback rate limiters, and the served-by header.
- `AvgSlidingWindow.Clear`: it zeroes the totals but keeps the buckets, so the window properties hold for runs without it.
- AvgSlidingWindow.Sum: like the other methods of the window, is stated for a clock that does not go back, and sums are real numbers, so floating-point rounding is not captured.
- EverySchedule: holds for a truncated clock that does not go back; `LimitIff` says what any other clock costs.
- EveryRun: the poller's run theorem takes bans to be longer than staleness and each backend to be polled by one poller; one clock reading serves a whole candidate filter.
- FindProposal: a walk is followed for one lap of the 64-bit range; a walk longer than that counts as not ended. Answers are fixed by backend and height during one group update.
- StateHeartbeat: the method is uninterrupted but for a group update while it posts; the state machine of `TrackerRuns` interrupts it between any two store calls. A reading of the three local numbers is taken as one.
- TakeoverNeverBackwards: is about one uninterrupted heartbeat, and `TakeoverRun` about one instance; across instances the served state can go back when a new leader never saw the old one's state.
- RequestMeaning: is about views below 2^63, and not about pending, which is forwarded as it is.
- RangeCap: is about caps below 2^63; `UnsignedCapExact` says what larger ones cost.
- SortBatchRPCResponse: sorts a sequence, with an insertion sort for the library's sort; in-place update is not captured.
- OverwriteConsensusResponses: requests are passed as values; that they are rewritten through shared pointers is captured only by `RequestRewriter`.
- ForwardToBackend: an error that a caller receives wrapped is identified with the error it wraps.
- MinibatchRanges: the floating-point ceiling is modelled by integer division.
