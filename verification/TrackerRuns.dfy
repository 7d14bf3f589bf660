/** Exclusion and provenance over every run of the tracker, and what one takeover guarantees. */
module TrackerRuns {
  import opened Common
  import opened TrackerSpec

  const NO_FAULTS := Faults(Fine, Fine, Fine, Fine, Fine, Fine, Fine)

  // ---------------------------------------------------------------- the invariant

  /** An honest post: made by whoever acquired the token, of the state the poster held at that moment. */
  ghost predicate Honest(c: Cluster, p: Post) {
    && p.token in c.acquired && c.acquired[p.token] == p.poster
    && p.triple == p.localThen
  }

  ghost predicate PostedBy(c: Cluster, token: Token, i: Id) {
    exists k :: 0 <= k < |c.posts| && c.posts[k].token == token && c.posts[k].poster == i
  }

  ghost predicate WasPosted(c: Cluster, token: Token, t: Triple) {
    exists k :: 0 <= k < |c.posts| && c.posts[k].token == token && c.posts[k].triple == t
  }

  /** An honest service: by whoever acquired the token and has posted under it, of the state the server
      held at that moment. */
  ghost predicate HonestService(c: Cluster, s: Service) {
    && s.token in c.acquired && c.acquired[s.token] == s.server
    && PostedBy(c, s.token, s.server)
    && s.triple == s.localThen
  }

  /** The served triple is the initial one, was posted, or is what a poster moved on to. */
  ghost predicate Served(c: Cluster, t: Triple) {
    || t == ZERO_TRIPLE
    || (exists k :: 0 <= k < |c.posts| && c.posts[k].triple == t)
    || (exists k :: 0 <= k < |c.services| && c.services[k].triple == t)
  }

  ghost predicate OwnsToken(c: Cluster, i: Id)
    requires i in c.members
  {
    c.members[i].redlock.Some? ==>
      c.members[i].redlock.value in c.acquired && c.acquired[c.members[i].redlock.value] == i
  }

  /** Once a heartbeat has read another value, the instance's own token is gone for good; it posts only
      under its own token. */
  ghost predicate PhaseRight(c: Cluster, i: Id)
    requires i in c.members && i in c.phase
  {
    match c.phase[i]
    case Seen(val) => Holds(c.store, c.members[i].redlock) && val.Some? ==> val == c.members[i].redlock
    case Following(_) => true
    case Releasing => true
    case Posting(token) => c.members[i].redlock == Some(token)
    case Naming(token) => c.members[i].redlock == Some(token) && PostedBy(c, token, i)
    case Serving(token) => c.members[i].redlock == Some(token) && PostedBy(c, token, i)
  }

  ghost predicate Inv(c: Cluster) {
    && (c.store.lock.Some? ==> c.store.lock.value in c.acquired)
    && (forall i :: i in c.members ==> OwnsToken(c, i))
    && (forall i :: i in c.members && i in c.phase ==> PhaseRight(c, i))
    && (forall p :: p in c.posts ==> Honest(c, p))
    && (forall s :: s in c.services ==> HonestService(c, s))
    && (forall token :: token in c.store.states ==> WasPosted(c, token, c.store.states[token]))
    && (forall i :: i in c.members ==> Served(c, c.members[i].remote))
  }

  // ---------------------------------------------------------------- one step of a heartbeat

  ghost predicate NextLegal(c: Cluster, i: Id, o: Outcome) {
    match o.next
    case None => true
    case Some(Seen(_)) => false
    case Some(Following(_)) => true
    case Some(Releasing) => true
    case Some(Posting(token)) => o.inst.redlock == Some(token)
    case Some(Naming(token)) => o.inst.redlock == Some(token) && o.posted == Some(token)
    case Some(Serving(token)) => o.inst.redlock == Some(token) && i in c.phase && c.phase[i] == Naming(token)
  }

  /** What a step of a heartbeat may do, as seen by the cluster. */
  ghost predicate Legal(c: Cluster, i: Id, o: Outcome)
    requires i in c.members
  {
    && NextLegal(c, i, o)
    && o.inst.local == c.members[i].local
    && (o.acquired.Some? ==> c.store.lock.None? && o.acquired.value !in c.acquired && o.store.lock == o.acquired)
    && (o.acquired.None? ==> || o.store.lock == c.store.lock
                             || (o.store.lock.None? && Holds(c.store, c.members[i].redlock)))
    && (o.inst.redlock == c.members[i].redlock || (o.acquired.Some? && o.inst.redlock == o.acquired))
    && (o.posted.Some? ==> o.store.states == c.store.states[o.posted.value := c.members[i].local]
                           && o.acquired.None? && c.members[i].redlock == o.posted)
    && (o.posted.None? ==> o.store.states == c.store.states)
    && (i in c.phase && c.phase[i].Serving? ==> o.inst.remote == c.members[i].local)
    && (|| o.inst.remote == c.members[i].remote
        || (i in c.phase && c.phase[i].Serving?)
        || (exists token :: token in c.store.states && o.inst.remote == c.store.states[token]))
  }

  predicate OfHeartbeat(e: Event) {
    e.React? || e.Continue? || e.ReadError?
  }

  /** The outcome of the step of a heartbeat that an event stands for. */
  function HeartbeatStep(c: Cluster, e: Event): Outcome
    requires Admissible(c, e) && OfHeartbeat(e)
  {
    match e
    case React(i, f, token) => Reacted(c.members[i], c.store, c.phase[i].lock, f, token)
    case Continue(i, call) => Continued(c.members[i], c.store, c.phase[i], call)
    case ReadError(i) => Unread(c.members[i], c.store)
  }

  lemma ReactLegal(c: Cluster, i: Id, f: Faults, token: Token)
    requires Inv(c) && i in c.members && i in c.phase && c.phase[i].Seen? && token !in c.acquired
    ensures Legal(c, i, Reacted(c.members[i], c.store, c.phase[i].lock, f, token))
  {
    assert PhaseRight(c, i);
  }

  lemma ContinueLegal(c: Cluster, i: Id, call: Call)
    requires Inv(c) && i in c.members && i in c.phase && !c.phase[i].Seen?
    ensures Legal(c, i, Continued(c.members[i], c.store, c.phase[i], call))
  {
    assert PhaseRight(c, i);
  }

  /** Whatever its calls to the store come to, and whatever changed since it read the lock, a step of a
      heartbeat takes only a free lock, posts only its own state under its own token, and serves only
      what it served, read, or holds after posting. */
  lemma StepLegal(c: Cluster, e: Event)
    requires Inv(c) && Admissible(c, e) && OfHeartbeat(e)
    ensures Legal(c, e.i, HeartbeatStep(c, e))
  {
    match e {
      case React(i, f, token) => ReactLegal(c, i, f, token);
      case Continue(i, call) => ContinueLegal(c, i, call);
      case ReadError(i) =>
    }
  }

  /** History only grows, so what was posted stays posted. */
  lemma HistoryGrows(c: Cluster, d: Cluster)
    requires c.posts <= d.posts && c.services <= d.services
    ensures forall token, t :: WasPosted(c, token, t) ==> WasPosted(d, token, t)
    ensures forall token, i :: PostedBy(c, token, i) ==> PostedBy(d, token, i)
    ensures forall t :: Served(c, t) ==> Served(d, t)
  {
    assert forall k :: 0 <= k < |c.posts| ==> d.posts[k] == c.posts[k];
    assert forall k :: 0 <= k < |c.services| ==> d.services[k] == c.services[k];
  }

  lemma LegalKeepsHistory(c: Cluster, i: Id, o: Outcome)
    requires Inv(c) && i in c.members && Legal(c, i, o)
    ensures var d := Recorded(c, i, o);
            && (forall p :: p in d.posts ==> Honest(d, p))
            && (forall s :: s in d.services ==> HonestService(d, s))
            && (forall token :: token in d.store.states ==> WasPosted(d, token, d.store.states[token]))
            && (o.posted.Some? ==> PostedBy(d, o.posted.value, i))
  {
    var d := Recorded(c, i, o);
    HistoryGrows(c, d);
    assert OwnsToken(c, i);
    if o.posted.Some? {
      var post := Post(o.posted.value, i, c.members[i].local, o.store.lock, c.members[i].local);
      assert d.posts == c.posts + [post] && d.posts[|c.posts|] == post;
      assert WasPosted(d, post.token, post.triple);
    }
    if i in c.phase && c.phase[i].Serving? {
      assert PhaseRight(c, i);
    }
  }

  lemma LegalKeepsServed(c: Cluster, i: Id, o: Outcome)
    requires Inv(c) && i in c.members && Legal(c, i, o)
    ensures Served(Recorded(c, i, o), o.inst.remote)
  {
    var d := Recorded(c, i, o);
    HistoryGrows(c, d);
    if i in c.phase && c.phase[i].Serving? {
      assert d.services[|c.services|].triple == o.inst.remote;
    } else if o.inst.remote != c.members[i].remote {
      var token :| token in c.store.states && o.inst.remote == c.store.states[token];
      assert WasPosted(c, token, o.inst.remote);
    }
  }

  lemma LegalKeepsInv(c: Cluster, i: Id, o: Outcome)
    requires Inv(c) && i in c.members && Legal(c, i, o)
    ensures Inv(Recorded(c, i, o))
  {
    var d := Recorded(c, i, o);
    HistoryGrows(c, d);
    LegalKeepsHistory(c, i, o);
    assert OwnsToken(c, i) && (i in c.phase ==> PhaseRight(c, i));
    LegalKeepsServed(c, i, o);
  }

  lemma OtherStepKeepsInv(c: Cluster, e: Event)
    requires Inv(c) && Admissible(c, e) && !OfHeartbeat(e)
    ensures Inv(Step(c, e))
  {
    var d := Step(c, e);
    HistoryGrows(c, d);
    assert forall i :: i in c.members ==> OwnsToken(c, i) && Served(c, c.members[i].remote);
    forall i | i in d.members && i in d.phase ensures PhaseRight(d, i) {
      assert i in c.phase ==> PhaseRight(c, i);
    }
    assert forall p :: p in d.posts ==> Honest(c, p);
    assert forall s :: s in d.services ==> HonestService(c, s);
  }

  lemma StepKeepsInv(c: Cluster, e: Event)
    requires Inv(c) && Admissible(c, e)
    ensures Inv(Step(c, e))
  {
    if OfHeartbeat(e) {
      StepLegal(c, e);
      LegalKeepsInv(c, e.i, HeartbeatStep(c, e));
    } else {
      OtherStepKeepsInv(c, e);
    }
  }

  lemma {:induction false} RunKeepsInv(c: Cluster, events: seq<Event>, d: Cluster)
    requires Inv(c) && Reaches(c, events, d)
    ensures Inv(d)
    decreases events
  {
    if events != [] {
      StepKeepsInv(c, events[0]);
      RunKeepsInv(Step(c, events[0]), events[1..], d);
    }
  }

  /** Exclusion and provenance, in every state that any interleaving of single store calls, group updates,
      expiries and store faults can reach: at most one instance owns the token in the lock; every post was
      made by the acquirer of its token, of its local state at that moment; every record in the store comes
      from such a post; and every served triple is the initial one, comes from such a post, or is what the
      acquirer of a token held locally when, having posted under it, it moved on to serve its own state. */
  lemma EveryRun(names: map<Id, string>, events: seq<Event>, d: Cluster)
    requires Reaches(Start(names), events, d)
    ensures forall i, j ::
              (i in d.members && j in d.members
               && Holds(d.store, d.members[i].redlock) && Holds(d.store, d.members[j].redlock)) ==> i == j
    ensures forall p :: p in d.posts ==> Honest(d, p)
    ensures forall s :: s in d.services ==> HonestService(d, s)
    ensures forall token :: token in d.store.states ==> WasPosted(d, token, d.store.states[token])
    ensures forall i :: i in d.members ==> Served(d, d.members[i].remote)
  {
    RunKeepsInv(Start(names), events, d);
    forall i, j | i in d.members && j in d.members
                  && Holds(d.store, d.members[i].redlock) && Holds(d.store, d.members[j].redlock)
      ensures i == j
    {
      assert OwnsToken(d, i) && OwnsToken(d, j);
    }
  }

  // ---------------------------------------------------------------- posts and the lock

  /** The event is not a step of a heartbeat of this instance. */
  predicate NotOf(e: Event, i: Id) {
    (e.ReadLock? || OfHeartbeat(e)) ==> e.i != i
  }

  lemma LegalKeepsLock(c: Cluster, i: Id, token: Token, j: Id, o: Outcome)
    requires i in c.members && j in c.members && i != j && Legal(c, j, o) && OwnsToken(c, i) && OwnsToken(c, j)
    requires c.members[i].redlock == Some(token) && i in c.phase
    ensures o.store.lock == Some(token) <==> c.store.lock == Some(token)
    ensures i in Recorded(c, j, o).phase && Recorded(c, j, o).phase[i] == c.phase[i]
  {
  }

  lemma KeepsAnothersLock(c: Cluster, i: Id, token: Token, e: Event)
    requires Inv(c) && Admissible(c, e) && NotOf(e, i)
    requires i in c.members && i in c.phase && c.phase[i] == Posting(token)
    ensures var d := Step(c, e);
            && i in d.members && i in d.phase && d.phase[i] == Posting(token)
            && (d.store.lock == Some(token) <==> c.store.lock == Some(token) && e != ExpireLock)
  {
    assert PhaseRight(c, i) && OwnsToken(c, i);
    if OfHeartbeat(e) {
      StepLegal(c, e);
      assert OwnsToken(c, e.i);
      LegalKeepsLock(c, i, token, e.i, HeartbeatStep(c, e));
    }
  }

  /** A post lands under the lock, exactly: between the confirmation of the lock and the write, nobody
      but the clock can take the lock away, and once it is gone it does not come back. */
  lemma {:induction false} HeldUntilExpiry(c: Cluster, i: Id, token: Token, events: seq<Event>, d: Cluster)
    requires Inv(c) && Reaches(c, events, d) && forall e :: e in events ==> NotOf(e, i)
    requires i in c.members && i in c.phase && c.phase[i] == Posting(token)
    ensures i in d.members && i in d.phase && d.phase[i] == Posting(token)
    ensures d.store.lock == Some(token) <==> c.store.lock == Some(token) && ExpireLock !in events
    decreases events
  {
    if events != [] {
      var e, rest := events[0], events[1..];
      assert e in events && forall x :: x in rest ==> x in events;
      assert forall x :: x in events ==> x == e || x in rest;
      KeepsAnothersLock(c, i, token, e);
      StepKeepsInv(c, e);
      HeldUntilExpiry(Step(c, e), i, token, rest, d);
    }
  }

  /** A heartbeat goes on to post only when the lock holds its own token: it was just acquired or extended. */
  lemma PostingIsConfirmed(c: Cluster, i: Id, f: Faults, token: Token)
    requires Inv(c) && Admissible(c, React(i, f, token))
    ensures var d := Step(c, React(i, f, token));
            i in d.phase && d.phase[i].Posting? ==>
              d.store.lock == d.members[i].redlock == Some(d.phase[i].token)
  {
    assert PhaseRight(c, i);
  }

  /** Posts belong to the owner of the live token, exactly: a post whose write takes effect, after any
      steps of the others, is made under the lock if and only if the lock has not expired since the reaction
      that confirmed it. */
  lemma PostedUnderLockIff(c: Cluster, i: Id, f: Faults, token: Token, events: seq<Event>, m: Cluster, call: Call)
    requires Inv(c) && Admissible(c, React(i, f, token))
    requires var start := Step(c, React(i, f, token));
             i in start.phase && start.phase[i].Posting? && Reaches(start, events, m)
    requires (forall e :: e in events ==> NotOf(e, i)) && !call.Lost?
    ensures Admissible(m, Continue(i, call))
    ensures var d := Step(m, Continue(i, call));
            && |d.posts| == |m.posts| + 1
            && var post := d.posts[|m.posts|];
               post.poster == i && Honest(d, post) && (post.lockThen == Some(post.token) <==> ExpireLock !in events)
  {
    var start := Step(c, React(i, f, token));
    StepKeepsInv(c, React(i, f, token));
    PostingIsConfirmed(c, i, f, token);
    HeldUntilExpiry(start, i, start.phase[i].token, events, m);
    RunKeepsInv(start, events, m);
    assert PhaseRight(m, i) && OwnsToken(m, i);
  }

  // ---------------------------------------------------------------- runs in which posts are not disturbed

  predicate Between(phase: Phase) {
    phase.Naming? || phase.Serving?
  }

  /** No instance's local state is updated between its two readings in one post. */
  ghost predicate Undisturbed(c: Cluster, events: seq<Event>)
    decreases events
  {
    events != [] ==>
      && Admissible(c, events[0])
      && (events[0].SetLocal? && events[0].i in c.phase ==> !Between(c.phase[events[0].i]))
      && Undisturbed(Step(c, events[0]), events[1..])
  }

  ghost predicate PostedTriple(c: Cluster, t: Triple) {
    exists p :: p in c.posts && p.triple == t
  }

  ghost predicate ServesPosted(c: Cluster) {
    && (forall i :: i in c.members && i in c.phase && Between(c.phase[i]) ==> PostedTriple(c, c.members[i].local))
    && (forall i :: i in c.members ==> c.members[i].remote == ZERO_TRIPLE || PostedTriple(c, c.members[i].remote))
  }

  lemma LegalPosts(c: Cluster, i: Id, o: Outcome)
    requires i in c.members && Legal(c, i, o)
    ensures forall t :: PostedTriple(c, t) ==> PostedTriple(Recorded(c, i, o), t)
    ensures o.posted.Some? ==> PostedTriple(Recorded(c, i, o), c.members[i].local)
  {
    var d := Recorded(c, i, o);
    if o.posted.Some? {
      assert d.posts[|c.posts|].triple == c.members[i].local;
      assert d.posts[|c.posts|] in d.posts;
    }
  }

  /** What the instance serves after the step, and holds while it posts, was posted. */
  lemma LegalOwnPosted(c: Cluster, i: Id, o: Outcome)
    requires Inv(c) && ServesPosted(c) && i in c.members && Legal(c, i, o)
    ensures var d := Recorded(c, i, o);
            && (o.inst.remote == ZERO_TRIPLE || PostedTriple(d, o.inst.remote))
            && (o.next.Some? && Between(o.next.value) ==> PostedTriple(d, o.inst.local))
  {
    LegalPosts(c, i, o);
    if token :| token in c.store.states && o.inst.remote == c.store.states[token] {
      assert WasPosted(c, token, o.inst.remote);
      assert PostedTriple(c, o.inst.remote);
    }
  }

  lemma LegalServesPosted(c: Cluster, i: Id, o: Outcome)
    requires Inv(c) && ServesPosted(c) && i in c.members && Legal(c, i, o)
    ensures ServesPosted(Recorded(c, i, o))
  {
    LegalPosts(c, i, o);
    LegalOwnPosted(c, i, o);
  }

  lemma StepServesPosted(c: Cluster, e: Event)
    requires Inv(c) && ServesPosted(c) && Admissible(c, e)
    requires e.SetLocal? && e.i in c.phase ==> !Between(c.phase[e.i])
    ensures ServesPosted(Step(c, e))
  {
    if OfHeartbeat(e) {
      StepLegal(c, e);
      LegalServesPosted(c, e.i, HeartbeatStep(c, e));
    } else {
      assert Step(c, e).posts == c.posts;
      assert forall t :: PostedTriple(c, t) ==> PostedTriple(Step(c, e), t);
    }
  }

  /** Every served triple was posted by a lock owner, exactly as it is served, in every run in which no
      group update falls between the two readings of a post. */
  lemma {:induction false} EveryUndisturbedRun(c: Cluster, events: seq<Event>, d: Cluster)
    requires Inv(c) && ServesPosted(c) && Reaches(c, events, d) && Undisturbed(c, events)
    ensures Inv(d)
    ensures forall i :: i in d.members && d.members[i].remote != ZERO_TRIPLE ==>
              exists p :: p in d.posts && Honest(d, p) && p.triple == d.members[i].remote
    decreases events
  {
    if events == [] {
      assert forall i :: i in d.members && d.members[i].remote != ZERO_TRIPLE ==> PostedTriple(d, d.members[i].remote);
    } else {
      StepKeepsInv(c, events[0]);
      StepServesPosted(c, events[0]);
      EveryUndisturbedRun(Step(c, events[0]), events[1..], d);
    }
  }

  /** And the condition is exact for one post: what is served is what was posted if and only if the local
      state is the same at both readings. */
  lemma ServesWhatItPosted(inst: Instance, store: Store, token: Token, f: Faults, later: Triple)
    requires f.putState.Fine? && f.putLeader.Fine?
    ensures var o := Posted(inst, store, token, f, later);
            token in o.store.states && (o.inst.remote == o.store.states[token] <==> later == inst.local)
  {
  }

  // ---------------------------------------------------------------- a heartbeat as a run

  lemma {:induction false} OneMore(c: Cluster, events: seq<Event>, d: Cluster, e: Event)
    requires Reaches(c, events, d) && Admissible(d, e)
    ensures Reaches(c, events + [e], Step(d, e))
    decreases events
  {
    if events == [] {
      assert ([e])[1..] == [] && events + [e] == [e];
    } else {
      assert (events + [e])[1..] == events[1..] + [e];
      OneMore(Step(c, events[0]), events[1..], d, e);
    }
  }

  lemma Extend(c: Cluster, events: seq<Event>, d: Cluster, e: Event) returns (events': seq<Event>, d': Cluster)
    requires Reaches(c, events, d) && Admissible(d, e)
    ensures Reaches(c, events', d') && d' == Step(d, e)
  {
    OneMore(c, events, d, e);
    events', d' := events + [e], Step(d, e);
  }

  /** The run from c to d has this effect of instance i's, and leaves the heartbeats in progress alone. */
  ghost predicate Effect(c: Cluster, i: Id, d: Cluster, o: Outcome) {
    d.members == c.members[i := o.inst] && d.store == o.store && d.phase == c.phase - {i}
  }

  lemma PostIsARun(c0: Cluster, before: seq<Event>, c: Cluster, i: Id, token: Token, f: Faults, later: Triple)
    returns (events: seq<Event>, d: Cluster)
    requires Reaches(c0, before, c) && i in c.members && i in c.phase && c.phase[i] == Posting(token)
    ensures Reaches(c0, events, d) && Effect(c, i, d, Posted(c.members[i], c.store, token, f, later))
  {
    events, d := Extend(c0, before, c, Continue(i, f.putState));
    assert d.phase - {i} == c.phase - {i};
    if i in d.phase {
      events, d := Extend(c0, events, d, Continue(i, f.putLeader));
      assert d.phase - {i} == c.phase - {i};
      if i in d.phase {
        events, d := Extend(c0, events, d, SetLocal(i, later));
        events, d := Extend(c0, events, d, Continue(i, Fine));
      }
    }
  }

  lemma ReactIsARun(c: Cluster, i: Id, f: Faults, token: Token) returns (events: seq<Event>, d: Cluster)
    requires i in c.members && i !in c.phase && token !in c.acquired
    ensures Reaches(c, events, d)
    ensures var o := Reacted(c.members[i], c.store, c.store.lock, f, token);
            && d.members == c.members[i := o.inst] && d.store == o.store && d.phase - {i} == c.phase - {i}
            && if o.next.Some? then i in d.phase && d.phase[i] == o.next.value else i !in d.phase
  {
    events, d := Extend(c, [], c, ReadLock(i));
    events, d := Extend(c, events, d, React(i, f, token));
  }

  /** An uninterrupted heartbeat is one run of the cluster's steps. */
  lemma BeatIsARun(c: Cluster, i: Id, f: Faults, token: Token, later: Triple)
    returns (events: seq<Event>, d: Cluster)
    requires i in c.members && i !in c.phase && token !in c.acquired
    ensures Reaches(c, events, d)
    ensures Effect(c, i, d, Beat(c.members[i], c.store, c.store.lock, f, token, later))
  {
    events, d := ReactIsARun(c, i, f, token);
    if i in d.phase {
      if d.phase[i].Following? {
        events, d := Extend(c, events, d, Continue(i, f.readState));
      } else if d.phase[i].Releasing? {
        events, d := Extend(c, events, d, Continue(i, f.unlock));
      } else {
        events, d := PostIsARun(c, events, d, i, d.phase[i].token, f, later);
      }
    } else {
      assert d.phase == d.phase - {i};
    }
  }

  /** So is one that could not read the lock. */
  lemma BlindBeatIsARun(c: Cluster, i: Id, f: Faults) returns (events: seq<Event>, d: Cluster)
    requires i in c.members && i !in c.phase
    ensures Reaches(c, events, d) && Effect(c, i, d, BlindBeat(c.members[i], c.store, f))
  {
    events, d := Extend(c, [], c, ReadError(i));
    if i in d.phase {
      events, d := Extend(c, events, d, Continue(i, f.unlock));
    }
  }

  // ---------------------------------------------------------------- takeover

  ghost predicate Complete(t: Triple) {
    t.latest > 0 && t.safe > 0 && t.finalized > 0
  }

  /** A heartbeat that acquires the lock lowers a complete served state if and only if both its writes are
      acknowledged and a group update in between has lowered the local state below what was served. */
  lemma TakeoverNeverBackwards(inst: Instance, store: Store, val: Option<Token>, f: Faults, token: Token, later: Triple)
    requires Beat(inst, store, val, f, token, later).acquired.Some? && Complete(inst.remote)
    ensures AtLeast(Beat(inst, store, val, f, token, later).inst.remote, inst.remote)
       <==> !(f.acquire.Fine? && f.putState.Fine? && f.putLeader.Fine?) || AtLeast(later, inst.remote)
    ensures AtLeast(inst.local, inst.remote)
  {
  }

  /** Instance i has moved on to serve its own state since the history had n services. */
  ghost predicate ServedSince(c: Cluster, i: Id, n: nat) {
    exists k :: n <= k < |c.services| && c.services[k].server == i
  }

  /** In the rest of a heartbeat that posts: until it serves, the instance serves what it did. */
  ghost predicate WithinPost(c: Cluster, i: Id, n: nat, served: Triple) {
    && i in c.members && n <= |c.services|
    && (i in c.phase ==> (c.phase[i].Posting? || Between(c.phase[i])) && !ServedSince(c, i, n))
    && (forall k :: n <= k < |c.services| && c.services[k].server == i ==> c.services[k].triple == c.members[i].remote)
    && (!ServedSince(c, i, n) ==> c.members[i].remote == served)
  }

  predicate StartsBeat(e: Event, i: Id) {
    e == ReadLock(i) || e == ReadError(i)
  }

  lemma StepWithinPost(c: Cluster, i: Id, n: nat, served: Triple, e: Event)
    requires WithinPost(c, i, n, served) && Admissible(c, e) && !StartsBeat(e, i)
    ensures WithinPost(Step(c, e), i, n, served)
  {
    var d := Step(c, e);
    assert c.services <= d.services;
    assert forall k :: 0 <= k < |c.services| ==> d.services[k] == c.services[k];
    if d.services != c.services {
      assert d.services == c.services + [d.services[|c.services|]];
    }
  }

  lemma {:induction false} RunWithinPost(c: Cluster, i: Id, n: nat, served: Triple, events: seq<Event>, d: Cluster)
    requires WithinPost(c, i, n, served) && Reaches(c, events, d)
    requires forall e :: e in events ==> !StartsBeat(e, i)
    ensures WithinPost(d, i, n, served)
    decreases events
  {
    if events != [] {
      assert events[0] in events && forall e :: e in events[1..] ==> e in events;
      StepWithinPost(c, i, n, served, events[0]);
      RunWithinPost(Step(c, events[0]), i, n, served, events[1..], d);
    }
  }

  /** Without a group update of this instance, its local state stays and is what it goes on to serve. */
  lemma {:induction false} UndisturbedServes(c: Cluster, i: Id, n: nat, local: Triple, events: seq<Event>, d: Cluster)
    requires i in c.members && c.members[i].local == local && n <= |c.services| && Reaches(c, events, d)
    requires forall e :: e in events ==> !(e.SetLocal? && e.i == i)
    requires forall k :: n <= k < |c.services| && c.services[k].server == i ==> c.services[k].localThen == local
    ensures forall k :: n <= k < |d.services| && d.services[k].server == i ==> d.services[k].localThen == local
    decreases events
  {
    if events != [] {
      var e := events[0];
      assert e in events && forall x :: x in events[1..] ==> x in events;
      UndisturbedServes(Step(c, e), i, n, local, events[1..], d);
    }
  }

  /** Since then the instance serves what it did, or what it held locally when it moved on. */
  lemma ServicesFromPost(c: Cluster, i: Id, n: nat, served: Triple, events: seq<Event>, d: Cluster)
    requires Inv(c) && WithinPost(c, i, n, served) && Reaches(c, events, d)
    requires forall e :: e in events ==> !StartsBeat(e, i)
    ensures i in d.members && (!ServedSince(d, i, n) ==> d.members[i].remote == served)
    ensures forall k :: n <= k < |d.services| && d.services[k].server == i ==>
              d.services[k].localThen == d.members[i].remote
  {
    RunWithinPost(c, i, n, served, events, d);
    RunKeepsInv(c, events, d);
    assert forall k :: n <= k < |d.services| ==> d.services[k] in d.services;
  }

  lemma TakeoverStarts(c: Cluster, i: Id, f: Faults, token: Token)
    requires Admissible(c, React(i, f, token)) && Complete(c.members[i].remote)
    requires var start := Step(c, React(i, f, token));
             i in start.phase && c.phase[i].lock.None?
    ensures var start := Step(c, React(i, f, token));
            && WithinPost(start, i, |c.services|, c.members[i].remote) && start.services == c.services
            && start.members[i].local == c.members[i].local && AtLeast(c.members[i].local, c.members[i].remote)
  {
  }

  /** Takeover under any interleaving: from the reaction that acquires the lock to any point of the same
      heartbeat, a complete served state falls if and only if the instance has gone on to serve a local
      state that falls short of it, and it never falls without a group update of the instance in between. */
  lemma TakeoverRun(c: Cluster, i: Id, f: Faults, token: Token, events: seq<Event>, d: Cluster)
    requires Inv(c) && Admissible(c, React(i, f, token)) && Complete(c.members[i].remote)
    requires var start := Step(c, React(i, f, token));
             c.phase[i].lock.None? && i in start.phase && Reaches(start, events, d)
    requires forall e :: e in events ==> !StartsBeat(e, i)
    ensures i in d.members
    ensures AtLeast(d.members[i].remote, c.members[i].remote) <==>
              forall k :: |c.services| <= k < |d.services| && d.services[k].server == i ==>
                AtLeast(d.services[k].localThen, c.members[i].remote)
    ensures (forall e :: e in events ==> !(e.SetLocal? && e.i == i)) ==>
              AtLeast(d.members[i].remote, c.members[i].remote)
  {
    var start := Step(c, React(i, f, token));
    var n, local := |c.services|, c.members[i].local;
    TakeoverStarts(c, i, f, token);
    StepKeepsInv(c, React(i, f, token));
    ServicesFromPost(start, i, n, c.members[i].remote, events, d);
    if forall e :: e in events ==> !(e.SetLocal? && e.i == i) {
      UndisturbedServes(start, i, n, local, events, d);
    }
  }

  /** Undisturbed, the condition on the served state is exact: a takeover can move it backwards if and
      only if that state is not valid and some component of it exceeds 1. */
  lemma BackwardsIff(served: Triple)
    ensures (exists inst: Instance, store: Store, f: Faults, token: Token ::
               && inst.remote == served
               && Beat(inst, store, None, f, token, inst.local).acquired.Some?
               && !AtLeast(Beat(inst, store, None, f, token, inst.local).inst.remote, served))
       <==> !Complete(served) && !AtLeast(Triple(1, 1, 1), served)
  {
    if !Complete(served) && !AtLeast(Triple(1, 1, 1), served) {
      var inst := Fresh("").(local := Triple(1, 1, 1), remote := served);
      var store := Store(None, map[], map[]);
      assert Beat(inst, store, None, NO_FAULTS, 0, inst.local).inst.remote == Triple(1, 1, 1);
      assert Beat(inst, store, None, NO_FAULTS, 0, inst.local).acquired == Some(0);
    }
  }

  /** A post, exactly: what reaches the store, and what the instance makes of it. Unless both writes are
      acknowledged the leadership ends and the served state stays. */
  lemma PostExact(inst: Instance, store: Store, token: Token, f: Faults, later: Triple)
    ensures var o := Posted(inst, store, token, f, later);
            && o.store.lock == store.lock
            && o.store.states == (if f.putState.Lost? then store.states else store.states[token := inst.local])
            && o.store.leaders == (if f.putState.Fine? && !f.putLeader.Lost? then store.leaders[token := inst.name]
                                   else store.leaders)
            && o.inst == (if f.putState.Fine? && f.putLeader.Fine?
                          then inst.(leaderName := inst.name, local := later, remote := later)
                          else inst.(leader := false))
  {
  }

  /** Election, exactly, for an instance that finds the lock free. Without a complete state, or behind a
      complete one it serves, it does nothing. Otherwise it ends its heartbeat as the leader if and only if
      the lock is still free and the store acknowledges all three writes, even if it led before; the lock,
      the record and the name are then its own and it serves its local state. */
  lemma ElectionExact(inst: Instance, store: Store, f: Faults, token: Token, later: Triple)
    ensures var o := Beat(inst, store, None, f, token, later);
            var may := Complete(inst.local) && (Complete(inst.remote) ==> AtLeast(inst.local, inst.remote));
            var taken := store.lock.None? && !f.acquire.Lost?;
            && (!may ==> o.inst == inst && o.store == store)
            && (may ==> o.store.lock == if taken then Some(token) else store.lock)
            && (may && !(taken && f.acquire.Fine?) ==>
                  o.inst == inst.(leader := false) && o.store == store.(lock := o.store.lock))
            && (may ==> (o.inst.leader <==> taken && f.acquire.Fine? && f.putState.Fine? && f.putLeader.Fine?))
            && (may && o.inst.leader ==>
                  && o.inst.redlock == Some(token) && o.inst.remote == later && o.inst.leaderName == inst.name
                  && o.store.states == store.states[token := inst.local]
                  && o.store.leaders == store.leaders[token := inst.name])
  {
    var o := Beat(inst, store, None, f, token, later);
    if MayTakeOver(inst) && store.lock.None? && f.acquire.Fine? {
      PostExact(inst.(redlock := Some(token), leader := true), store.(lock := Some(token)), token, f, later);
    }
  }

  /** A leader that finds somebody's token in the lock, exactly: if its lock can be extended it posts under
      that token. Otherwise it posts nothing and gives its lock up, and its leadership ends if and only if
      the lock was still its own and the release is confirmed. */
  lemma LeaderBeatExact(inst: Instance, store: Store, val: Token, f: Faults, token: Token, later: Triple)
    requires inst.leader
    ensures var o := Beat(inst, store, Some(val), f, token, later);
            var own := inst.redlock.Some? && store.lock == inst.redlock;
            if own && f.extend.Fine? then
              var p := Posted(inst, store, val, f, later);
              o.inst == p.inst && o.store == p.store
            else
              && o.inst == inst.(leader := !(own && f.unlock.Fine?))
              && o.store == store.(lock := if own && !f.unlock.Lost? then None else store.lock)
  {
  }

  /** A follower, exactly: it learns the leader's name and then the state posted under the token it read,
      and writes nothing. */
  lemma FollowerBeatExact(inst: Instance, store: Store, val: Token, f: Faults, token: Token, later: Triple)
    requires !inst.leader
    ensures var o := Beat(inst, store, Some(val), f, token, later);
            && o.store == store
            && o.inst == if !f.readLeader.Fine? then inst
                         else inst.(leaderName := if val in store.leaders then store.leaders[val] else "",
                                    remote := if f.readState.Fine? && val in store.states then store.states[val]
                                              else inst.remote)
  {
  }

  /** A heartbeat that cannot read the lock, exactly: a leader gives its lock up, a follower does nothing. */
  lemma BlindBeatExact(inst: Instance, store: Store, f: Faults)
    ensures var o := BlindBeat(inst, store, f);
            var own := inst.leader && inst.redlock.Some? && store.lock == inst.redlock;
            && o.inst == inst.(leader := inst.leader && !(own && f.unlock.Fine?))
            && o.store == store.(lock := if own && !f.unlock.Lost? then None else store.lock)
  {
  }

  /** The leader's state reaches the others: after one heartbeat of the lock's owner and then one of a
      follower, with no faults, both serve what the owner held locally. */
  lemma StatePropagates(owner: Instance, follower: Instance, store: Store, t1: Token, t2: Token, later: Triple)
    requires owner.leader && Holds(store, owner.redlock) && !follower.leader
    ensures var o := Beat(owner, store, store.lock, NO_FAULTS, t1, owner.local);
            var p := Beat(follower, o.store, o.store.lock, NO_FAULTS, t2, later);
            && o.inst.remote == p.inst.remote == owner.local
            && o.inst.leaderName == p.inst.leaderName == owner.name
            && p.store.lock == store.lock
  {
    var o := Beat(owner, store, store.lock, NO_FAULTS, t1, owner.local);
    assert o == Posted(owner, store, store.lock.value, NO_FAULTS, owner.local).(acquired := None);
  }

  // ---------------------------------------------------------------- leader flags

  ghost predicate ExclusiveFlags(c: Cluster) {
    forall i, j :: i in c.members && j in c.members && c.members[i].leader && c.members[j].leader ==> i == j
  }

  /** Leader flags exclude each other until, and exactly when, an instance that read the lock as free may
      take over and does take a lock that is still free, while another one holds on to its flag. */
  lemma FlagsBreakExactly(c: Cluster, e: Event)
    requires ExclusiveFlags(c) && Admissible(c, e)
    ensures !ExclusiveFlags(Step(c, e)) <==>
              && e.React? && c.phase[e.i] == Seen(None)
              && MayTakeOver(c.members[e.i]) && c.store.lock.None? && e.f.acquire.Fine?
              && exists j :: j in c.members && j != e.i && c.members[j].leader
  {
    var d := Step(c, e);
    if OfHeartbeat(e) {
      assert forall j :: j in c.members && j != e.i ==> d.members[j] == c.members[j];
      if d.members[e.i].leader && !c.members[e.i].leader {
        assert e.React? && c.phase[e.i] == Seen(None);
      }
    }
  }

  /** Every heartbeat of instance i in this run finds somebody's token in the lock. */
  ghost predicate NeverSeesLockFree(c: Cluster, i: Id, events: seq<Event>)
    decreases events
  {
    events != [] ==>
      && Admissible(c, events[0])
      && (events[0] == ReadLock(i) ==> c.store.lock.Some?)
      && NeverSeesLockFree(Step(c, events[0]), i, events[1..])
  }

  /** An instance that believes it leads although its token has left the lock, and is not posting. */
  ghost predicate StaleLeader(c: Cluster, i: Id) {
    && i in c.members && c.members[i].leader
    && c.members[i].redlock.Some? && c.members[i].redlock.value in c.acquired
    && c.store.lock != c.members[i].redlock
    && (i in c.phase ==> c.phase[i].Releasing? || (c.phase[i].Seen? && c.phase[i].lock.Some?))
  }

  lemma StaleLeaderStays(c: Cluster, i: Id, e: Event)
    requires Inv(c) && StaleLeader(c, i) && Admissible(c, e) && (e == ReadLock(i) ==> c.store.lock.Some?)
    ensures StaleLeader(Step(c, e), i) && Step(c, e).members[i].remote == c.members[i].remote
  {
    if OfHeartbeat(e) && e.i != i {
      StepLegal(c, e);
    }
  }

  /** A stale leader stays one and goes on serving the same triple, through any run in which none of
      its heartbeats happens to find the lock free. */
  lemma {:induction false} StaleLeaderFrozen(c: Cluster, i: Id, events: seq<Event>, d: Cluster)
    requires Inv(c) && StaleLeader(c, i) && Reaches(c, events, d) && NeverSeesLockFree(c, i, events)
    ensures StaleLeader(d, i) && d.members[i].remote == c.members[i].remote
    decreases events
  {
    if events != [] {
      StepKeepsInv(c, events[0]);
      StaleLeaderStays(c, i, events[0]);
      StaleLeaderFrozen(Step(c, events[0]), i, events[1..], d);
    }
  }
}
