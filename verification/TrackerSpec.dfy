/** The highly available tracker (consensus_tracker.go): instances that elect a leader through a lock
    that may expire, and share the leader's consensus state through one store. */
module TrackerSpec {
  import opened Common

  type Token = nat
  type Id = nat

  /** The shared store: the lock, and the records that each token's owner posts. */
  datatype Store = Store(lock: Option<Token>, states: map<Token, Triple>, leaders: map<Token, string>)

  datatype Instance = Instance(
    name: string,
    leader: bool,
    redlock: Option<Token>,
    leaderName: string,
    local: Triple,
    remote: Triple)

  function Fresh(name: string): Instance {
    Instance(name, false, None, "", ZERO_TRIPLE, ZERO_TRIPLE)
  }

  /** A call to the store succeeds, fails without effect, or takes effect although it reports an error. */
  datatype Call = Fine | Lost | Unacknowledged

  datatype Faults = Faults(
    unlock: Call,
    extend: Call,
    acquire: Call,
    readLeader: Call,
    readState: Call,
    putState: Call,
    putLeader: Call)

  predicate ValidState(t: Triple) {
    t.latest > 0 && t.safe > 0 && t.finalized > 0
  }

  predicate Behind(a: Triple, b: Triple) {
    a.latest < b.latest || a.safe < b.safe || a.finalized < b.finalized
  }

  predicate AtLeast(a: Triple, b: Triple) {
    a.latest >= b.latest && a.safe >= b.safe && a.finalized >= b.finalized
  }

  /** A heartbeat in progress: it has read the lock, or the leader's name, or is about to release the lock,
      or is posting under a token. */
  datatype Phase =
    | Seen(lock: Option<Token>)
    | Following(val: Token)
    | Releasing
    | Posting(token: Token)
    | Naming(token: Token)
    | Serving(token: Token)

  /** The effect of one step of a heartbeat: the instance, the store, what comes next, the token it
      acquired and the token under which its state reached the store. */
  datatype Outcome = Outcome(
    inst: Instance,
    store: Store,
    next: Option<Phase>,
    acquired: Option<Token>,
    posted: Option<Token>)

  // ---------------------------------------------------------------- the lock library

  predicate Holds(store: Store, token: Option<Token>) {
    token.Some? && store.lock == token
  }

  function Unlocked(store: Store, token: Option<Token>, c: Call): Store {
    if Holds(store, token) && !c.Lost? then store.(lock := None) else store
  }

  /** Giving the lock up: the leader flag falls only if the release is confirmed. */
  function Released(inst: Instance, store: Store, c: Call): Outcome {
    var confirmed := Holds(store, inst.redlock) && c.Fine?;
    Outcome(inst.(leader := inst.leader && !confirmed), Unlocked(store, inst.redlock, c), None, None, None)
  }

  // ---------------------------------------------------------------- the steps of a heartbeat

  predicate MayTakeOver(inst: Instance) {
    ValidState(inst.local) && !(ValidState(inst.remote) && Behind(inst.local, inst.remote))
  }

  function TakenOver(inst: Instance, store: Store, f: Faults, token: Token): Outcome {
    if !MayTakeOver(inst) then Outcome(inst, store, None, None, None)
    else
      var applied := store.lock.None? && !f.acquire.Lost?;
      var locked := if applied then store.(lock := Some(token)) else store;
      var acquired := if applied then Some(token) else None;
      if !applied || !f.acquire.Fine? then Outcome(inst.(leader := false), locked, None, acquired, None)
      else Outcome(inst.(redlock := Some(token), leader := true), locked, Some(Posting(token)), acquired, None)
  }

  function NameRead(inst: Instance, store: Store, val: Token, c: Call): Outcome {
    if !c.Fine? then Outcome(inst, store, None, None, None)
    else
      var name := if val in store.leaders then store.leaders[val] else "";
      Outcome(inst.(leaderName := name), store, Some(Following(val)), None, None)
  }

  /** The reaction to the lock's value `val`; `token` is what a new lock would be given. The store may
      have changed since the lock was read. */
  function Reacted(inst: Instance, store: Store, val: Option<Token>, f: Faults, token: Token): Outcome {
    match val
    case None => TakenOver(inst, store, f, token)
    case Some(v) =>
      if !inst.leader then NameRead(inst, store, v, f.readLeader)
      else if Holds(store, inst.redlock) && f.extend.Fine? then Outcome(inst, store, Some(Posting(v)), None, None)
      else Outcome(inst, store, Some(Releasing), None, None)
  }

  function StateRead(inst: Instance, store: Store, val: Token, c: Call): Outcome {
    var read := c.Fine? && val in store.states;
    Outcome(if read then inst.(remote := store.states[val]) else inst, store, None, None, None)
  }

  /** postPayload writes the local state, then the leader's name, then serves the local state: it reads
      the local state twice. A write that is not acknowledged ends the leadership. */
  function StatePut(inst: Instance, store: Store, token: Token, c: Call): Outcome {
    if c.Lost? then Outcome(inst.(leader := false), store, None, None, None)
    else
      var stated := store.(states := store.states[token := inst.local]);
      if c.Fine? then Outcome(inst, stated, Some(Naming(token)), None, Some(token))
      else Outcome(inst.(leader := false), stated, None, None, Some(token))
  }

  function NamePut(inst: Instance, store: Store, token: Token, c: Call): Outcome {
    var named := if c.Lost? then store else store.(leaders := store.leaders[token := inst.name]);
    if c.Fine? then Outcome(inst.(leaderName := inst.name), named, Some(Serving(token)), None, None)
    else Outcome(inst.(leader := false), named, None, None, None)
  }

  function ServedLocally(inst: Instance, store: Store): Outcome {
    Outcome(inst.(remote := inst.local), store, None, None, None)
  }

  /** The step after the reaction; `c` is the fate of its one call to the store. */
  function Continued(inst: Instance, store: Store, phase: Phase, c: Call): Outcome
    requires !phase.Seen?
  {
    match phase
    case Following(val) => StateRead(inst, store, val, c)
    case Releasing => Released(inst, store, c)
    case Posting(token) => StatePut(inst, store, token, c)
    case Naming(token) => NamePut(inst, store, token, c)
    case Serving(_) => ServedLocally(inst, store)
  }

  /** A leader that could not read the lock gives it up. */
  function Unread(inst: Instance, store: Store): Outcome {
    Outcome(inst, store, if inst.leader then Some(Releasing) else None, None, None)
  }

  // ---------------------------------------------------------------- a heartbeat as a whole

  /** postPayload; `later` is the local state when it is read again. */
  function Posted(inst: Instance, store: Store, token: Token, f: Faults, later: Triple): Outcome {
    var stated := StatePut(inst, store, token, f.putState);
    if stated.next.None? then stated
    else
      var named := NamePut(stated.inst, stated.store, token, f.putLeader);
      if named.next.None? then named.(posted := stated.posted)
      else ServedLocally(named.inst.(local := later), named.store).(posted := stated.posted)
  }

  /** A heartbeat that has read `val`, with nothing in between but a group update while posting. */
  function Beat(inst: Instance, store: Store, val: Option<Token>, f: Faults, token: Token, later: Triple): Outcome {
    var r := Reacted(inst, store, val, f, token);
    match r.next
    case Some(Posting(t)) => Posted(r.inst, r.store, t, f, later).(acquired := r.acquired)
    case Some(Following(v)) => StateRead(r.inst, r.store, v, f.readState)
    case Some(Releasing) => Released(r.inst, r.store, f.unlock)
    case _ => r
  }

  /** A heartbeat that could not read the lock. */
  function BlindBeat(inst: Instance, store: Store, f: Faults): Outcome {
    if inst.leader then Released(inst, store, f.unlock) else Outcome(inst, store, None, None, None)
  }

  // ---------------------------------------------------------------- the cluster

  /** A write of `state:<token>`, with the lock and the poster's local state at that moment. */
  datatype Post = Post(token: Token, poster: Id, triple: Triple, lockThen: Option<Token>, localThen: Triple)

  /** A poster's move to serving its local state, with its local state at that moment. */
  datatype Service = Service(token: Token, server: Id, triple: Triple, localThen: Triple)

  /** `phase` holds the heartbeats in progress; `acquired`, `posts` and `services` are history. */
  datatype Cluster = Cluster(
    store: Store,
    members: map<Id, Instance>,
    phase: map<Id, Phase>,
    acquired: map<Token, Id>,
    posts: seq<Post>,
    services: seq<Service>)

  /** Each event is one call to the store, or one group update; expiry comes at any time. */
  datatype Event =
    | ReadLock(i: Id)
    | ReadError(i: Id)
    | React(i: Id, f: Faults, token: Token)
    | Continue(i: Id, c: Call)
    | SetLocal(i: Id, t: Triple)
    | ExpireLock
    | ExpireState(tok: Token)
    | ExpireLeader(tok: Token)

  /** Tokens are unique: a new lock is given one that was never used. */
  predicate Admissible(c: Cluster, e: Event) {
    match e
    case ReadLock(i) => i in c.members && i !in c.phase
    case ReadError(i) => i in c.members && i !in c.phase
    case React(i, _, token) => i in c.members && i in c.phase && c.phase[i].Seen? && token !in c.acquired
    case Continue(i, _) => i in c.members && i in c.phase && !c.phase[i].Seen?
    case SetLocal(i, _) => i in c.members
    case _ => true
  }

  function Recorded(c: Cluster, i: Id, o: Outcome): Cluster
    requires i in c.members
  {
    var posted := o.posted.Some? && o.posted.value in o.store.states;
    c.(store := o.store,
       members := c.members[i := o.inst],
       phase := if o.next.Some? then c.phase[i := o.next.value] else c.phase - {i},
       acquired := if o.acquired.Some? then c.acquired[o.acquired.value := i] else c.acquired,
       posts := c.posts + if posted
         then [Post(o.posted.value, i, o.store.states[o.posted.value], o.store.lock, c.members[i].local)] else [],
       services := c.services + if i in c.phase && c.phase[i].Serving?
         then [Service(c.phase[i].token, i, o.inst.remote, c.members[i].local)] else [])
  }

  function Step(c: Cluster, e: Event): Cluster
    requires Admissible(c, e)
  {
    match e
    case ReadLock(i) => c.(phase := c.phase[i := Seen(c.store.lock)])
    case ReadError(i) => Recorded(c, i, Unread(c.members[i], c.store))
    case React(i, f, token) => Recorded(c, i, Reacted(c.members[i], c.store, c.phase[i].lock, f, token))
    case Continue(i, call) => Recorded(c, i, Continued(c.members[i], c.store, c.phase[i], call))
    case SetLocal(i, t) => c.(members := c.members[i := c.members[i].(local := t)])
    case ExpireLock => c.(store := c.store.(lock := None))
    case ExpireState(tok) => c.(store := c.store.(states := c.store.states - {tok}))
    case ExpireLeader(tok) => c.(store := c.store.(leaders := c.store.leaders - {tok}))
  }

  function Start(names: map<Id, string>): Cluster {
    Cluster(Store(None, map[], map[]), map i | i in names :: Fresh(names[i]), map[], map[], [], [])
  }

  ghost predicate Reaches(c: Cluster, events: seq<Event>, d: Cluster)
    decreases events
  {
    if events == [] then c == d
    else Admissible(c, events[0]) && Reaches(Step(c, events[0]), events[1..], d)
  }
}
