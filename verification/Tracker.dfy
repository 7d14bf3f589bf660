/** The tracker's objects: each instance updates its own fields, its two in-memory trackers and the
    shared store in place. One heartbeat here is uninterrupted, except that the poller may update the
    local state while it posts. */
module Tracker {
  import opened Common
  import opened TrackerSpec

  class SharedStore {
    var lock: Option<Token>
    var states: map<Token, Triple>
    var leaders: map<Token, string>

    ghost function View(): Store
      reads this
    {
      Store(lock, states, leaders)
    }

    /** Releases the lock if it holds the caller's token; `ok` is what the caller is told. */
    method Unlock(token: Option<Token>, c: Call) returns (ok: bool)
      modifies this
      ensures View() == Unlocked(old(View()), token, c)
      ensures ok <==> Holds(old(View()), token) && c.Fine?
    {
      ok := token.Some? && lock == token && c.Fine?;
      if token.Some? && lock == token && !c.Lost? {
        lock := None;
      }
    }

    /** Takes the lock if it is free. */
    method Lock(token: Token, c: Call) returns (ok: bool, applied: bool)
      modifies this
      ensures applied <==> old(lock).None? && !c.Lost?
      ensures View() == if applied then old(View()).(lock := Some(token)) else old(View())
      ensures ok <==> applied && c.Fine?
    {
      applied := lock.None? && !c.Lost?;
      ok := applied && c.Fine?;
      if applied {
        lock := Some(token);
      }
    }
  }

  class InMemoryConsensusTracker {
    var state: Triple

    constructor ()
      ensures state == ZERO_TRIPLE
    {
      state := ZERO_TRIPLE;
    }

    method Update(o: Triple)
      modifies this
      ensures state == o
    {
      state := o;
    }
  }

  class RedisConsensusTracker {
    const name: string
    const store: SharedStore
    const local: InMemoryConsensusTracker
    const remote: InMemoryConsensusTracker
    var leader: bool
    var redlock: Option<Token>
    var leaderName: string

    ghost predicate Valid() {
      local != remote
    }

    ghost function View(): Instance
      reads this, local, remote
    {
      Instance(name, leader, redlock, leaderName, local.state, remote.state)
    }

    constructor (name: string, store: SharedStore)
      ensures Valid() && View() == Fresh(name) && this.store == store && fresh(local) && fresh(remote)
    {
      this.name, this.store := name, store;
      leader, redlock, leaderName := false, None, "";
      local := new InMemoryConsensusTracker();
      remote := new InMemoryConsensusTracker();
    }

    /** `later` is what the poller has made of the local state by the time it is read again. */
    method PostPayload(token: Token, f: Faults, later: Triple)
      requires Valid()
      modifies this, store, local, remote
      ensures var o := Posted(old(View()), old(store.View()), token, f, later);
              View() == o.inst && store.View() == o.store
    {
      if !f.putState.Lost? {
        store.states := store.states[token := local.state];
      }
      if !f.putState.Fine? {
        leader := false;
        return;
      }
      if !f.putLeader.Lost? {
        store.leaders := store.leaders[token := name];
      }
      if !f.putLeader.Fine? {
        leader := false;
        return;
      }
      leaderName := name;
      local.Update(later);
      remote.Update(local.state);
    }

    method StateHeartbeat(readFails: bool, f: Faults, token: Token, later: Triple)
      requires Valid()
      modifies this, store, local, remote
      ensures var o := if readFails then BlindBeat(old(View()), old(store.View()), f)
                       else Beat(old(View()), old(store.View()), old(store.lock), f, token, later);
              View() == o.inst && store.View() == o.store
    {
      if readFails {
        if leader {
          var ok := store.Unlock(redlock, f.unlock);
          if ok { leader := false; }
        }
        return;
      }
      var val := store.lock;
      if val.Some? {
        if leader {
          var extended := redlock.Some? && store.lock == redlock && f.extend.Fine?;
          if !extended {
            var ok := store.Unlock(redlock, f.unlock);
            if !ok { return; }
            leader := false;
            return;
          }
          PostPayload(val.value, f, later);
        } else {
          if !f.readLeader.Fine? { return; }
          leaderName := if val.value in store.leaders then store.leaders[val.value] else "";
          if !f.readState.Fine? { return; }
          if val.value !in store.states { return; }
          remote.Update(store.states[val.value]);
        }
      } else {
        if !ValidState(local.state) { return; }
        if ValidState(remote.state) && Behind(local.state, remote.state) { return; }
        var ok, applied := store.Lock(token, f.acquire);
        if !ok {
          leader := false;
          return;
        }
        redlock := Some(token);
        leader := true;
        PostPayload(token, f, later);
      }
    }
  }
}
