/**
 * The handlers of `gpt_index` as they update its maps, each proved to do what `IndexState` says.
 *
 * The management canister's answers are inputs (`installOk`, `CreateReply`); its answer to an
 * uninstall is arbitrary, since the code only logs it.
 */
module IndexCanister {
  import opened Prelude
  import opened IndexState

  /** Asks the management canister to uninstall the code of `c`; it may refuse. */
  method UninstallUserWasm(c: Principal) returns (ok: bool) {
    ok := *;
  }

  lemma ReturnAllOneMore(s: State, cs: set<Principal>, c: Principal)
    ensures ReturnAll(ReturnAll(s, cs), {c}) == ReturnAll(s, cs + {c})
  {
    assert SetFree(SetFree(s.pool, cs), {c}) == SetFree(s.pool, cs + {c});
    assert s.available + cs + {c} == s.available + (cs + {c});
    assert s.trials - cs - {c} == s.trials - (cs + {c});
  }

  /** The sweep of lapsed registrations after the users in `done` have been handled. */
  ghost function PendingSwept(s: State, done: set<Principal>): State {
    ReturnAll(s, CanistersOf(s, done)).(users := s.users - done)
  }

  lemma PendingSweptOneMore(s: State, done: set<Principal>, p: Principal)
    ensures PendingSwept(s, done + {p}) ==
            if p in s.users
            then ReturnAll(PendingSwept(s, done), {s.users[p].canisterId}).(users := s.users - done - {p})
            else PendingSwept(s, done).(users := s.users - done - {p})
  {
    assert s.users - (done + {p}) == s.users - done - {p};
    if p in s.users {
      assert CanistersOf(s, done + {p}) == CanistersOf(s, done) + {s.users[p].canisterId};
      ReturnAllOneMore(s, CanistersOf(s, done), s.users[p].canisterId);
    } else {
      assert CanistersOf(s, done + {p}) == CanistersOf(s, done);
    }
  }

  /** The sweep of overdue trials after the canisters in `done` have been handled. */
  ghost function TrialsSwept(s: State, done: set<Principal>): State {
    ReturnAll(s, done).(users := s.users - OwnersOf(s, done), pending := s.pending - OwnersOf(s, done))
  }

  lemma TrialsSweptOneMore(s: State, done: set<Principal>, c: Principal)
    ensures var gone := if c in s.pool && s.pool[c].state.Assigned? then {s.pool[c].state.owner} else {};
            TrialsSwept(s, done + {c}) ==
            ReturnAll(TrialsSwept(s, done), {c}).(users := TrialsSwept(s, done).users - gone,
                                                  pending := TrialsSwept(s, done).pending - gone)
  {
    var gone := if c in s.pool && s.pool[c].state.Assigned? then {s.pool[c].state.owner} else {};
    assert OwnersOf(s, done + {c}) == OwnersOf(s, done) + gone;
    assert s.users - (OwnersOf(s, done) + gone) == s.users - OwnersOf(s, done) - gone;
    assert s.pending - (OwnersOf(s, done) + gone) == s.pending - OwnersOf(s, done) - gone;
    ReturnAllOneMore(s, done, c);
  }

  class IndexCanister {
    // Stable memory
    var users: map<Principal, User>
    var pool: map<Principal, PoolEntry>
    var managers: set<Principal>
    var nextUserId: nat
    var poolTarget: nat
    // Heap indexes
    var available: set<Principal>
    var trials: map<Principal, nat>
    var pending: map<Principal, nat>

    function View(): State
      reads this
    {
      State(users, pool, managers, nextUserId, poolTarget, available, trials, pending)
    }

    /** Empty storage with a default configuration, then `init_canister`. */
    constructor ()
      ensures View() == INITIAL
    {
      users, pool, managers, nextUserId, poolTarget := map[], map[], {}, 0, 0;
      available, trials, pending := {}, map[], map[];
      new;
      if nextUserId == 0 {
        nextUserId := 1;
      }
      if poolTarget == 0 {
        poolTarget := DEFAULT_POOL_TARGET;
      }
    }

    method CreateEmptyCanisterForPool(reply: CreateReply) returns (r: Result<Principal, Error>)
      modifies this
      ensures View() == Create(old(View()), reply)
      ensures r == if reply.Created? then Success(reply.id) else Failure(CallError)
    {
      match reply
      case NotCreated =>
        return Failure(CallError);
      case Created(id, at) =>
        pool := pool[id := PoolEntry(id, at, Available)];
        available := available + {id};
        return Success(id);
    }

    method ReturnCanisterToPool(c: Principal)
      modifies this
      ensures View() == ReturnAll(old(View()), {c})
    {
      var _ := UninstallUserWasm(c);
      ghost var before := pool;
      if c in pool {
        pool := pool[c := pool[c].(state := Available)];
      }
      assert pool == SetFree(before, {c});
      available := available + {c};
      trials := trials - {c};
    }

    method TakeCanisterFromPool() returns (r: Result<Principal, Error>)
      modifies this`available
      ensures old(available) == {} ==> r == Failure(PoolExhausted) && available == {}
      ensures old(available) != {} ==>
                r == Success(Least(old(available))) && available == old(available) - {Least(old(available))}
    {
      if available == {} {
        return Failure(PoolExhausted);
      }
      var c := Least(available);
      available := available - {c};
      return Success(c);
    }

    method RegisterUser(caller: Principal, now: nat, username: string, installOk: bool)
      returns (r: Result<Registration, Error>)
      modifies this
      ensures (View(), r) == IndexState.RegisterUser(old(View()), caller, now, username, installOk)
    {
      if IsBlank(username) {
        return Failure(InvalidInput);
      }
      if caller in users {
        var existing := users[caller];
        if existing.status.Pending? && TimedOut(now, existing.status.since) {
          ReturnCanisterToPool(existing.canisterId);
          users := users - {caller};
          assert View() == Evict(old(View()), caller);
        } else {
          return Success(RegistrationOf(existing));
        }
      }
      r := AssignCanister(caller, now, username, installOk);
    }

    /** The second half of `register_user`: a fresh id, a canister from the pool, its code, and the records. */
    method AssignCanister(caller: Principal, now: nat, username: string, installOk: bool)
      returns (r: Result<Registration, Error>)
      modifies this
      ensures (View(), r) == Enroll(old(View()), caller, now, username, installOk)
    {
      ghost var start := View();
      var isManager := caller in managers;
      var newUserId := nextUserId;
      nextUserId := nextUserId + 1;
      var taken := TakeCanisterFromPool();
      if taken.Failure? {
        return Failure(taken.error);
      }
      var c := taken.value;
      assert available - {c} == available;
      available := available - {c};
      ghost var reservation := Reservation(newUserId, caller, username, c, now, isManager);
      assert Reserve(start, caller, now, username) == (View(), Some(reservation));
      if !installOk {
        return Failure(CallError);
      }
      var expiresAt := if isManager then None else Some(now + TRIAL_EXPIRY_NS);
      if c in pool {
        pool := pool[c := pool[c].(state := Assigned(caller, expiresAt))];
      }
      if expiresAt.Some? {
        trials := trials[c := expiresAt.value];
      }
      users := users[caller := User(newUserId, caller, username, c, Pending(now))];
      pending := pending[caller := now];
      assert View() == Commit(Reserve(start, caller, now, username).0, reservation);
      return Success(Registration(newUserId, caller, username, c));
    }

    method ConfirmRegistration(caller: Principal, user: Principal) returns (r: Result<(), Error>)
      modifies this
      ensures (View(), r) == IndexState.ConfirmRegistration(old(View()), caller, user)
    {
      if user !in users {
        return Failure(UserNotFound);
      }
      var record := users[user];
      if record.canisterId != caller {
        return Failure(Unauthorized);
      }
      if record.status == Active {
        return Success(());
      }
      users := users[user := record.(status := Active)];
      pending := pending - {user};
      return Success(());
    }

    method HandleExpiredPendingUser(p: Principal)
      modifies this
      ensures var s := old(View());
              View() == (if p in s.users then ReturnAll(s, {s.users[p].canisterId}) else s).(users := s.users - {p})
    {
      if p in users {
        var c := users[p].canisterId;
        users := users - {p};
        ReturnCanisterToPool(c);
      } else {
        assert users - {p} == users;
      }
    }

    method HandleExpiredTrialCanister(c: Principal)
      modifies this
      ensures var s := old(View());
              var gone := if c in s.pool && s.pool[c].state.Assigned? then {s.pool[c].state.owner} else {};
              View() == ReturnAll(s, {c}).(users := s.users - gone, pending := s.pending - gone)
    {
      if c in pool && pool[c].state.Assigned? {
        var owner := pool[c].state.owner;
        users := users - {owner};
        pending := pending - {owner};
      } else {
        assert users - {} == users && pending - {} == pending;
      }
      ReturnCanisterToPool(c);
    }

    /** Removes the overdue entries from the pending index and lists them, in key order. */
    method DrainOverdueRegistrations(now: nat) returns (expired: seq<Principal>)
      modifies this`pending
      ensures pending == old(pending) - OverdueRegistrations(old(View()), now)
      ensures forall p :: p in expired <==> p in OverdueRegistrations(old(View()), now)
      ensures forall i, j | 0 <= i < j < |expired| :: expired[i] != expired[j]
    {
      var snapshot := pending;
      expired := [];
      var rest := snapshot.Keys;
      while rest != {}
        invariant rest <= snapshot.Keys
        invariant forall p :: p in expired <==> p in snapshot && p !in rest && TimedOut(now, snapshot[p])
        invariant forall i, j | 0 <= i < j < |expired| :: expired[i] != expired[j]
      {
        var p := Least(rest);
        if TimedOut(now, snapshot[p]) {
          expired := expired + [p];
        }
        rest := rest - {p};
      }
      pending := pending - set p | p in expired;
      assert (set p | p in expired) == OverdueRegistrations(old(View()), now);
    }

    method SweepPending(now: nat)
      modifies this
      ensures View() == IndexState.SweepPending(old(View()), now)
    {
      var expired := DrainOverdueRegistrations(now);
      ghost var start := View();
      ghost var done: set<Principal> := {};
      assert start == PendingSwept(start, done) by { NothingSwept(start); }
      for i := 0 to |expired|
        invariant done == Elements(expired[..i])
        invariant View() == PendingSwept(start, done)
      {
        var p := expired[i];
        assert p !in done;
        HandleExpiredPendingUser(p);
        PendingSweptOneMore(start, done, p);
        ElementsOneMore(expired, i);
        done := done + {p};
      }
      assert expired[..|expired|] == expired;
      assert done == OverdueRegistrations(old(View()), now);
    }

    method SweepTrials(now: nat)
      modifies this
      ensures View() == IndexState.SweepTrials(old(View()), now)
    {
      var expired := Ascending(set c | c in trials && now >= trials[c]);
      ghost var start := View();
      ghost var done: set<Principal> := {};
      assert start == TrialsSwept(start, done) by { NothingSwept(start); }
      for i := 0 to |expired|
        invariant done == Elements(expired[..i])
        invariant View() == TrialsSwept(start, done)
      {
        var c := expired[i];
        assert c !in done;
        HandleExpiredTrialCanister(c);
        TrialsSweptOneMore(start, done, c);
        ElementsOneMore(expired, i);
        done := done + {c};
      }
      assert expired[..|expired|] == expired;
      assert done == OverdueTrials(start, now);
    }

    /** Up to `n` creations, stopping at the first that fails; a reply list that runs out counts as a failure. */
    method CreateUpTo(n: nat, replies: seq<CreateReply>) returns (created: nat)
      modifies this
      ensures View() == CreateAll(old(View()), Accepted(replies, n))
      ensures created == |Accepted(replies, n)|
    {
      created := 0;
      ghost var done: seq<CreateReply> := [];
      for i := 0 to n
        invariant created == i == |done| <= |replies|
        invariant View() == CreateAll(old(View()), done)
        invariant done + Accepted(replies[i..], n - i) == Accepted(replies, n)
      {
        var reply := if i < |replies| then replies[i] else NotCreated;
        var r := CreateEmptyCanisterForPool(reply);
        if r.Failure? {
          assert done + [] == done;
          return;
        }
        assert Accepted(replies[i..], n - i) == [reply] + Accepted(replies[i + 1..], n - i - 1) by {
          assert replies[i..][1..] == replies[i + 1..];
        }
        assert done + [reply] + Accepted(replies[i + 1..], n - i - 1) == done + Accepted(replies[i..], n - i);
        assert (done + [reply])[..i] == done;
        done := done + [reply];
        created := created + 1;
      }
      assert done + [] == done;
    }

    method ReplenishPool(replies: seq<CreateReply>)
      modifies this
      ensures View() == Replenish(old(View()), replies)
    {
      var total := |pool|;
      if total < poolTarget {
        var _ := CreateUpTo(poolTarget - total, replies);
      }
    }

    method GcTick(now: nat, replies: seq<CreateReply>)
      modifies this
      ensures View() == IndexState.GcTick(old(View()), now, replies)
    {
      SweepPending(now);
      SweepTrials(now);
      ReplenishPool(replies);
    }

    method ProvisionCanisters(caller: Principal, count: nat, replies: seq<CreateReply>)
      returns (r: Result<(nat, nat), Error>)
      modifies this
      ensures (View(), r) == IndexState.ProvisionCanisters(old(View()), caller, count, replies)
    {
      if caller !in managers {
        return Failure(Unauthorized);
      }
      var created := CreateUpTo(count, replies);
      return Success((created, |available|));
    }

    /** The legacy endpoint, open to the index itself and to managers. */
    method CreateUserCanister(caller: Principal, self: Principal, reply: CreateReply)
      returns (r: Result<Principal, Error>)
      modifies this
      ensures View() == Next(old(View()), CreateOne(caller == self || caller in old(managers), reply))
      ensures r == if caller != self && caller !in old(managers) then Failure(Unauthorized)
                   else if reply.Created? then Success(reply.id) else Failure(CallError)
    {
      if caller != self && caller !in managers {
        return Failure(Unauthorized);
      }
      r := CreateEmptyCanisterForPool(reply);
    }

    method ClaimManagerRole(caller: Principal) returns (r: Result<(), Error>)
      modifies this
      ensures (View(), r) == IndexState.ClaimManagerRole(old(View()), caller)
    {
      if managers != {} {
        return Failure(RoleAlreadyClaimed);
      }
      managers := managers + {caller};
      assert managers == {caller};
      if caller in users {
        var c := users[caller].canisterId;
        if c in pool && pool[c].state.Assigned? {
          pool := pool[c := pool[c].(state := Assigned(pool[c].state.owner, None))];
        }
        trials := trials - {c};
      }
      return Success(());
    }

    method AddManager(caller: Principal, user: Principal) returns (r: Result<(), Error>)
      modifies this
      ensures (View(), r) == IndexState.AddManager(old(View()), caller, user)
    {
      if caller !in managers {
        return Failure(Unauthorized);
      }
      managers := managers + {user};
      return Success(());
    }

    method RemoveManager(caller: Principal, user: Principal) returns (r: Result<(), Error>)
      modifies this
      ensures (View(), r) == IndexState.RemoveManager(old(View()), caller, user)
    {
      if caller !in managers {
        return Failure(Unauthorized);
      }
      if |managers| == 1 && user in managers && caller == user {
        return Failure(InvalidInput);
      }
      if user in managers {
        managers := managers - {user};
        return Success(());
      }
      return Failure(UserNotFound);
    }

    /** `post_upgrade`: the heap indexes are cleared and refilled from the stable maps. */
    method PostUpgrade()
      modifies this
      ensures View() == Upgrade(old(View()))
    {
      RebuildPending();
      RebuildPoolIndexes();
      if poolTarget == 0 {
        poolTarget := DEFAULT_POOL_TARGET;
      }
    }

    method RebuildPending()
      modifies this`pending
      ensures pending == PendingEntries(users)
    {
      var table := users;
      pending := map[];
      var rest := table.Keys;
      while rest != {}
        invariant rest <= table.Keys
        invariant pending == PendingEntries(table) - rest
      {
        var p := Least(rest);
        if table[p].status.Pending? {
          pending := pending[p := table[p].status.since];
        }
        rest := rest - {p};
      }
    }

    method RebuildPoolIndexes()
      modifies this`available, this`trials
      ensures available == FreeEntries(pool)
      ensures trials == TrialEntries(pool)
    {
      var table := pool;
      available := {};
      trials := map[];
      var rest := table.Keys;
      while rest != {}
        invariant rest <= table.Keys
        invariant available == FreeEntries(table) - rest
        invariant trials == TrialEntries(table) - rest
      {
        var c := Least(rest);
        match table[c].state {
          case Available =>
            available := available + {c};
          case Assigned(_, Some(exp)) =>
            trials := trials[c := exp];
          case Assigned(_, None) =>
        }
        rest := rest - {c};
      }
    }
  }

  lemma NothingSwept(s: State)
    ensures PendingSwept(s, {}) == s && TrialsSwept(s, {}) == s
  {
    assert CanistersOf(s, {}) == {} && OwnersOf(s, {}) == {};
    assert SetFree(s.pool, {}) == s.pool;
    assert s.users - {} == s.users && s.trials - {} == s.trials && s.pending - {} == s.pending;
  }
}
