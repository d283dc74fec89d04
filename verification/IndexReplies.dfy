/** What single messages answer and change, with deadlines, amounts and errors written out. */
module IndexReplies {
  import opened Prelude
  import opened IndexState
  import opened IndexInvariants
  import opened IndexTheorems

  /// Fifteen minutes to confirm

  /** A tick keeps a pending user whose trial is not overdue for exactly fifteen minutes. */
  lemma PendingKeptIff(es: seq<Event>, now: nat, replies: seq<CreateReply>, p: Principal, since: nat)
    requires AdmissibleRun(INITIAL, es) && Fresh(Run(INITIAL, es).pool, replies)
    requires var s := Run(INITIAL, es);
             p in s.users && s.users[p].status == Pending(since) && !HasOverdueTrial(s, p, now)
    ensures p in GcTick(Run(INITIAL, es), now, replies).users <==> now <= since + 900_000_000_000
  {
    SweepExact(es, now, replies);
  }

  /** A registration that is repeated while it is pending is answered from the same record for fifteen minutes. */
  lemma RepeatedRegistrationIff(
    es: seq<Event>, caller: Principal, now: nat, username: string, installOk: bool, since: nat)
    requires AdmissibleRun(INITIAL, es) && !IsBlank(username)
    requires var s := Run(INITIAL, es); caller in s.users && s.users[caller].status == Pending(since)
    ensures var s := Run(INITIAL, es);
            var u := s.users[caller];
            var same := Registration(u.userId, u.principal, u.username, u.canisterId);
            RegisterUser(s, caller, now, username, installOk) == (s, Success(same)) <==>
            now <= since + 900_000_000_000
  {
    RunKeepsInv(INITIAL, es);
    RegistrationEffect(Run(INITIAL, es), caller, now, username, installOk);
  }

  /// One hour of trial

  /** A trial granted at `now` is kept by ticks before the hour is over, and ended by the first one after. */
  lemma FreshTrialLastsAnHour(
    es: seq<Event>, caller: Principal, now: nat, username: string, later: nat, replies: seq<CreateReply>)
    requires AdmissibleRun(INITIAL, es) && !IsBlank(username)
    requires var s := Run(INITIAL, es);
             caller !in s.users && caller !in s.managers && s.available != {}
    requires var s' := RegisterUser(Run(INITIAL, es), caller, now, username, true).0;
             Fresh(s'.pool, replies)
    ensures var s' := RegisterUser(Run(INITIAL, es), caller, now, username, true).0;
            var confirmed := ConfirmRegistration(s', s'.users[caller].canisterId, caller).0;
            caller in GcTick(confirmed, later, replies).users <==> later < now + 3_600_000_000_000
  {
    RunKeepsInv(INITIAL, es);
    var s := Run(INITIAL, es);
    RegisterKeepsInv(s, caller, now, username, true);
    RegistrationEffect(s, caller, now, username, true);
    var s' := RegisterUser(s, caller, now, username, true).0;
    ConfirmKeepsInv(s', s'.users[caller].canisterId, caller);
    var confirmed := ConfirmRegistration(s', s'.users[caller].canisterId, caller).0;
    TickExact(confirmed, later, replies);
    OnlyLease(confirmed, caller, later);
  }

  lemma OnlyLease(s: State, p: Principal, now: nat)
    requires Inv(s) && p in s.users
    ensures var c := s.users[p].canisterId;
            && IsAssignedTo(s, c, p)
            && (HasOverdueTrial(s, p, now) <==>
                  s.pool[c].state.expiresAt.Some? && s.pool[c].state.expiresAt.value <= now)
  {
    assert IsAssignedTo(s, s.users[p].canisterId, p);
  }

  /// Five canisters

  /** The pool is to hold five canisters, in every reachable state. */
  lemma {:induction false} TargetIsFive(s: State, es: seq<Event>)
    requires s.poolTarget == 5
    ensures Run(s, es).poolTarget == 5
    decreases |es|
  {
    if es != [] {
      NextKeepsTarget(s, es[0]);
      TargetIsFive(Next(s, es[0]), es[1..]);
    }
  }

  lemma NextKeepsTarget(s: State, e: Event)
    ensures s.poolTarget != 0 ==> Next(s, e).poolTarget == s.poolTarget
    ensures s.poolTarget == 0 && e.PostUpgrade? ==> Next(s, e).poolTarget == 5
  {
    match e
    case Register(caller, now, username, installOk) => RegisterKeepsTarget(s, caller, now, username, installOk);
    case Provision(_, count, replies) => BatchKeepsTarget(s, replies, count);
    case Tick(now, replies) => TickKeepsTarget(s, now, replies);
    case _ =>
  }

  lemma RegisterKeepsTarget(s: State, caller: Principal, now: nat, username: string, installOk: bool)
    ensures RegisterUser(s, caller, now, username, installOk).0.poolTarget == s.poolTarget
  {}

  lemma BatchKeepsTarget(s: State, replies: seq<CreateReply>, n: nat)
    ensures CreateAll(s, Accepted(replies, n)).poolTarget == s.poolTarget
  {
    BatchAdds(s, replies, n);
  }

  lemma TickKeepsTarget(s: State, now: nat, replies: seq<CreateReply>)
    ensures GcTick(s, now, replies).poolTarget == s.poolTarget
  {
    var s2 := SweepTrials(SweepPending(s, now), now);
    BatchKeepsTarget(s2, replies, SaturatingSub(s2.poolTarget, |s2.pool|));
  }

  /** If no creation fails, a tick fills the pool up to five canisters, and never takes one away. */
  lemma TickFillsPool(es: seq<Event>, now: nat, replies: seq<CreateReply>)
    requires AdmissibleRun(INITIAL, es) && Fresh(Run(INITIAL, es).pool, replies)
    requires |replies| >= 5 && forall r | r in replies :: r.Created?
    ensures var s := Run(INITIAL, es);
            |GcTick(s, now, replies).pool| == if |s.pool| < 5 then 5 else |s.pool|
  {
    var s := Run(INITIAL, es);
    TargetIsFive(INITIAL, es);
    TickGrowsPool(s, now, replies);
    AcceptedIsPrefix(replies, SaturatingSub(s.poolTarget, |s.pool|));
  }

  lemma TickGrowsPool(s: State, now: nat, replies: seq<CreateReply>)
    requires Fresh(s.pool, replies)
    ensures |GcTick(s, now, replies).pool| ==
            |s.pool| + |Accepted(replies, SaturatingSub(s.poolTarget, |s.pool|))|
  {
    TickIsSweep(s, now, replies);
    AcceptedCount(s, replies, SaturatingSub(s.poolTarget, |s.pool|));
    assert |GcTick(s, now, replies).pool| == |GcTick(s, now, replies).pool.Keys|;
  }

  /** Accepted replies bring that many new ids. */
  lemma AcceptedCount(s: State, replies: seq<CreateReply>, n: nat)
    requires Fresh(s.pool, replies)
    ensures |CreatedIds(Accepted(replies, n))| == |Accepted(replies, n)|
    ensures |s.pool.Keys + CreatedIds(Accepted(replies, n))| == |s.pool| + |Accepted(replies, n)|
  {
    AcceptedIsPrefix(replies, n);
    BatchAdds(s, replies, n);
    DistinctIdsCount(Accepted(replies, n));
    assert |s.pool| == |s.pool.Keys|;
  }

  lemma {:induction false} DistinctIdsCount(replies: seq<CreateReply>)
    requires forall r | r in replies :: r.Created?
    requires forall i, j | 0 <= i < j < |replies| :: replies[i].id != replies[j].id
    ensures |CreatedIds(replies)| == |replies|
  {
    if replies != [] {
      var n := |replies| - 1;
      DistinctIdsCount(replies[..n]);
      assert replies == replies[..n] + [replies[n]];
      assert CreatedIds(replies) == CreatedIds(replies[..n]) + {replies[n].id};
      assert replies[n].id !in CreatedIds(replies[..n]);
    }
  }

  /** A manager's request adds as many canisters as it says, and says how many are available then. */
  lemma ProvisionAnswers(s: State, caller: Principal, count: nat, replies: seq<CreateReply>)
    requires Fresh(s.pool, replies)
    ensures var (s', r) := ProvisionCanisters(s, caller, count, replies);
            if caller in s.managers
            then r.Success? && |s'.pool| == |s.pool| + r.value.0 && r.value.0 <= count && r.value.1 == |s'.available|
            else s' == s && r == Failure(Unauthorized)
  {
    BatchAdds(s, replies, count);
    AcceptedIsPrefix(replies, count);
    AcceptedCount(s, replies, count);
  }

  /// Pool entries

  /** A pool entry keeps the id and the time it was created with. */
  ghost predicate KeepsOrigin(s: State, s': State, c: Principal) {
    && c in s.pool && c in s'.pool
    && s'.pool[c].canisterId == s.pool[c].canisterId && s'.pool[c].timeCreated == s.pool[c].timeCreated
  }

  lemma NextKeepsOrigin(s: State, e: Event, c: Principal)
    requires Admissible(s, e) && c in s.pool
    ensures KeepsOrigin(s, Next(s, e), c)
  {
    match e
    case Register(caller, now, username, installOk) => RegisterKeepsOrigin(s, caller, now, username, installOk, c);
    case Provision(_, count, replies) => BatchAdds(s, replies, count);
    case CreateOne(_, reply) =>
      assert [reply][0] == reply;
    case Tick(now, replies) => TickIsSweep(s, now, replies);
    case _ =>
  }

  lemma RegisterKeepsOrigin(
    s: State, caller: Principal, now: nat, username: string, installOk: bool, c: Principal)
    requires c in s.pool
    ensures KeepsOrigin(s, RegisterUser(s, caller, now, username, installOk).0, c)
  {
    if IsLapsed(s, caller, now) {
      assert KeepsOrigin(s, Evict(s, caller), c);
    }
  }

  lemma {:induction false} RunKeepsOrigin(s: State, es: seq<Event>, c: Principal)
    requires AdmissibleRun(s, es) && c in s.pool
    ensures KeepsOrigin(s, Run(s, es), c)
    decreases |es|
  {
    if es != [] {
      NextKeepsOrigin(s, es[0], c);
      RunKeepsOrigin(Next(s, es[0]), es[1..], c);
    }
  }

  /** A created canister enters the pool under its id and creation time, free, and stays under them. */
  lemma CreatedCanisterStays(s: State, id: Principal, at: nat, es: seq<Event>)
    requires AdmissibleRun(Create(s, Created(id, at)), es)
    ensures var s1 := Create(s, Created(id, at));
            var s2 := Run(s1, es);
            && s1.pool[id].state.Available? && id in s1.available
            && id in s2.pool && s2.pool[id].canisterId == id && s2.pool[id].timeCreated == at
  {
    RunKeepsOrigin(Create(s, Created(id, at)), es, id);
  }

  /// Registration

  /** Why a registration fails, and what it leaves behind when it does not get as far as an eviction. */
  lemma RegistrationFailsExactly(s: State, caller: Principal, now: nat, username: string, installOk: bool)
    requires Inv(s)
    ensures var (s', r) := RegisterUser(s, caller, now, username, installOk);
            var known := caller in s.users && !ConfirmOverdue(s, caller, now);
            var free := caller in s.users || s.available != {};
            && (r == Failure(InvalidInput) <==> Trim(username) == "")
            && (r == Failure(PoolExhausted) <==> Trim(username) != "" && !known && !free)
            && (r == Failure(CallError) <==> Trim(username) != "" && !known && free && !installOk)
            && (r.Success? <==> Trim(username) != "" && (known || (free && installOk)))
            && (r == Failure(InvalidInput) ==> s' == s)
            && (r == Failure(PoolExhausted) ==> s' == s.(nextUserId := s.nextUserId + 1))
  {
    BlankIffTrimmedAway(username);
    if IsLapsed(s, caller, now) {
      assert s.users[caller].canisterId in Evict(s, caller).available;
    }
  }

  /// Managers

  /** Who manages after any message. */
  lemma ManagersAfter(s: State, e: Event, q: Principal)
    ensures q in Next(s, e).managers <==>
            match e
            case ClaimManager(caller) => if s.managers == {} then q == caller else q in s.managers
            case Promote(caller, p) => q in s.managers || (caller in s.managers && q == p)
            case Demote(caller, p) => q in s.managers && !(caller in s.managers && q == p && s.managers != {p})
            case _ => q in s.managers
  {
    match e
    case Demote(caller, p) => RemoveManagerExactly(s, caller, p, q);
    case _ => NextOutline(s, e);
  }

  /** Adding a manager adds exactly that one; only managers can. */
  lemma AddManagerExactly(s: State, caller: Principal, p: Principal, q: Principal)
    ensures var (s', r) := AddManager(s, caller, p);
            && (r.Success? <==> caller in s.managers)
            && (r.Failure? ==> s' == s && r.error == Unauthorized)
            && (r.Success? ==> (q in s'.managers <==> q in s.managers || q == p))
  {}

  /** Removing a manager removes exactly that one; the last manager cannot remove itself. */
  lemma RemoveManagerExactly(s: State, caller: Principal, p: Principal, q: Principal)
    ensures var (s', r) := RemoveManager(s, caller, p);
            && (r.Success? <==>
                  caller in s.managers && p in s.managers && exists other :: other in s.managers && other != p)
            && (r.Success? ==> (q in s'.managers <==> q in s.managers && q != p))
            && (r.Failure? ==> s' == s)
            && (r == Failure(Unauthorized) <==> caller !in s.managers)
            && (r == Failure(UserNotFound) <==> caller in s.managers && p !in s.managers)
            && (r == Failure(InvalidInput) <==> s.managers == {p} && caller == p)
  {
    if p in s.managers {
      var rest := s.managers - {p};
      assert |rest| == |s.managers| - 1;
      if |rest| > 0 {
        var other :| other in rest;
      } else {
        assert s.managers == {p};
      }
    }
  }

  /** The role is free exactly as long as there is no manager, and the claimer becomes the only one. */
  lemma ClaimExactly(s: State, caller: Principal, q: Principal)
    ensures var (s', r) := ClaimManagerRole(s, caller);
            && (r.Success? <==> forall m :: m !in s.managers)
            && (r.Success? ==> (q in s'.managers <==> q == caller) && s'.users == s.users)
            && (r.Failure? ==> s' == s && r.error == RoleAlreadyClaimed)
  {}

  /** Who may confirm, and what it changes. */
  lemma ConfirmExactly(s: State, caller: Principal, p: Principal, q: Principal)
    ensures var (s', r) := ConfirmRegistration(s, caller, p);
            && (r == Failure(UserNotFound) <==> p !in s.users)
            && (r == Failure(Unauthorized) <==> p in s.users && caller != s.users[p].canisterId)
            && (r.Success? <==> p in s.users && caller == s.users[p].canisterId)
            && (r.Failure? ==> s' == s)
            && (r.Success? ==> p in s'.users && s'.users[p].status.Active?)
            && (q != p ==> (q in s'.users <==> q in s.users) && (q in s.users ==> s'.users[q] == s.users[q]))
            && (q != p ==> (q in s'.pending <==> q in s.pending))
            && s'.pool == s.pool && s'.available == s.available && s'.trials == s.trials
  {}
}
