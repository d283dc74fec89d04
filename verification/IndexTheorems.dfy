/** The promises of the canister pool, for every reachable state and every run of messages. */
module IndexTheorems {
  import opened Prelude
  import opened IndexState
  import opened IndexInvariants

  /// Leases

  /** A user's canister and a lease's owner are two readings of one bijection. */
  lemma LeaseBijection(es: seq<Event>)
    requires AdmissibleRun(INITIAL, es)
    ensures var s := Run(INITIAL, es);
            && (forall p, c :: (p in s.users && s.users[p].canisterId == c) <==> IsAssignedTo(s, c, p))
            && (forall p, q | p in s.users && q in s.users && s.users[p].canisterId == s.users[q].canisterId :: p == q)
            && |s.pool| == |s.users| + |FreeEntries(s.pool)|
  {
    RunKeepsInv(INITIAL, es);
    var s := Run(INITIAL, es);
    forall p, c ensures (p in s.users && s.users[p].canisterId == c) <==> IsAssignedTo(s, c, p) {
      if p in s.users {
        assert IsAssignedTo(s, s.users[p].canisterId, p);
      }
    }
    PoolCount(s);
  }

  lemma LeasedCanisters(s: State)
    requires Inv(s)
    ensures s.pool.Keys - FreeEntries(s.pool) == CanistersOf(s, s.users.Keys)
    ensures forall p, q | p in s.users && q in s.users && s.users[p].canisterId == s.users[q].canisterId :: p == q
  {
    forall c | c in s.pool.Keys - FreeEntries(s.pool) ensures c in CanistersOf(s, s.users.Keys) {
      assert s.pool[c].state.owner in s.users.Keys;
    }
    forall p | p in s.users ensures IsAssignedTo(s, s.users[p].canisterId, p) {}
  }

  lemma PoolCount(s: State)
    requires Inv(s)
    ensures |s.pool| == |s.users| + |FreeEntries(s.pool)|
  {
    LeasedCanisters(s);
    var leased := CanistersOf(s, s.users.Keys);
    LeasedCount(s.users, leased);
    assert s.pool.Keys == leased + FreeEntries(s.pool);
    assert |s.pool| == |s.pool.Keys| == |leased| + |FreeEntries(s.pool)|;
  }

  lemma LeasedCount(users: map<Principal, User>, leased: set<Principal>)
    requires forall p, q | p in users && q in users && users[p].canisterId == users[q].canisterId :: p == q
    requires leased == set p | p in users :: users[p].canisterId
    ensures |leased| == |users|
  {
    var canisterOf := map p | p in users :: users[p].canisterId;
    assert leased == set p | p in users.Keys :: canisterOf[p];
    BijectionKeepsSize(users.Keys, canisterOf, leased);
  }

  /** Who can appear among the users, what becomes of ids, managers and the pool: common to all messages. */
  ghost predicate Outline(s: State, e: Event, s': State) {
    && s.pool.Keys <= s'.pool.Keys
    && s'.users.Keys <= s.users.Keys + (if e.Register? then {e.caller} else {})
    && (s'.nextUserId == s.nextUserId || (e.Register? && s'.nextUserId == s.nextUserId + 1))
    && (e.ClaimManager? || e.Promote? || e.Demote? || s'.managers == s.managers)
  }

  lemma RegisterOutline(s: State, e: Event)
    requires e.Register?
    ensures Outline(s, e, Next(s, e))
  {}

  lemma TickOutline(s: State, e: Event)
    requires e.Tick?
    ensures Outline(s, e, Next(s, e))
  {
    var s2 := SweepTrials(SweepPending(s, e.now), e.now);
    BatchAdds(s2, e.replies, SaturatingSub(s2.poolTarget, |s2.pool|));
  }

  lemma ProvisionOutline(s: State, e: Event)
    requires e.Provision?
    ensures Outline(s, e, Next(s, e))
  {
    BatchAdds(s, e.replies, e.count);
  }

  lemma NextOutline(s: State, e: Event)
    ensures Outline(s, e, Next(s, e))
  {
    match e
    case Register(_, _, _, _) => RegisterOutline(s, e);
    case Provision(_, _, _) => ProvisionOutline(s, e);
    case Tick(_, _) => TickOutline(s, e);
    case _ =>
  }

  /** A canister id never leaves the pool. */
  lemma {:induction false} PoolOnlyGrows(s: State, es: seq<Event>)
    ensures s.pool.Keys <= Run(s, es).pool.Keys
    decreases |es|
  {
    if es != [] {
      NextOutline(s, es[0]);
      PoolOnlyGrows(Next(s, es[0]), es[1..]);
    }
  }

  /** `p` has had a registration to confirm for more than fifteen minutes. */
  predicate ConfirmOverdue(s: State, p: Principal, now: nat) {
    p in s.users && s.users[p].status.Pending? && now > s.users[p].status.since + 900_000_000_000
  }

  /** When a registration succeeds, what it grants, and whom it leaves alone. */
  lemma RegistrationEffect(s: State, caller: Principal, now: nat, username: string, installOk: bool)
    requires Inv(s)
    ensures var (s', r) := RegisterUser(s, caller, now, username, installOk);
            var known := caller in s.users && !ConfirmOverdue(s, caller, now);
            && (r.Success? <==>
                  !IsBlank(username) && (known || (installOk && (caller in s.users || s.available != {}))))
            && (r == Failure(PoolExhausted) <==> !IsBlank(username) && caller !in s.users && s.available == {})
            && (r.Success? && known ==>
                  var u := s.users[caller];
                  s' == s && r.value == Registration(u.userId, u.principal, u.username, u.canisterId))
            && (r.Success? && !known ==>
                  var c := r.value.canisterId;
                  && r.value == Registration(s.nextUserId, caller, username, c)
                  && s'.users.Keys == s.users.Keys + {caller}
                  && s'.users[caller] == User(s.nextUserId, caller, username, c, Pending(now))
                  && (c in s.available || IsAssignedTo(s, c, caller))
                  && c in s'.pool
                  && s'.pool[c].state ==
                     Assigned(caller, if caller in s.managers then None else Some(now + 3_600_000_000_000)))
  {
    if IsLapsed(s, caller, now) {
      EvictReleases(s, caller);
      assert s.users[caller].canisterId in Evict(s, caller).available;
      assert IsAssignedTo(s, s.users[caller].canisterId, caller);
      EnrollEffect(Evict(s, caller), caller, now, username, installOk);
    } else if caller !in s.users {
      EnrollEffect(s, caller, now, username, installOk);
    }
  }

  lemma EnrollEffect(s: State, caller: Principal, now: nat, username: string, installOk: bool)
    requires Inv(s)
    ensures var (s', r) := Enroll(s, caller, now, username, installOk);
            && (r.Success? <==> installOk && s.available != {})
            && (r == Failure(PoolExhausted) <==> s.available == {})
            && (r.Success? ==>
                  var c := r.value.canisterId;
                  && r.value == Registration(s.nextUserId, caller, username, c)
                  && c in s.available && c in s'.pool
                  && s'.users == s.users[caller := User(s.nextUserId, caller, username, c, Pending(now))]
                  && s'.pool[c].state ==
                     Assigned(caller, if caller in s.managers then None else Some(now + 3_600_000_000_000)))
  {}

  /** A registration, successful or not, leaves every other user's record and lease alone. */
  lemma RegistrationSparesOthers(s: State, caller: Principal, now: nat, username: string, installOk: bool, p: Principal)
    requires Inv(s) && p in s.users && p != caller
    ensures var s' := RegisterUser(s, caller, now, username, installOk).0;
            && p in s'.users && s'.users[p] == s.users[p]
            && s.users[p].canisterId in s.pool && s.users[p].canisterId in s'.pool
            && s'.pool[s.users[p].canisterId] == s.pool[s.users[p].canisterId]
  {
    var c := s.users[p].canisterId;
    assert IsAssignedTo(s, c, p);
    if IsLapsed(s, caller, now) {
      EvictReleases(s, caller);
      assert IsAssignedTo(s, s.users[caller].canisterId, caller);
      EnrollSparesOthers(Evict(s, caller), caller, now, username, installOk, p);
    } else if caller !in s.users {
      EnrollSparesOthers(s, caller, now, username, installOk, p);
    }
  }

  lemma EnrollSparesOthers(s: State, caller: Principal, now: nat, username: string, installOk: bool, p: Principal)
    requires Inv(s) && p in s.users && p != caller
    ensures var s' := Enroll(s, caller, now, username, installOk).0;
            && p in s'.users && s'.users[p] == s.users[p]
            && s.users[p].canisterId in s.pool && s.users[p].canisterId in s'.pool
            && s'.pool[s.users[p].canisterId] == s.pool[s.users[p].canisterId]
  {
    assert IsAssignedTo(s, s.users[p].canisterId, p);
  }

  /// The sweep

  ghost predicate HasOverdueTrial(s: State, p: Principal, now: nat) {
    exists c :: IsAssignedTo(s, c, p) && s.pool[c].state.expiresAt.Some? && s.pool[c].state.expiresAt.value <= now
  }

  lemma OverdueOwners(s: State, now: nat, p: Principal)
    requires Inv(s)
    ensures p in OwnersOf(s, OverdueTrials(s, now)) <==> HasOverdueTrial(s, p, now)
  {
    if HasOverdueTrial(s, p, now) {
      var c :| IsAssignedTo(s, c, p) && s.pool[c].state.expiresAt.Some? && s.pool[c].state.expiresAt.value <= now;
      assert c in OverdueTrials(s, now);
    }
    if p in OwnersOf(s, OverdueTrials(s, now)) {
      var c :| c in OverdueTrials(s, now) && c in s.pool && s.pool[c].state.Assigned? && s.pool[c].state.owner == p;
      assert IsAssignedTo(s, c, p);
    }
  }

  /** The two sweeps together remove exactly the lapsed registrations and the owners of overdue trials. */
  lemma OverdueSurvivesFirstSweep(s: State, now: nat, p: Principal)
    requires Inv(s) && p in SweepPending(s, now).users
    ensures HasOverdueTrial(SweepPending(s, now), p, now) <==> HasOverdueTrial(s, p, now)
  {
    SweepPendingReleases(s, now);
    var s1 := SweepPending(s, now);
    var c := s.users[p].canisterId;
    assert IsAssignedTo(s, c, p) && IsAssignedTo(s1, c, p);
    assert s1.pool[c] == s.pool[c];
  }

  lemma SweptUsers(s: State, now: nat)
    requires Inv(s)
    ensures var s2 := SweepTrials(SweepPending(s, now), now);
            && (forall p :: p in s2.users <==>
                  p in s.users && !ConfirmOverdue(s, p, now) && !HasOverdueTrial(s, p, now))
            && (forall p | p in s2.users :: s2.users[p] == s.users[p])
  {
    var s1 := SweepPending(s, now);
    SweepPendingReleases(s, now);
    forall p ensures p in s1.users <==> p in s.users && !ConfirmOverdue(s, p, now) {}
    forall p | p in s1.users ensures p in OwnersOf(s1, OverdueTrials(s1, now)) <==> HasOverdueTrial(s, p, now) {
      OverdueSurvivesFirstSweep(s, now, p);
      OverdueOwners(s1, now, p);
    }
  }

  lemma SweptCanisters(s: State, now: nat, p: Principal)
    requires Inv(s) && p in s.users
    ensures var s2 := SweepTrials(SweepPending(s, now), now);
            var c := s.users[p].canisterId;
            && c in s2.pool
            && (if p in s2.users then s2.pool[c] == s.pool[c] else s2.pool[c].state.Available? && c in s2.available)
  {
    var c := s.users[p].canisterId;
    assert IsAssignedTo(s, c, p);
    SweepPendingReleases(s, now);
    var s1 := SweepPending(s, now);
    if p in s1.users {
      SweepTrialsReleases(s1, now);
      OverdueTrialsAreLeases(s1, now);
      assert IsAssignedTo(s1, c, p);
    } else {
      assert c in s1.available;
    }
  }

  /** A completed tick, from any reachable state and whatever the uninstall outcomes were. */
  lemma SweepExact(es: seq<Event>, now: nat, replies: seq<CreateReply>)
    requires AdmissibleRun(INITIAL, es) && Fresh(Run(INITIAL, es).pool, replies)
    ensures SweptExactly(Run(INITIAL, es), now, GcTick(Run(INITIAL, es), now, replies))
  {
    RunKeepsInv(INITIAL, es);
    TickExact(Run(INITIAL, es), now, replies);
  }

  /** What a tick at time `now` promises about the users of `s` and their canisters. */
  ghost predicate SweptExactly(s: State, now: nat, s': State) {
    && (forall p :: p in s'.users <==> p in s.users && !ConfirmOverdue(s, p, now) && !HasOverdueTrial(s, p, now))
    && (forall p | p in s.users :: SweptUser(s, s', p))
    && s'.managers == s.managers
    && s'.nextUserId == s.nextUserId
  }

  /** `p` kept record and lease unchanged, or lost the record and gave the canister back. */
  ghost predicate SweptUser(s: State, s': State, p: Principal)
    requires p in s.users
  {
    var c := s.users[p].canisterId;
    && c in s.pool && c in s'.pool
    && if p in s'.users then s'.users[p] == s.users[p] && s'.pool[c] == s.pool[c]
       else s'.pool[c].state.Available? && c in s'.available
  }

  lemma TickExact(s: State, now: nat, replies: seq<CreateReply>)
    requires Inv(s) && Fresh(s.pool, replies)
    ensures SweptExactly(s, now, GcTick(s, now, replies))
  {
    TickIsSweep(s, now, replies);
    SweptUsers(s, now);
    forall p | p in s.users ensures SweptUser(s, GcTick(s, now, replies), p) {
      SweptCanisters(s, now, p);
    }
  }

  lemma TickSparesUser(s: State, now: nat, replies: seq<CreateReply>, p: Principal)
    requires Inv(s) && Fresh(s.pool, replies) && p in GcTick(s, now, replies).users
    ensures var s' := GcTick(s, now, replies);
            && p in s.users && s'.users[p] == s.users[p]
            && s.users[p].canisterId in s.pool && s.users[p].canisterId in s'.pool
            && s'.pool[s.users[p].canisterId] == s.pool[s.users[p].canisterId]
  {
    TickExact(s, now, replies);
    assert SweptUser(s, GcTick(s, now, replies), p);
  }

  /** A creation loop leaves every user's record and lease alone. */
  lemma BatchSparesUser(s: State, replies: seq<CreateReply>, n: nat, p: Principal)
    requires Inv(s) && Fresh(s.pool, replies) && p in s.users
    ensures var s' := CreateAll(s, Accepted(replies, n));
            && s'.users == s.users
            && s.users[p].canisterId in s.pool && s.users[p].canisterId in s'.pool
            && s'.pool[s.users[p].canisterId] == s.pool[s.users[p].canisterId]
  {
    BatchAdds(s, replies, n);
    assert IsAssignedTo(s, s.users[p].canisterId, p);
  }

  /** Replenishing only adds fresh free canisters, up to the target or the first failed creation. */
  lemma TickIsSweep(s: State, now: nat, replies: seq<CreateReply>)
    ensures var s2 := SweepTrials(SweepPending(s, now), now);
            var s' := GcTick(s, now, replies);
            var done := Accepted(replies, SaturatingSub(s.poolTarget, |s.pool|));
            && s' == s2.(pool := s'.pool, available := s2.available + CreatedIds(done))
            && s2.pool.Keys == s.pool.Keys
            && s'.pool.Keys == s.pool.Keys + CreatedIds(done)
            && (Fresh(s.pool, replies) ==> forall c | c in s.pool :: s'.pool[c] == s2.pool[c])
            && (|s.pool| + |done| < s.poolTarget && |done| < |replies| ==> replies[|done|].NotCreated?)
  {
    var s2 := SweepTrials(SweepPending(s, now), now);
    assert s2.pool.Keys == s.pool.Keys;
    assert |s2.pool| == |s2.pool.Keys| == |s.pool.Keys| == |s.pool|;
    var n := SaturatingSub(s2.poolTarget, |s2.pool|);
    AcceptedIsPrefix(replies, n);
    BatchAdds(s2, replies, n);
  }

  /// Stranded canisters and stale pending entries

  predicate FailedInstall(s: State, e: Event) {
    e.Register? && RegisterUser(s, e.caller, e.now, e.username, e.installOk).1 == Failure(CallError)
  }

  /** The state `Enroll` starts from. */
  function BeforeEnroll(s: State, caller: Principal, now: nat): State {
    if ConfirmOverdue(s, caller, now) then Evict(s, caller) else s
  }

  function StrandedAfter(s: State, e: Event): set<Principal> {
    if e.PostUpgrade? then {}
    else if FailedInstall(s, e) then
      var free := BeforeEnroll(s, e.caller, e.now).available;
      Stranded(s) + (if free == {} then {} else {Least(free)})
    else Stranded(s)
  }

  lemma CreatedIsNotStranded(s: State, replies: seq<CreateReply>, n: nat)
    requires Fresh(s.pool, replies)
    ensures Stranded(CreateAll(s, Accepted(replies, n))) == Stranded(s)
  {
    BatchAdds(s, replies, n);
  }

  lemma ReleaseKeepsStranded(s: State, s': State, gone: set<Principal>)
    requires Inv(s) && Released(s, s', gone)
    ensures Stranded(s') == Stranded(s)
  {
    forall p | p in gone && p in s.users ensures s.users[p].canisterId !in Stranded(s) {
      assert IsAssignedTo(s, s.users[p].canisterId, p);
    }
  }

  /** A reservation takes its canister out of sight; committing it turns the canister into a lease. */
  lemma EnrollStrands(s: State, caller: Principal, now: nat, username: string, installOk: bool)
    requires Inv(s)
    ensures var s' := Enroll(s, caller, now, username, installOk).0;
            Stranded(s') == if s.available != {} && !installOk then Stranded(s) + {Least(s.available)} else Stranded(s)
  {}

  /** Only a failed install strands a canister, and it strands one; only a rebuild finds them again. */
  lemma StrandedExactly(s: State, e: Event)
    requires Inv(s) && Admissible(s, e)
    ensures Stranded(Next(s, e)) == StrandedAfter(s, e)
  {
    match e
    case Register(_, _, _, _) => RegisterStrands(s, e);
    case Provision(_, count, replies) => CreatedIsNotStranded(s, replies, count);
    case CreateOne(_, reply) =>
      assert [reply][0] == reply;
    case Tick(now, replies) => TickStrands(s, now, replies);
    case _ =>
  }

  lemma TickStrands(s: State, now: nat, replies: seq<CreateReply>)
    requires Inv(s) && Fresh(s.pool, replies)
    ensures Stranded(GcTick(s, now, replies)) == Stranded(s)
  {
    SweepPendingReleases(s, now);
    var s1 := SweepPending(s, now);
    ReleaseKeepsStranded(s, s1, OverdueRegistrations(s, now));
    SweepTrialsReleases(s1, now);
    var s2 := SweepTrials(s1, now);
    ReleaseKeepsStranded(s1, s2, OwnersOf(s1, OverdueTrials(s1, now)));
    assert s2.pool.Keys == s.pool.Keys;
    CreatedIsNotStranded(s2, replies, SaturatingSub(s2.poolTarget, |s2.pool|));
  }

  lemma RegisterStrands(s: State, e: Event)
    requires Inv(s) && e.Register?
    ensures Stranded(Next(s, e)) == StrandedAfter(s, e)
  {
    if !IsBlank(e.username) && (e.caller !in s.users || IsLapsed(s, e.caller, e.now)) {
      if IsLapsed(s, e.caller, e.now) {
        EvictReleases(s, e.caller);
        ReleaseKeepsStranded(s, Evict(s, e.caller), {e.caller});
      }
      EnrollStrands(BeforeEnroll(s, e.caller, e.now), e.caller, e.now, e.username, e.installOk);
    }
  }

  function StaleAfter(s: State, e: Event): set<Principal> {
    match e
    case PostUpgrade => {}
    case Tick(now, _) => Stale(s) - OverdueRegistrations(s, now)
    case Register(caller, now, _, _) =>
      if FailedInstall(s, e) then Stale(s) + (if ConfirmOverdue(s, caller, now) then {caller} else {})
      else if caller in Next(s, e).users then Stale(s) - {caller}
      else Stale(s)
    case _ => Stale(s)
  }

  /** Only a late re-registration whose install fails leaves a stale entry. */
  lemma StaleExactly(s: State, e: Event)
    requires Inv(s) && Admissible(s, e)
    ensures Stale(Next(s, e)) == StaleAfter(s, e)
  {
    match e
    case Register(_, _, _, _) => RegisterStales(s, e);
    case Provision(_, count, replies) => BatchAdds(s, replies, count);
    case Tick(now, replies) => TickStales(s, now, replies);
    case _ =>
  }

  lemma TickStales(s: State, now: nat, replies: seq<CreateReply>)
    requires Inv(s)
    ensures Stale(GcTick(s, now, replies)) == Stale(s) - OverdueRegistrations(s, now)
  {
    TickIsSweep(s, now, replies);
    var s1 := SweepPending(s, now);
    SweepPendingReleases(s, now);
    forall p | p in OwnersOf(s1, OverdueTrials(s1, now)) ensures p in s1.users {
      OverdueOwners(s1, now, p);
    }
  }

  lemma EnrollStales(s: State, caller: Principal, now: nat, username: string, installOk: bool)
    requires Inv(s) && caller !in s.users
    ensures var (s', r) := Enroll(s, caller, now, username, installOk);
            Stale(s') == if r.Success? then Stale(s) - {caller} else Stale(s)
    ensures Enroll(s, caller, now, username, installOk).1.Success? <==>
            caller in Enroll(s, caller, now, username, installOk).0.users
  {}

  lemma RegisterStales(s: State, e: Event)
    requires Inv(s) && e.Register?
    ensures Stale(Next(s, e)) == StaleAfter(s, e)
  {
    if IsBlank(e.username) {
    } else if IsLapsed(s, e.caller, e.now) {
      EvictReleases(s, e.caller);
      var s1 := Evict(s, e.caller);
      assert s.users[e.caller].canisterId in s1.available;
      assert Stale(s1) == Stale(s) + {e.caller};
      EnrollStales(s1, e.caller, e.now, e.username, e.installOk);
    } else if e.caller !in s.users {
      EnrollStales(s, e.caller, e.now, e.username, e.installOk);
    }
  }

  /** What the heap indexes hold, in every reachable state. */
  lemma IndexAgreement(es: seq<Event>)
    requires AdmissibleRun(INITIAL, es)
    ensures var s := Run(INITIAL, es);
            && (forall c :: c in s.trials <==>
                  c in s.pool && s.pool[c].state.Assigned? && s.pool[c].state.expiresAt.Some?)
            && (forall c | c in s.trials :: s.pool[c].state.expiresAt == Some(s.trials[c]))
            && (forall c | c in s.available :: c in s.pool && s.pool[c].state.Available?)
            && (forall p | p in s.users && s.users[p].status.Pending? ::
                  p in s.pending && s.users[p].status == Pending(s.pending[p]))
            && (forall p | p in s.pending && p in s.users :: s.users[p].status == Pending(s.pending[p]))
  {
    RunKeepsInv(INITIAL, es);
    assert IndexesAgree(Run(INITIAL, es));
  }

  /// The rebuild after an upgrade

  /** The rebuild repairs the two indexes that can drift and leaves everything else as it was. */
  lemma UpgradeRepairs(es: seq<Event>)
    requires AdmissibleRun(INITIAL, es)
    ensures var s := Run(INITIAL, es);
            var s' := Upgrade(s);
            && s'.trials == s.trials
            && s'.available == s.available + Stranded(s)
            && s'.pending == s.pending - Stale(s)
            && s' == s.(available := s'.available, pending := s'.pending)
            && (s' == s <==> Stranded(s) == {} && Stale(s) == {})
            && Inv(s')
  {
    RunKeepsInv(INITIAL, es);
    var s := Run(INITIAL, es);
    UpgradeKeepsInv(s);
    UpgradeIsRepair(s);
  }

  lemma UpgradeIsRepair(s: State)
    requires Inv(s)
    ensures var s' := Upgrade(s);
            && s'.available == s.available + Stranded(s)
            && s'.pending == s.pending - Stale(s)
            && s' == s.(available := s'.available, pending := s'.pending)
            && (s' == s <==> Stranded(s) == {} && Stale(s) == {})
  {
    var s' := Upgrade(s);
    assert s'.pending == s.pending - Stale(s);
    assert s'.available == s.available + Stranded(s);
    if s' == s {
      assert Stranded(s) == Stranded(s') == {};
      assert Stale(s) == Stale(s') == {};
    }
    if Stranded(s) == {} && Stale(s) == {} {
      assert s'.pending == s.pending;
      assert s'.available == s.available;
    }
  }

  ghost predicate NoFailedInstall(s: State, es: seq<Event>)
    decreases |es|
  {
    es == [] || (!FailedInstall(s, es[0]) && NoFailedInstall(Next(s, es[0]), es[1..]))
  }

  /** Since the last rebuild no install has failed: the indexes are exact and the next rebuild is a no-op. */
  lemma {:induction false} CleanRunsStayExact(s: State, es: seq<Event>)
    requires Inv(s) && Stranded(s) == {} && Stale(s) == {}
    requires AdmissibleRun(s, es) && NoFailedInstall(s, es)
    ensures var s' := Run(s, es);
            && s'.available == FreeEntries(s'.pool)
            && s'.pending == PendingEntries(s'.users)
            && Upgrade(s') == s'
    decreases |es|
  {
    if es == [] {
      UpgradeIsRepair(s);
    } else {
      NextKeepsInv(s, es[0]);
      StrandedExactly(s, es[0]);
      StaleExactly(s, es[0]);
      CleanRunsStayExact(Next(s, es[0]), es[1..]);
    }
  }

  lemma ExactSinceRebuild(before: seq<Event>, after: seq<Event>)
    requires AdmissibleRun(INITIAL, before)
    requires var s := Upgrade(Run(INITIAL, before)); AdmissibleRun(s, after) && NoFailedInstall(s, after)
    ensures var s' := Run(Upgrade(Run(INITIAL, before)), after);
            && s'.available == FreeEntries(s'.pool)
            && s'.pending == PendingEntries(s'.users)
            && Upgrade(s') == s'
  {
    RunKeepsInv(INITIAL, before);
    var s := Run(INITIAL, before);
    UpgradeKeepsInv(s);
    CleanRunsStayExact(Upgrade(s), after);
  }

  /** The drift is real: a lapsed user registers again, the install fails, and both indexes are off. */
  lemma FailedInstallDrifts()
    ensures var es := [CreateOne(true, Created(7, 0)),
                       Register(1, 0, "ann", true),
                       Register(1, PENDING_TIMEOUT_NS + 1, "ann", false)];
            && AdmissibleRun(INITIAL, es)
            && Stranded(Run(INITIAL, es)) == {7}
            && Stale(Run(INITIAL, es)) == {1}
  {
    var e1, e2, e3 := CreateOne(true, Created(7, 0)), Register(1, 0, "ann", true),
                      Register(1, PENDING_TIMEOUT_NS + 1, "ann", false);
    var s1 := Next(INITIAL, e1);
    var s2 := Next(s1, e2);
    var s3 := Next(s2, e3);
    DriftStates(s1, s2, s3);
    RunOfThree(INITIAL, e1, e2, e3);
  }

  lemma RunOfThree(s: State, e1: Event, e2: Event, e3: Event)
    ensures Run(s, [e1, e2, e3]) == Next(Next(Next(s, e1), e2), e3)
    ensures AdmissibleRun(s, [e1, e2, e3]) <==>
            Admissible(s, e1) && Admissible(Next(s, e1), e2) && Admissible(Next(Next(s, e1), e2), e3)
  {
    var s1 := Next(s, e1);
    var s2 := Next(s1, e2);
    assert [e1, e2, e3][1..] == [e2, e3] && [e2, e3][1..] == [e3] && [e3][1..] == [];
    assert Run(s2, [e3]) == Next(s2, e3);
    assert Run(s1, [e2, e3]) == Run(s2, [e3]);
    assert AdmissibleRun(s2, [e3]) <==> Admissible(s2, e3);
    assert AdmissibleRun(s1, [e2, e3]) <==> Admissible(s1, e2) && AdmissibleRun(s2, [e3]);
  }

  lemma DriftStates(s1: State, s2: State, s3: State)
    requires s1 == Create(INITIAL, Created(7, 0))
    requires s2 == RegisterUser(s1, 1, 0, "ann", true).0
    requires s3 == RegisterUser(s2, 1, PENDING_TIMEOUT_NS + 1, "ann", false).0
    ensures Stranded(s3) == {7} && Stale(s3) == {1}
  {
    assert 'a' in "ann";
    assert s1.available == {7};
    assert s2.available == {};
    assert Evict(s2, 1).available == {7};
    assert s3.pending == map[1 := 0];
  }

  /// Managers

  lemma NextKeepsManagers(s: State, e: Event)
    requires s.managers != {}
    ensures Next(s, e).managers != {}
    ensures e.ClaimManager? ==> ClaimManagerRole(s, e.caller) == (s, Failure(RoleAlreadyClaimed))
  {
    NextOutline(s, e);
    if e.Demote? {
      DemoteLeavesOne(s, e.caller, e.user);
    }
  }

  lemma DemoteLeavesOne(s: State, caller: Principal, user: Principal)
    requires s.managers != {}
    ensures RemoveManager(s, caller, user).0.managers != {}
  {
    if caller in s.managers && s.managers <= {user} {
      assert s.managers == {user};
    }
  }

  /** The set of managers changes only by the first claim or by a current manager. */
  lemma ManagersChangeOnlyByManagers(s: State, e: Event)
    requires Next(s, e).managers != s.managers
    ensures (e.ClaimManager? && s.managers == {}) || ((e.Promote? || e.Demote?) && e.caller in s.managers)
  {
    NextOutline(s, e);
  }

  /** How many claims of the manager role succeed along a run. */
  function Claims(s: State, es: seq<Event>): nat
    decreases |es|
  {
    if es == [] then 0
    else (if es[0].ClaimManager? && ClaimManagerRole(s, es[0].caller).1.Success? then 1 else 0)
         + Claims(Next(s, es[0]), es[1..])
  }

  /** The role can be claimed once; from then on there always is a manager. */
  lemma {:induction false} RoleClaimedAtMostOnce(s: State, es: seq<Event>)
    ensures Claims(s, es) <= 1
    ensures s.managers != {} ==> Claims(s, es) == 0 && Run(s, es).managers != {}
    ensures Claims(s, es) == 1 ==> Run(s, es).managers != {}
    decreases |es|
  {
    if es != [] {
      if s.managers != {} {
        NextKeepsManagers(s, es[0]);
      }
      RoleClaimedAtMostOnce(Next(s, es[0]), es[1..]);
    }
  }

  /// User ids

  /** A record whose id was already spent before a message was there before the message, at the same canister. */
  lemma OldIdsAreOldRecords(s: State, e: Event, p: Principal)
    requires Inv(s) && Admissible(s, e)
    requires p in Next(s, e).users && Next(s, e).users[p].userId < s.nextUserId
    ensures p in s.users
    ensures SameRegistration(s.users[p], Next(s, e).users[p])
  {
    match e
    case Register(caller, now, username, installOk) =>
      OldIdsSurviveRegister(s, caller, now, username, installOk, p);
    case Provision(_, count, replies) => BatchAdds(s, replies, count);
    case Tick(now, replies) => TickSparesUser(s, now, replies, p);
    case _ =>
  }

  /** The same registration, confirmed or not. */
  predicate SameRegistration(u: User, v: User) {
    u.(status := Active) == v.(status := Active)
  }

  lemma OldIdsSurviveRegister(s: State, caller: Principal, now: nat, username: string, installOk: bool, p: Principal)
    requires Inv(s)
    requires var s' := RegisterUser(s, caller, now, username, installOk).0;
             p in s'.users && s'.users[p].userId < s.nextUserId
    ensures p in s.users
    ensures s.users[p] == RegisterUser(s, caller, now, username, installOk).0.users[p]
  {
    if p in s.users && p != caller {
      RegistrationSparesOthers(s, caller, now, username, installOk, p);
    } else {
      RegistrationEffect(s, caller, now, username, installOk);
    }
  }

  /** Along a run a user id names one registration: it is never given to another record. */
  lemma {:induction false} UserIdsNeverReused(s: State, es: seq<Event>, p: Principal)
    requires Inv(s) && AdmissibleRun(s, es)
    requires p in Run(s, es).users && Run(s, es).users[p].userId < s.nextUserId
    ensures s.nextUserId <= Run(s, es).nextUserId
    ensures p in s.users
    ensures SameRegistration(s.users[p], Run(s, es).users[p])
    decreases |es|
  {
    if es != [] {
      NextKeepsInv(s, es[0]);
      NextOutline(s, es[0]);
      UserIdsNeverReused(Next(s, es[0]), es[1..], p);
      OldIdsAreOldRecords(s, es[0], p);
    }
  }

  /** A pending registration becomes active in one way: its own canister confirms it. */
  lemma ActivatedOnlyByOwnCanister(s: State, e: Event, p: Principal)
    requires Inv(s) && Admissible(s, e)
    requires p in s.users && s.users[p].status.Pending? && p in Next(s, e).users && Next(s, e).users[p].status.Active?
    ensures e == Confirm(s.users[p].canisterId, p)
    ensures p !in Next(s, e).pending && SameRegistration(s.users[p], Next(s, e).users[p])
  {
    match e
    case Register(caller, now, username, installOk) => RegisterNeverActivates(s, caller, now, username, installOk, p);
    case Provision(_, count, replies) => BatchAdds(s, replies, count);
    case Tick(now, replies) => TickSparesUser(s, now, replies, p);
    case _ =>
  }

  lemma RegisterNeverActivates(s: State, caller: Principal, now: nat, username: string, installOk: bool, p: Principal)
    requires Inv(s) && p in s.users && s.users[p].status.Pending?
    ensures var s' := RegisterUser(s, caller, now, username, installOk).0;
            p in s'.users ==> s'.users[p].status.Pending?
  {
    if caller != p {
      RegistrationSparesOthers(s, caller, now, username, installOk, p);
    }
  }

  /// Permanent leases

  ghost predicate HoldsPermanently(s: State, p: Principal, userId: nat) {
    && p in s.users
    && s.users[p].userId == userId
    && s.users[p].canisterId in s.pool
    && s.pool[s.users[p].canisterId].state == Assigned(p, None)
  }

  lemma ClaimMakesPermanent(s: State, caller: Principal)
    requires Inv(s) && s.managers == {} && caller in s.users
    ensures HoldsPermanently(ClaimManagerRole(s, caller).0, caller, s.users[caller].userId)
  {
    assert IsAssignedTo(s, s.users[caller].canisterId, caller);
  }

  /**
   * As long as a registration lasts, no message changes its lease, except that the first claim of the
   * manager role drops the claimer's expiry.
   */
  lemma LeaseFixed(s: State, e: Event, p: Principal)
    requires Inv(s) && Admissible(s, e)
    requires p in s.users && p in Next(s, e).users && Next(s, e).users[p].userId == s.users[p].userId
    ensures var c := s.users[p].canisterId;
            && Next(s, e).users[p].canisterId == c
            && c in s.pool && c in Next(s, e).pool
            && Next(s, e).pool[c] ==
               if e == ClaimManager(p) && s.managers == {} then s.pool[c].(state := Assigned(p, None)) else s.pool[c]
  {
    assert IsAssignedTo(s, s.users[p].canisterId, p);
    match e
    case Register(caller, now, username, installOk) => RegisterKeepsLease(s, caller, now, username, installOk, p);
    case ClaimManager(caller) => ClaimKeepsLease(s, caller, p);
    case Provision(_, count, replies) => BatchSparesUser(s, replies, count, p);
    case CreateOne(_, reply) =>
      assert [reply][0] == reply;
    case Tick(now, replies) => TickSparesUser(s, now, replies, p);
    case _ =>
  }

  lemma RegisterKeepsLease(s: State, caller: Principal, now: nat, username: string, installOk: bool, p: Principal)
    requires Inv(s) && p in s.users
    requires var s' := RegisterUser(s, caller, now, username, installOk).0;
             p in s'.users && s'.users[p].userId == s.users[p].userId
    ensures var s' := RegisterUser(s, caller, now, username, installOk).0;
            && s'.users[p].canisterId == s.users[p].canisterId
            && s.users[p].canisterId in s.pool && s.users[p].canisterId in s'.pool
            && s'.pool[s.users[p].canisterId] == s.pool[s.users[p].canisterId]
  {
    assert IsAssignedTo(s, s.users[p].canisterId, p);
    if caller != p {
      RegistrationSparesOthers(s, caller, now, username, installOk, p);
    }
  }

  lemma ClaimKeepsLease(s: State, caller: Principal, p: Principal)
    requires Inv(s) && p in s.users
    ensures var s' := ClaimManagerRole(s, caller).0;
            var c := s.users[p].canisterId;
            && s'.users == s.users && c in s.pool && c in s'.pool
            && s'.pool[c] ==
               if caller == p && s.managers == {} then s.pool[c].(state := Assigned(p, None)) else s.pool[c]
  {
    assert IsAssignedTo(s, s.users[p].canisterId, p);
    if caller in s.users {
      assert IsAssignedTo(s, s.users[caller].canisterId, caller);
    }
  }

  lemma NextKeepsPermanence(s: State, e: Event, p: Principal, userId: nat)
    requires Inv(s) && Admissible(s, e) && HoldsPermanently(s, p, userId)
    requires p in Next(s, e).users && Next(s, e).users[p].userId == userId
    ensures HoldsPermanently(Next(s, e), p, userId)
  {
    LeaseFixed(s, e, p);
  }

  /** No trial sweep, at any time, selects canister `c`. */
  ghost predicate SafeFromTrialSweeps(s: State, c: Principal) {
    forall now :: c !in OverdueTrials(SweepPending(s, now), now)
  }

  /**
   * A permanent lease lasts as long as its registration: while `p` keeps the record `userId`, the
   * lease has no expiry and no trial sweep selects the canister.
   */
  lemma {:induction false} PermanentWhileKept(s: State, es: seq<Event>, p: Principal, userId: nat)
    requires Inv(s) && AdmissibleRun(s, es) && HoldsPermanently(s, p, userId)
    requires p in Run(s, es).users && Run(s, es).users[p].userId == userId
    ensures HoldsPermanently(Run(s, es), p, userId)
    ensures Run(s, es).users[p].canisterId == s.users[p].canisterId
    ensures SafeFromTrialSweeps(Run(s, es), s.users[p].canisterId)
    decreases |es|
  {
    if es == [] {
    } else {
      var s1 := Next(s, es[0]);
      NextKeepsInv(s, es[0]);
      NextOutline(s, es[0]);
      UserIdsNeverReused(s1, es[1..], p);
      OldIdsAreOldRecords(s, es[0], p);
      NextKeepsPermanence(s, es[0], p, userId);
      PermanentWhileKept(s1, es[1..], p, userId);
    }
  }
}
