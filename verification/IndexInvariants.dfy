/** What every message keeps, and what holds in every reachable state of the canister pool. */
module IndexInvariants {
  import opened Prelude
  import opened IndexState

  /** Every user record points at a lease held by that user. */
  ghost predicate UsersHoldLeases(s: State) {
    forall p | p in s.users :: s.users[p].principal == p && IsAssignedTo(s, s.users[p].canisterId, p)
  }

  /** Every lease belongs to a user record that points back at it. */
  ghost predicate LeasesHaveUsers(s: State) {
    forall c | c in s.pool ::
      && s.pool[c].canisterId == c
      && (s.pool[c].state.Assigned? ==>
            s.pool[c].state.owner in s.users && s.users[s.pool[c].state.owner].canisterId == c)
  }

  ghost predicate IndexesAgree(s: State) {
    && s.trials == TrialEntries(s.pool)
    && s.available <= FreeEntries(s.pool)
    && (forall p | p in s.users ::
          match s.users[p].status
          case Pending(ts) => p in s.pending && s.pending[p] == ts
          case Active => p !in s.pending)
  }

  ghost predicate UserIdsUnique(s: State) {
    && (forall p | p in s.users :: 1 <= s.users[p].userId < s.nextUserId)
    && (forall p, q | p in s.users && q in s.users && s.users[p].userId == s.users[q].userId :: p == q)
  }

  ghost predicate Inv(s: State) {
    && UsersHoldLeases(s)
    && LeasesHaveUsers(s)
    && IndexesAgree(s)
    && UserIdsUnique(s)
    && 1 <= s.nextUserId
    && 0 < s.poolTarget
  }

  /** `after` is `before` without the users `gone`, whose canisters are back in the pool. */
  ghost predicate Released(before: State, after: State, gone: set<Principal>) {
    var freed := CanistersOf(before, gone);
    && after.users == before.users - gone
    && after.pool == SetFree(before.pool, freed)
    && after.available == before.available + freed
    && after.trials == before.trials - freed
    && (forall p | p !in gone :: (p in after.pending <==> p in before.pending))
    && (forall p | p !in gone && p in before.pending :: after.pending[p] == before.pending[p])
    && after.nextUserId == before.nextUserId
    && after.poolTarget == before.poolTarget
    && after.managers == before.managers
  }

  lemma ReleasedLeases(s: State, s': State, gone: set<Principal>)
    requires Inv(s) && Released(s, s', gone)
    ensures UsersHoldLeases(s') && LeasesHaveUsers(s')
  {
    var freed := CanistersOf(s, gone);
    forall p | p in s'.users ensures s'.users[p].principal == p && IsAssignedTo(s', s'.users[p].canisterId, p) {
      var c := s.users[p].canisterId;
      assert IsAssignedTo(s, c, p);
      assert c !in freed;
    }
  }

  lemma ReleasedIndexes(s: State, s': State, gone: set<Principal>)
    requires Inv(s) && Released(s, s', gone)
    ensures IndexesAgree(s')
  {
    assert s'.trials == TrialEntries(s'.pool);
  }

  lemma ReleaseKeepsInv(s: State, s': State, gone: set<Principal>)
    requires Inv(s) && Released(s, s', gone)
    ensures Inv(s')
  {
    ReleasedLeases(s, s', gone);
    ReleasedIndexes(s, s', gone);
  }

  /** Under the invariant a sweep of canisters is a sweep of their owners. */
  lemma OverdueTrialsAreLeases(s: State, now: nat)
    requires Inv(s)
    ensures CanistersOf(s, OwnersOf(s, OverdueTrials(s, now))) == OverdueTrials(s, now)
  {
    var cs := OverdueTrials(s, now);
    var owners := OwnersOf(s, cs);
    forall c | c in cs ensures c in CanistersOf(s, owners) {
      assert s.pool[c].state.owner in owners;
    }
    forall p | p in owners && p in s.users ensures s.users[p].canisterId in cs {
      var c :| c in cs && c in s.pool && s.pool[c].state.Assigned? && s.pool[c].state.owner == p;
    }
  }

  lemma SweepPendingReleases(s: State, now: nat)
    requires Inv(s)
    ensures Released(s, SweepPending(s, now), OverdueRegistrations(s, now))
    ensures Inv(SweepPending(s, now))
  {
    ReleaseKeepsInv(s, SweepPending(s, now), OverdueRegistrations(s, now));
  }

  lemma SweepTrialsReleases(s: State, now: nat)
    requires Inv(s)
    ensures Released(s, SweepTrials(s, now), OwnersOf(s, OverdueTrials(s, now)))
    ensures Inv(SweepTrials(s, now))
  {
    OverdueTrialsAreLeases(s, now);
    ReleaseKeepsInv(s, SweepTrials(s, now), OwnersOf(s, OverdueTrials(s, now)));
  }

  lemma EvictReleases(s: State, p: Principal)
    requires Inv(s) && p in s.users
    ensures Released(s, Evict(s, p), {p})
    ensures Inv(Evict(s, p))
  {
    assert CanistersOf(s, {p}) == {s.users[p].canisterId};
    ReleaseKeepsInv(s, Evict(s, p), {p});
  }

  lemma ReserveKeepsInv(s: State, caller: Principal, now: nat, username: string)
    requires Inv(s)
    ensures Inv(Reserve(s, caller, now, username).0)
  {}

  /** A reservation that may be committed: its canister is free and unlisted, its id is spent and unused. */
  ghost predicate Committable(s: State, r: Reservation) {
    && r.canisterId in Stranded(s)
    && r.principal !in s.users
    && 1 <= r.userId < s.nextUserId
    && forall p | p in s.users :: s.users[p].userId != r.userId
  }

  lemma CommitLeases(s: State, r: Reservation)
    requires Inv(s) && Committable(s, r)
    ensures UsersHoldLeases(Commit(s, r)) && LeasesHaveUsers(Commit(s, r))
  {
    var s' := Commit(s, r);
    forall p | p in s'.users ensures s'.users[p].principal == p && IsAssignedTo(s', s'.users[p].canisterId, p) {
      if p != r.principal {
        assert IsAssignedTo(s, s.users[p].canisterId, p);
      }
    }
  }

  lemma CommitTrials(s: State, r: Reservation)
    requires Inv(s) && Committable(s, r)
    ensures Commit(s, r).trials == TrialEntries(Commit(s, r).pool)
    ensures Commit(s, r).available <= FreeEntries(Commit(s, r).pool)
  {}

  lemma CommitIndexes(s: State, r: Reservation)
    requires Inv(s) && Committable(s, r)
    ensures IndexesAgree(Commit(s, r)) && UserIdsUnique(Commit(s, r))
  {
    CommitTrials(s, r);
  }

  lemma CommitKeepsInv(s: State, r: Reservation)
    requires Inv(s) && Committable(s, r)
    ensures Inv(Commit(s, r))
  {
    CommitLeases(s, r);
    CommitIndexes(s, r);
  }

  lemma EnrollKeepsInv(s: State, caller: Principal, now: nat, username: string, installOk: bool)
    requires Inv(s) && caller !in s.users
    ensures Inv(Enroll(s, caller, now, username, installOk).0)
  {
    ReserveKeepsInv(s, caller, now, username);
    var (s', r) := Reserve(s, caller, now, username);
    if r.Some? && installOk {
      CommitKeepsInv(s', r.value);
    }
  }

  lemma CreateKeepsInv(s: State, reply: CreateReply)
    requires Inv(s) && Fresh(s.pool, [reply])
    ensures Inv(Create(s, reply))
  {
    var s' := Create(s, reply);
    assert [reply][0] == reply;
    assert s'.trials == TrialEntries(s'.pool);
    forall p | p in s'.users ensures IsAssignedTo(s', s'.users[p].canisterId, p) {
      assert IsAssignedTo(s, s.users[p].canisterId, p);
    }
  }

  /** A batch of creations adds exactly the accepted ids. */
  lemma {:induction false} CreateAllAdds(s: State, replies: seq<CreateReply>)
    requires forall r | r in replies :: r.Created?
    ensures var s' := CreateAll(s, replies);
            var ids := CreatedIds(replies);
            && s'.pool.Keys == s.pool.Keys + ids
            && s'.available == s.available + ids
            && (forall c | c in ids :: s'.pool[c].state.Available?)
            && (forall c | c in s.pool && c !in ids :: s'.pool[c] == s.pool[c])
            && s' == s.(pool := s'.pool, available := s'.available)
  {
    if replies != [] {
      var n := |replies| - 1;
      assert replies == replies[..n] + [replies[n]];
      CreateAllAdds(s, replies[..n]);
    }
  }

  /** After the first replies have been used, the next one is still fresh. */
  lemma NextReplyFresh(s: State, replies: seq<CreateReply>)
    requires replies != [] && Fresh(s.pool, replies) && forall r | r in replies :: r.Created?
    ensures var n := |replies| - 1;
            Fresh(s.pool, replies[..n]) && Fresh(CreateAll(s, replies[..n]).pool, [replies[n]])
  {
    var n := |replies| - 1;
    CreateAllAdds(s, replies[..n]);
    assert replies[n] in replies;
    forall r | r in replies[..n] ensures r.id != replies[n].id {
      var i :| 0 <= i < n && replies[i] == r;
    }
  }

  lemma {:induction false} CreateAllKeepsInv(s: State, replies: seq<CreateReply>)
    requires Inv(s) && Fresh(s.pool, replies) && forall r | r in replies :: r.Created?
    ensures Inv(CreateAll(s, replies))
    decreases |replies|
  {
    if replies != [] {
      var n := |replies| - 1;
      NextReplyFresh(s, replies);
      CreateAllKeepsInv(s, replies[..n]);
      CreateKeepsInv(CreateAll(s, replies[..n]), replies[n]);
    }
  }

  lemma {:induction false} AcceptedIsPrefix(replies: seq<CreateReply>, n: nat)
    ensures Accepted(replies, n) <= replies
    ensures |Accepted(replies, n)| <= n
    ensures forall r | r in Accepted(replies, n) :: r.Created?
    ensures |Accepted(replies, n)| < n && |Accepted(replies, n)| < |replies| ==>
            replies[|Accepted(replies, n)|].NotCreated?
    decreases n
  {
    if n != 0 && replies != [] && replies[0].Created? {
      AcceptedIsPrefix(replies[1..], n - 1);
    }
  }

  /** A creation loop touches nothing but the pool and the free list, where it adds fresh free canisters. */
  lemma BatchAdds(s: State, replies: seq<CreateReply>, n: nat)
    ensures var s' := CreateAll(s, Accepted(replies, n));
            var ids := CreatedIds(Accepted(replies, n));
            && s' == s.(pool := s'.pool, available := s.available + ids)
            && s'.pool.Keys == s.pool.Keys + ids
            && (Fresh(s.pool, replies) ==> ids !! s.pool.Keys)
            && (forall c | c in ids :: s'.pool[c].state.Available?)
            && (forall c | c in s.pool && c !in ids :: s'.pool[c] == s.pool[c])
  {
    var done := Accepted(replies, n);
    AcceptedIsPrefix(replies, n);
    CreateAllAdds(s, done);
    if Fresh(s.pool, replies) {
      forall c | c in CreatedIds(done) ensures c !in s.pool {
        var i :| 0 <= i < |done| && done[i].id == c;
        assert replies[i] == done[i];
      }
    }
  }

  lemma BatchKeepsInv(s: State, replies: seq<CreateReply>, n: nat)
    requires Inv(s) && Fresh(s.pool, replies)
    ensures Inv(CreateAll(s, Accepted(replies, n)))
  {
    AcceptedIsPrefix(replies, n);
    CreateAllKeepsInv(s, Accepted(replies, n));
  }

  lemma RegisterKeepsInv(s: State, caller: Principal, now: nat, username: string, installOk: bool)
    requires Inv(s)
    ensures Inv(RegisterUser(s, caller, now, username, installOk).0)
  {
    if IsBlank(username) {
    } else if IsLapsed(s, caller, now) {
      EvictReleases(s, caller);
      EnrollKeepsInv(Evict(s, caller), caller, now, username, installOk);
    } else if caller !in s.users {
      EnrollKeepsInv(s, caller, now, username, installOk);
    }
  }

  lemma ConfirmKeepsInv(s: State, caller: Principal, p: Principal)
    requires Inv(s)
    ensures Inv(ConfirmRegistration(s, caller, p).0)
  {
    var s' := ConfirmRegistration(s, caller, p).0;
    forall q | q in s'.users ensures s'.users[q].principal == q && IsAssignedTo(s', s'.users[q].canisterId, q) {
      assert IsAssignedTo(s, s.users[q].canisterId, q);
    }
  }

  lemma MakePermanentTrials(s: State, caller: Principal)
    requires Inv(s)
    ensures MakePermanent(s, caller).trials == TrialEntries(MakePermanent(s, caller).pool)
    ensures FreeEntries(MakePermanent(s, caller).pool) == FreeEntries(s.pool)
  {}

  lemma MakePermanentKeepsInv(s: State, caller: Principal)
    requires Inv(s)
    ensures Inv(MakePermanent(s, caller))
  {
    var s' := MakePermanent(s, caller);
    MakePermanentTrials(s, caller);
    forall q | q in s'.users ensures IsAssignedTo(s', s'.users[q].canisterId, q) {
      assert IsAssignedTo(s, s.users[q].canisterId, q);
    }
  }

  lemma TickKeepsInv(s: State, now: nat, replies: seq<CreateReply>)
    requires Inv(s) && Fresh(s.pool, replies)
    ensures Inv(GcTick(s, now, replies))
  {
    SweepPendingReleases(s, now);
    var s1 := SweepPending(s, now);
    SweepTrialsReleases(s1, now);
    var s2 := SweepTrials(s1, now);
    assert s2.pool.Keys == s.pool.Keys;
    BatchKeepsInv(s2, replies, SaturatingSub(s2.poolTarget, |s2.pool|));
  }

  lemma UpgradeKeepsInv(s: State)
    requires Inv(s)
    ensures Inv(Upgrade(s))
  {
    var s' := Upgrade(s);
    forall p | p in s'.users ensures IsAssignedTo(s', s'.users[p].canisterId, p) {
      assert IsAssignedTo(s, s.users[p].canisterId, p);
    }
  }

  lemma NextKeepsInv(s: State, e: Event)
    requires Inv(s) && Admissible(s, e)
    ensures Inv(Next(s, e))
  {
    match e
    case Register(caller, now, username, installOk) => RegisterKeepsInv(s, caller, now, username, installOk);
    case Confirm(caller, user) => ConfirmKeepsInv(s, caller, user);
    case ClaimManager(caller) =>
      if s.managers == {} {
        MakePermanentKeepsInv(s, caller);
        ManagersDoNotMatter(MakePermanent(s, caller), {caller});
      }
    case Promote(caller, user) => ManagersDoNotMatter(s, s.managers + {user});
    case Demote(caller, user) => ManagersDoNotMatter(s, s.managers - {user});
    case Provision(caller, count, replies) => BatchKeepsInv(s, replies, count);
    case CreateOne(authorized, reply) => if authorized { CreateKeepsInv(s, reply); }
    case Tick(now, replies) => TickKeepsInv(s, now, replies);
    case PostUpgrade => UpgradeKeepsInv(s);
  }

  lemma ManagersDoNotMatter(s: State, managers: set<Principal>)
    requires Inv(s)
    ensures Inv(s.(managers := managers))
  {
    var s' := s.(managers := managers);
    forall q | q in s'.users ensures IsAssignedTo(s', s'.users[q].canisterId, q) {
      assert IsAssignedTo(s, s.users[q].canisterId, q);
    }
  }

  /** Every reachable state satisfies the invariant. */
  lemma {:induction false} RunKeepsInv(s: State, es: seq<Event>)
    requires Inv(s) && AdmissibleRun(s, es)
    ensures Inv(Run(s, es))
    decreases |es|
  {
    if es != [] {
      NextKeepsInv(s, es[0]);
      RunKeepsInv(Next(s, es[0]), es[1..]);
    }
  }

  lemma InitialInv()
    ensures Inv(INITIAL)
  {}
}
