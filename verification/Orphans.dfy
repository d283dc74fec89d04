/** What an upgrade in the middle of a sweep leaves behind: a lease that no user record names. */
module Orphans {
  import opened Prelude
  import opened IndexState
  import opened IndexInvariants
  import opened Sweeps

  /** A lease on `c` that no user record names; it has a trial clock exactly if it has an expiry. */
  ghost predicate Orphan(s: State, c: Principal) {
    && c in s.pool && s.pool[c].state.Assigned? && c !in s.available
    && (forall p | p in s.users :: s.users[p].canisterId != c)
    && (c in s.trials <==> s.pool[c].state.expiresAt.Some?)
    && (c in s.trials ==> s.trials[c] == s.pool[c].state.expiresAt.value)
  }

  lemma UpgradeLeavesOrphan(a: SweepState)
    requires SweepInv(a) && !a.phase.Idle?
    ensures Orphan(Upgrade(a.index), a.returning.value)
  {
    forall p | p in a.index.users ensures a.index.users[p].canisterId != a.returning.value {
      ReturningIsNobodys(a, p);
    }
  }

  /** A sweep takes an orphaned lease back exactly when its expiry has passed. */
  predicate FreesOrphan(s: State, e: Event, c: Principal)
    requires c in s.pool && s.pool[c].state.Assigned?
  {
    var x := s.pool[c].state.expiresAt;
    e.Tick? && x.Some? && x.value <= e.now
  }

  /**
   * The orphaned lease stays as it is; or the canister is free and on offer, and the record that its owner
   * may have by now for another canister is gone.
   */
  ghost predicate OrphanAfter(s: State, c: Principal, freed: bool, s': State) {
    c in s.pool && s.pool[c].state.Assigned? && c in s'.pool &&
    if freed then s'.pool[c].state.Available? && c in s'.available && s.pool[c].state.owner !in s'.users
    else Orphan(s', c) && s'.pool[c] == s.pool[c]
  }

  lemma OrphanStays(s: State, e: Event, c: Principal)
    requires Admissible(s, e) && Orphan(s, c)
    ensures OrphanAfter(s, c, FreesOrphan(s, e, c), Next(s, e))
  {
    match e
    case Tick(now, replies) => TickAndOrphan(s, now, replies, c);
    case Register(caller, now, username, installOk) => RegisterAndOrphan(s, caller, now, username, installOk, c);
    case Provision(_, count, replies) => BatchAdds(s, replies, count);
    case CreateOne(_, reply) =>
      assert [reply][0] == reply;
    case _ =>
  }

  lemma TickAndOrphan(s: State, now: nat, replies: seq<CreateReply>, c: Principal)
    requires Fresh(s.pool, replies) && Orphan(s, c)
    ensures OrphanAfter(s, c, FreesOrphan(s, Tick(now, replies), c), GcTick(s, now, replies))
  {
    var s1 := SweepPending(s, now);
    assert OrphanAfter(s, c, false, s1);
    var s2 := SweepTrials(s1, now);
    var freed := FreesOrphan(s, Tick(now, replies), c);
    assert c in OverdueTrials(s1, now) <==> freed;
    assert freed ==> s.pool[c].state.owner in OwnersOf(s1, OverdueTrials(s1, now));
    assert OrphanAfter(s, c, freed, s2);
    assert s2.pool.Keys == s.pool.Keys;
    BatchAdds(s2, replies, SaturatingSub(s2.poolTarget, |s2.pool|));
  }

  lemma RegisterAndOrphan(
    s: State, caller: Principal, now: nat, username: string, installOk: bool, c: Principal)
    requires Orphan(s, c)
    ensures OrphanAfter(s, c, false, RegisterUser(s, caller, now, username, installOk).0)
  {
    if !IsBlank(username) {
      if IsLapsed(s, caller, now) {
        assert OrphanAfter(s, c, false, Evict(s, caller));
        EnrollAndOrphan(Evict(s, caller), caller, now, username, installOk, c);
      } else if caller !in s.users {
        EnrollAndOrphan(s, caller, now, username, installOk, c);
      }
    }
  }

  lemma EnrollAndOrphan(s: State, caller: Principal, now: nat, username: string, installOk: bool, c: Principal)
    requires Orphan(s, c)
    ensures OrphanAfter(s, c, false, Enroll(s, caller, now, username, installOk).0)
  {}

  /** No sweep of the run comes at or after the expiry of the lease on `c`. */
  ghost predicate NeverFreed(s: State, es: seq<Event>, c: Principal)
    requires c in s.pool && s.pool[c].state.Assigned?
  {
    forall i | 0 <= i < |es| :: !FreesOrphan(s, es[i], c)
  }

  lemma {:induction false} OrphanLasts(s: State, es: seq<Event>, c: Principal)
    requires AdmissibleRun(s, es) && Orphan(s, c) && NeverFreed(s, es, c)
    ensures OrphanAfter(s, c, false, Run(s, es))
    decreases |es|
  {
    if es != [] {
      assert !FreesOrphan(s, es[0], c);
      OrphanStays(s, es[0], c);
      assert forall i | 0 <= i < |es[1..]| :: es[1..][i] == es[i + 1];
      OrphanLasts(Next(s, es[0]), es[1..], c);
    }
  }

  /**
   * Any run after an upgrade that cut a sweep short: as long as no sweep came at or after its expiry, the
   * lease is still there, and the next message takes it back exactly if it is such a sweep.
   */
  lemma OrphanFreedIff(a: SweepState, es: seq<Event>, e: Event)
    requires SweepInv(a) && !a.phase.Idle?
    requires var s, c := Upgrade(a.index), a.returning.value;
             AdmissibleRun(s, es) && Admissible(Run(s, es), e) && c in s.pool && s.pool[c].state.Assigned? &&
             NeverFreed(s, es, c)
    ensures var s, c := Upgrade(a.index), a.returning.value;
            && OrphanAfter(s, c, false, Run(s, es))
            && OrphanAfter(s, c, FreesOrphan(s, e, c), Next(Run(s, es), e))
  {
    var s, c := Upgrade(a.index), a.returning.value;
    UpgradeLeavesOrphan(a);
    OrphanLasts(s, es, c);
    OrphanStays(Run(s, es), e, c);
  }

  /** Without an expiry the canister is lost for good. */
  lemma PermanentOrphanIsLost(a: SweepState, es: seq<Event>)
    requires SweepInv(a) && !a.phase.Idle? && a.index.pool[a.returning.value].state.expiresAt.None?
    requires AdmissibleRun(Upgrade(a.index), es)
    ensures Orphan(Run(Upgrade(a.index), es), a.returning.value)
  {
    UpgradeLeavesOrphan(a);
    OrphanLasts(Upgrade(a.index), es, a.returning.value);
  }
}
