/** Why a late re-registration never frees a canister that a running sweep has in its snapshot. */
module TrialClocks {
  import opened Prelude
  import opened IndexState
  import opened IndexInvariants
  import opened IndexTheorems
  import opened Sweeps
  import opened SweepOutcomes

  /** The trial of a pending user ends an hour after the registration. */
  ghost predicate PendingClock(s: State, p: Principal)
    requires p in s.users
  {
    var c := s.users[p].canisterId;
    s.users[p].status.Pending? && c in s.pool && s.pool[c].state.Assigned? && s.pool[c].state.expiresAt.Some? ==>
      s.pool[c].state.expiresAt.value == s.users[p].status.since + TRIAL_EXPIRY_NS
  }

  /** Pending users with overdue trials are on the list, so the snapshot holds canisters of active users only. */
  ghost predicate ClockInv(a: SweepState) {
    && (forall p | p in a.index.users :: PendingClock(a.index, p))
    && (match a.phase
        case Idle => true
        case Lapsed(ps, now) =>
          forall p | p in a.index.users && a.index.users[p].status.Pending? && TrialOverdue(a.index, p, now) :: p in ps
        case Overdue(cs) =>
          forall p | p in a.index.users && a.index.users[p].canisterId in cs :: a.index.users[p].status.Active?)
  }

  lemma {:induction false} ContinueKeepsClock(s: State, phase: Phase)
    requires Inv(Settled(SweepState(s, phase, None))) && ClockInv(SweepState(s, phase, None))
    ensures ClockInv(Continue(s, phase))
    decreases phase.Lapsed?, |Todo(phase)|
  {
    match phase
    case Idle =>
    case Lapsed(ps, now) =>
      if ps == [] {
        SnapshotOfActive(s, now);
        SnapshotIsLeased(s, now);
        ContinueKeepsClock(s, Overdue(Ascending(OverdueTrials(s, now))));
      } else {
        assert forall p | p in ps && p != ps[0] :: p in ps[1..];
        if ps[0] !in s.users {
          SkippedEntry(s, ps);
          ContinueKeepsClock(s, Lapsed(ps[1..], now));
        } else {
          RecordsGone(SweepState(s, phase, None), Continue(s, phase));
        }
      }
    case Overdue(cs) =>
      ContinueFrame(s, phase);
      RecordsGone(SweepState(s, phase, None), Continue(s, phase));
  }

  lemma SnapshotOfActive(s: State, now: nat)
    requires Inv(Settled(SweepState(s, Lapsed([], now), None))) && ClockInv(SweepState(s, Lapsed([], now), None))
    ensures ClockInv(SweepState(s, Overdue(Ascending(OverdueTrials(s, now))), None))
  {
    var a := SweepState(s, Lapsed([], now), None);
    assert Settled(a).pool == s.pool && Settled(a).trials == s.trials;
    forall p | p in s.users && s.users[p].canisterId in OverdueTrials(s, now) ensures s.users[p].status.Active? {
      assert TrialOverdue(s, p, now);
    }
  }

  /** Fewer records, on the same pool, with at most the first of the list gone. */
  lemma RecordsGone(a: SweepState, b: SweepState)
    requires ClockInv(a)
    requires forall p | p in b.index.users :: p in a.index.users && b.index.users[p] == a.index.users[p]
    requires forall p | p in b.index.users :: PoolKept(a.index, b.index, a.index.users[p].canisterId)
    requires b.phase.Idle? || (a.phase.Lapsed? && b.phase.Lapsed? && a.phase.now == b.phase.now &&
                               forall p | p in a.phase.users && p in b.index.users :: p in b.phase.users) ||
             (a.phase.Overdue? && b.phase.Overdue? && forall c | c in b.phase.canisters :: c in a.phase.canisters)
    ensures ClockInv(b)
  {
    forall p | p in b.index.users ensures PendingClock(b.index, p) {
      assert PendingClock(a.index, p);
      assert PoolKept(a.index, b.index, a.index.users[p].canisterId);
    }
  }

  ghost predicate PoolKept(s: State, t: State, c: Principal) {
    (c in s.pool <==> c in t.pool) && (c in s.pool ==> s.pool[c] == t.pool[c])
  }

  lemma ReturnKeepsClock(a: SweepState)
    requires SweepInv(a) && ClockInv(a) && a.returning.Some?
    ensures ClockInv(SweepState(ReturnAll(a.index, {a.returning.value}), a.phase, None))
  {
    var b := SweepState(ReturnAll(a.index, {a.returning.value}), a.phase, None);
    forall p | p in a.index.users ensures PoolKept(a.index, b.index, a.index.users[p].canisterId) {
      ReturningIsNobodys(a, p);
    }
    RecordsGone(a, b);
  }

  lemma StartKeepsClock(a: SweepState, now: nat)
    requires SweepInv(a) && ClockInv(a) && a.phase.Idle?
    ensures ClockInv(After(a, Start(now)))
  {
    var s := a.index;
    IdleIsSettled(a);
    StartKeepsInv(s, now);
    var overdue := OverdueRegistrations(s, now);
    var b := SweepState(s.(pending := s.pending - overdue), Lapsed(Ascending(overdue), now), None);
    forall p | p in s.users ensures PendingClock(b.index, p) {
      assert PendingClock(s, p);
    }
    forall p | p in s.users && s.users[p].status.Pending? && TrialOverdue(s, p, now) ensures p in overdue {
      assert PendingClock(s, p);
    }
    ContinueKeepsClock(b.index, b.phase);
  }

  /** A record after a message is an old one, confirmed perhaps, or the sender's new one. */
  ghost predicate OldRecord(s: State, e: Event, p: Principal, s': State) {
    && p in s.users && p in s'.users
    && (s'.users[p].status == s.users[p].status || s'.users[p].status.Active?)
    && s'.users[p].canisterId == s.users[p].canisterId
    && KeptLease(s, e, s', p, s.users[p].canisterId)
  }

  ghost predicate NewRecord(s: State, e: Event, p: Principal, s': State) {
    && e.Register? && p == e.caller && p in s'.users && s'.users[p].status == Pending(e.now)
    && var c := s'.users[p].canisterId;
       c in s'.pool && (s'.pool[c].state == Assigned(p, None) ||
                        s'.pool[c].state == Assigned(p, Some(e.now + TRIAL_EXPIRY_NS)))
  }

  lemma RecordAfter(s: State, e: Event, p: Principal)
    requires Inv(s) && Admissible(s, e) && p in Next(s, e).users
    ensures OldRecord(s, e, p, Next(s, e)) || NewRecord(s, e, p, Next(s, e))
  {
    if Next(s, e).users[p].userId < s.nextUserId {
      OldIdsAreOldRecords(s, e, p);
      LeaseFixed(s, e, p);
      OldStatus(s, e, p);
    } else {
      NewIdIsSenders(s, e, p);
    }
  }

  lemma OldStatus(s: State, e: Event, p: Principal)
    requires Inv(s) && Admissible(s, e)
    requires p in s.users && p in Next(s, e).users && Next(s, e).users[p].userId == s.users[p].userId
    ensures Next(s, e).users[p].status == s.users[p].status || Next(s, e).users[p].status.Active?
  {
    match e
    case Register(caller, now, username, installOk) =>
      if p != caller {
        RegistrationSparesOthers(s, caller, now, username, installOk, p);
      }
    case Provision(_, count, replies) => BatchAdds(s, replies, count);
    case Tick(now, replies) => TickSparesUser(s, now, replies, p);
    case _ =>
  }

  lemma NewIdIsSenders(s: State, e: Event, p: Principal)
    requires Inv(s) && Admissible(s, e) && p in Next(s, e).users && Next(s, e).users[p].userId >= s.nextUserId
    ensures NewRecord(s, e, p, Next(s, e))
  {
    if e.Register? {
      RegisterNewId(s, e, p);
    } else {
      NextOutline(s, e);
      OtherMakesNoId(s, e, p);
    }
  }

  lemma RegisterNewId(s: State, e: Event, p: Principal)
    requires Inv(s) && e.Register? && p in Next(s, e).users && Next(s, e).users[p].userId >= s.nextUserId
    ensures NewRecord(s, e, p, Next(s, e))
  {
    if p == e.caller {
      RegistrationEffect(s, e.caller, e.now, e.username, e.installOk);
    } else {
      NextOutline(s, e);
      RegistrationSparesOthers(s, e.caller, e.now, e.username, e.installOk, p);
    }
  }

  lemma OtherMakesNoId(s: State, e: Event, p: Principal)
    requires Inv(s) && Admissible(s, e) && !e.Register? && p in Next(s, e).users
    ensures Next(s, e).users[p].userId < s.nextUserId
  {
    match e
    case Provision(_, count, replies) => BatchAdds(s, replies, count);
    case Tick(now, replies) => TickSparesUser(s, now, replies, p);
    case _ =>
  }

  lemma ClockAfter(s: State, e: Event, p: Principal)
    requires Inv(s) && Admissible(s, e) && p in Next(s, e).users
    requires p in s.users ==> PendingClock(s, p)
    ensures PendingClock(Next(s, e), p)
  {
    RecordAfter(s, e, p);
  }

  /** The records and their leases can be read off the index with or without the canister being returned. */
  lemma SettledRecord(a: SweepState, p: Principal, now: nat)
    requires SweepInv(a) && p in a.index.users
    ensures PendingClock(Settled(a), p) <==> PendingClock(a.index, p)
    ensures TrialOverdue(Settled(a), p, now) <==> TrialOverdue(a.index, p, now)
  {
    ReturningIsNobodys(a, p);
    SettledEntry(a, a.index.users[p].canisterId);
  }

  lemma IdleMessageKeepsClock(a: SweepState, e: Event)
    requires SweepInv(a) && ClockInv(a) && a.phase.Idle? && Admissible(a.index, e)
    ensures ClockInv(After(a, Message(e)))
  {
    IdleIsSettled(a);
    forall p | p in Next(a.index, e).users ensures PendingClock(Next(a.index, e), p) {
      ClockAfter(a.index, e, p);
    }
  }

  lemma MessageKeepsPendingClock(a: SweepState, e: Event, p: Principal)
    requires SweepInv(a) && ClockInv(a) && Gentle(a, e) && p in Next(a.index, e).users
    ensures PendingClock(Next(a.index, e), p)
  {
    MessageSettles(a, e);
    GentleKeepsSweepInv(a, e);
    if p in a.index.users {
      SettledRecord(a, p, 0);
    }
    ClockAfter(Settled(a), e, p);
    SameClock(Next(Settled(a), e), After(a, Message(e)), p);
  }

  lemma SameClock(s: State, b: SweepState, p: Principal)
    requires SweepInv(b) && SameForUsers(s, Settled(b)) && p in s.users && PendingClock(s, p)
    ensures PendingClock(b.index, p)
  {
    SettledRecord(b, p, 0);
  }

  lemma TrialAfter(s: State, e: Event, p: Principal, now: nat)
    requires Inv(s) && Admissible(s, e) && p in Next(s, e).users
    requires TrialOverdue(Next(s, e), p, now) && (e.Register? ==> now < e.now + TRIAL_EXPIRY_NS)
    requires Next(s, e).users[p].status.Pending?
    ensures p in s.users && s.users[p].status.Pending? && TrialOverdue(s, p, now)
  {
    RecordAfter(s, e, p);
  }

  lemma MessageKeepsList(a: SweepState, e: Event, p: Principal)
    requires SweepInv(a) && ClockInv(a) && Gentle(a, e) && p in Next(a.index, e).users && a.phase.Lapsed?
    requires e.Register? ==> a.phase.now < e.now + TRIAL_EXPIRY_NS
    requires Next(a.index, e).users[p].status.Pending? && TrialOverdue(Next(a.index, e), p, a.phase.now)
    ensures p in a.phase.users
  {
    var b := After(a, Message(e));
    MessageSettles(a, e);
    GentleKeepsSweepInv(a, e);
    SettledRecord(b, p, a.phase.now);
    TrialAfter(Settled(a), e, p, a.phase.now);
    SettledRecord(a, p, a.phase.now);
  }

  lemma MessageKeepsActive(a: SweepState, e: Event, p: Principal)
    requires SweepInv(a) && ClockInv(a) && Gentle(a, e) && p in Next(a.index, e).users && a.phase.Overdue?
    requires Next(a.index, e).users[p].canisterId in a.phase.canisters
    ensures Next(a.index, e).users[p].status.Active?
  {
    MessageSettles(a, e);
    RecordAfter(Settled(a), e, p);
    if !OldRecord(Settled(a), e, p, Next(Settled(a), e)) {
      NewIsNotInSnapshot(a, e, p);
    }
  }

  lemma NewIsNotInSnapshot(a: SweepState, e: Event, p: Principal)
    requires SweepInv(a) && Gentle(a, e) && a.phase.Overdue? && p in Next(a.index, e).users
    requires !OldRecord(Settled(a), e, p, Next(Settled(a), e))
    ensures Next(a.index, e).users[p].canisterId !in a.phase.canisters
  {
    MessageSettles(a, e);
    if Next(a.index, e).users[p].userId < a.index.nextUserId {
      OldIdsAreOldRecords(Settled(a), e, p);
      LeaseFixed(Settled(a), e, p);
      OldStatus(Settled(a), e, p);
    } else {
      NewIdIsSenders(Settled(a), e, p);
      NextKeepsInv(Settled(a), e);
      NextOutline(a.index, e);
      assert Next(Settled(a), e).users[p].userId < Next(Settled(a), e).nextUserId;
      NewCanisterNotInSnapshot(a, e);
    }
  }

  lemma MessageKeepsClock(a: SweepState, e: Event)
    requires SweepInv(a) && ClockInv(a) && Gentle(a, e)
    requires a.phase.Lapsed? && e.Register? ==> a.phase.now < e.now + TRIAL_EXPIRY_NS
    ensures ClockInv(After(a, Message(e)))
  {
    var s := Next(a.index, e);
    forall p | p in s.users ensures PendingClock(s, p) {
      MessageKeepsPendingClock(a, e, p);
    }
    if a.phase.Lapsed? {
      forall p | p in s.users && s.users[p].status.Pending? && TrialOverdue(s, p, a.phase.now)
        ensures p in a.phase.users
      {
        MessageKeepsList(a, e, p);
      }
    } else if a.phase.Overdue? {
      forall p | p in s.users && s.users[p].canisterId in a.phase.canisters ensures s.users[p].status.Active? {
        MessageKeepsActive(a, e, p);
      }
    }
  }

  /** Late re-registrations come from pending users, and the snapshot holds canisters of active users only. */
  lemma QuietIsGentle(a: SweepState, e: Event)
    requires SweepInv(a) && ClockInv(a) && Quiet(a.index, e)
    ensures Gentle(a, e)
  {}
}
