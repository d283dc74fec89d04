/** Who is still registered when a sweep ends, whatever messages ran at its awaits. */
module SweepOutcomes {
  import opened Prelude
  import opened IndexState
  import opened IndexInvariants
  import opened IndexTheorems
  import opened Sweeps

  /// Who is still registered when the sweep ends

  ghost predicate Holds(s: State, p: Principal, userId: nat) {
    p in s.users && s.users[p].userId == userId
  }

  ghost predicate TrialOverdue(s: State, p: Principal, now: nat)
    requires p in s.users
  {
    var c := s.users[p].canisterId;
    c in s.pool && s.pool[c].state.Assigned? &&
    s.pool[c].state.expiresAt.Some? && s.pool[c].state.expiresAt.value <= now
  }

  /** `p` holds the record `userId`, and the rest of the sweep has nothing against it. */
  ghost predicate Survives(a: SweepState, p: Principal, userId: nat) {
    Holds(a.index, p, userId) &&
    match a.phase
    case Idle => true
    case Lapsed(ps, now) => p !in ps && !TrialOverdue(a.index, p, now)
    case Overdue(cs) => a.index.users[p].canisterId !in cs
  }

  lemma SnapshotTakesOverdue(s: State, p: Principal, userId: nat, now: nat)
    requires Inv(Settled(SweepState(s, Lapsed([], now), None)))
    ensures Survives(SweepState(s, Overdue(Ascending(OverdueTrials(s, now))), None), p, userId) <==>
            Survives(SweepState(s, Lapsed([], now), None), p, userId)
  {
    var a := SweepState(s, Lapsed([], now), None);
    assert Settled(a).pool == s.pool && Settled(a).trials == s.trials;
    if p in s.users {
      assert s.users[p].canisterId in OverdueTrials(s, now) <==> TrialOverdue(s, p, now);
    }
  }

  lemma TakingSparesOthers(s: State, cs: seq<Principal>, p: Principal, userId: nat)
    requires cs != [] && Inv(Settled(SweepState(s, Overdue(cs), None))) &&
             SnapshotLeased(SweepState(s, Overdue(cs), None))
    ensures Survives(Continue(s, Overdue(cs)), p, userId) <==> Survives(SweepState(s, Overdue(cs), None), p, userId)
  {
    var a, c := SweepState(s, Overdue(cs), None), cs[0];
    var owner := s.pool[c].state.owner;
    SettledEntry(a, c);
    assert OwnersOf(s, {c}) == {owner};
    if p in s.users {
      assert IsAssignedTo(Settled(a), s.users[p].canisterId, p);
      assert p == owner <==> s.users[p].canisterId == c;
    }
  }

  lemma TakingSparesOtherUsers(s: State, ps: seq<Principal>, now: nat, p: Principal, userId: nat)
    requires ps != [] && ps[0] in s.users
    ensures Survives(Continue(s, Lapsed(ps, now)), p, userId) <==>
            Survives(SweepState(s, Lapsed(ps, now), None), p, userId)
  {
    assert ps == [ps[0]] + ps[1..];
  }

  lemma SkippingSparesUsers(s: State, ps: seq<Principal>, now: nat, p: Principal, userId: nat)
    requires ps != [] && ps[0] !in s.users
    ensures Survives(SweepState(s, Lapsed(ps[1..], now), None), p, userId) <==>
            Survives(SweepState(s, Lapsed(ps, now), None), p, userId)
  {
    assert ps == [ps[0]] + ps[1..];
  }

  /** Working on from `s` does not change who survives. */
  lemma ContinueSurvives(s: State, phase: Phase, p: Principal, userId: nat)
    requires Inv(Settled(SweepState(s, phase, None))) && SnapshotLeased(SweepState(s, phase, None))
    ensures Survives(Continue(s, phase), p, userId) <==> Survives(SweepState(s, phase, None), p, userId)
    decreases phase.Lapsed?, if phase.Lapsed? then |phase.users| else 0
  {
    match phase
    case Idle =>
    case Lapsed(ps, now) =>
      if ps == [] {
        SnapshotIsLeased(s, now);
        SnapshotTakesOverdue(s, p, userId, now);
        ContinueSurvives(s, Overdue(Ascending(OverdueTrials(s, now))), p, userId);
      } else if ps[0] !in s.users {
        SkippedEntry(s, ps);
        SkippingSparesUsers(s, ps, now, p, userId);
        ContinueSurvives(s, Lapsed(ps[1..], now), p, userId);
      } else {
        TakingSparesOtherUsers(s, ps, now, p, userId);
      }
    case Overdue(cs) =>
      if cs != [] {
        TakingSparesOthers(s, cs, p, userId);
      }
  }

  lemma ResumeSurvives(a: SweepState, p: Principal, userId: nat)
    requires SweepInv(a) && a.returning.Some?
    ensures Survives(After(a, Resume), p, userId) <==> Survives(a, p, userId)
  {
    ReturnKeepsInv(a);
    var s := ReturnAll(a.index, {a.returning.value});
    ContinueSurvives(s, a.phase, p, userId);
    if p in a.index.users {
      ReturningIsNobodys(a, p);
    }
  }

  /** `p` gives up its record, to register once more. */
  ghost predicate GivesUp(a: SweepState, e: Event, p: Principal) {
    Restarts(a.index, e) && e.caller == p
  }

  /** `p`'s claim of the manager role, before the snapshot, stops its overdue trial. */
  ghost predicate StopsTrial(a: SweepState, e: Event, p: Principal) {
    && a.phase.Lapsed? && a.index.managers == {} && e == ClaimManager(p)
    && p in a.index.users && TrialOverdue(a.index, p, a.phase.now)
  }

  lemma RestartEndsRecord(s: State, e: Event, userId: nat)
    requires Restarts(s, e) && userId < s.nextUserId
    ensures !Holds(Next(s, e), e.caller, userId)
  {}

  lemma OldRecordWasThere(a: SweepState, e: Event, p: Principal, userId: nat)
    requires SweepInv(a) && Gentle(a, e) && userId < a.index.nextUserId
    requires Holds(Next(a.index, e), p, userId)
    ensures Holds(a.index, p, userId) && !GivesUp(a, e, p)
  {
    if GivesUp(a, e, p) {
      RestartEndsRecord(a.index, e, userId);
    } else {
      MessageSettles(a, e);
      OldIdsAreOldRecords(Settled(a), e, p);
    }
  }

  /** A message saves no record, unless its holder stops an overdue trial. */
  lemma GentleMessageSaves(a: SweepState, e: Event, p: Principal, userId: nat)
    requires SweepInv(a) && Gentle(a, e) && userId < a.index.nextUserId
    ensures !StopsTrial(a, e, p) && Survives(After(a, Message(e)), p, userId) ==> Survives(a, p, userId)
  {
    if Holds(Next(a.index, e), p, userId) {
      OldRecordWasThere(a, e, p, userId);
      GentleKeepsLease(a, e, p);
    }
  }

  /** A message costs nobody the record, unless its holder gives it up. */
  lemma GentleMessageSpares(a: SweepState, e: Event, p: Principal, userId: nat)
    requires SweepInv(a) && Gentle(a, e)
    ensures !GivesUp(a, e, p) && Survives(a, p, userId) ==> Survives(After(a, Message(e)), p, userId)
  {
    if !GivesUp(a, e, p) && p in a.index.users {
      GentleKeepsLease(a, e, p);
    }
  }

  /** The steps from inside a sweep to its end, or to some point before. */
  ghost predicate DuringSweep(a: SweepState, steps: seq<Step>)
    decreases |steps|
  {
    steps == [] || (!a.phase.Idle? && Disciplined(a, steps[0]) && DuringSweep(After(a, steps[0]), steps[1..]))
  }

  lemma StepOutline(a: SweepState, step: Step)
    requires SweepInv(a) && !a.phase.Idle? && Disciplined(a, step)
    ensures a.index.managers != {} ==> After(a, step).index.managers != {}
    ensures a.phase.Overdue? ==> !After(a, step).phase.Lapsed?
    ensures a.index.nextUserId <= After(a, step).index.nextUserId
  {
    if step.Resume? {
      ContinueFrame(ReturnAll(a.index, {a.returning.value}), a.phase);
    } else if step.Message? {
      NextOutline(a.index, step.event);
      if a.index.managers != {} {
        NextKeepsManagers(a.index, step.event);
      }
    }
  }

  lemma {:induction false} ContinueFrame(s: State, phase: Phase)
    ensures var a := Continue(s, phase);
            && a.index.pool == s.pool && a.index.available == s.available
            && a.index.managers == s.managers && a.index.nextUserId == s.nextUserId
            && (forall p | p in a.index.users :: p in s.users && a.index.users[p] == s.users[p])
            && (!phase.Lapsed? ==> !a.phase.Lapsed?)
    decreases phase.Lapsed?, if phase.Lapsed? then |phase.users| else 0
  {
    if phase.Lapsed? {
      if phase.users == [] {
        ContinueFrame(s, Overdue(Ascending(OverdueTrials(s, phase.now))));
      } else if phase.users[0] !in s.users {
        ContinueFrame(s, Lapsed(phase.users[1..], phase.now));
      }
    }
  }

  /** Along the run, `p` neither gives up the record `userId` nor stops its overdue trial. */
  ghost predicate Passive(a: SweepState, steps: seq<Step>, p: Principal, userId: nat)
    decreases |steps|
  {
    steps == [] ||
    (&& (steps[0].Message? && Holds(a.index, p, userId) ==>
           !GivesUp(a, steps[0].event, p) && !StopsTrial(a, steps[0].event, p))
     && Passive(After(a, steps[0]), steps[1..], p, userId))
  }

  /** A sweep decides at once who keeps a record; only the holder can change that. */
  lemma {:induction false} SweepDecides(a: SweepState, steps: seq<Step>, p: Principal, userId: nat)
    requires SweepInv(a) && DuringSweep(a, steps) && userId < a.index.nextUserId
    requires Passive(a, steps, p, userId)
    ensures Survives(RunSteps(a, steps), p, userId) <==> Survives(a, p, userId)
    decreases |steps|
  {
    if steps != [] {
      StepKeepsSweepInv(a, steps[0]);
      StepOutline(a, steps[0]);
      match steps[0] {
        case Resume => ResumeSurvives(a, p, userId);
        case Message(e) =>
          GentleMessageSaves(a, e, p, userId);
          GentleMessageSpares(a, e, p, userId);
          if !Holds(a.index, p, userId) && Holds(Next(a.index, e), p, userId) {
            StepMakesNoOldRecord(a, steps[0], p, userId);
          }
        case Start(_) =>
      }
      SweepDecides(After(a, steps[0]), steps[1..], p, userId);
    }
  }

  /** After the snapshot, nothing at all saves a record whose canister is in it. */
  lemma {:induction false} SnapshotIsFinal(a: SweepState, steps: seq<Step>, p: Principal, userId: nat)
    requires SweepInv(a) && DuringSweep(a, steps) && userId < a.index.nextUserId && !a.phase.Lapsed?
    ensures Survives(RunSteps(a, steps), p, userId) ==> Survives(a, p, userId)
    decreases |steps|
  {
    if steps != [] {
      StepKeepsSweepInv(a, steps[0]);
      StepOutline(a, steps[0]);
      match steps[0] {
        case Resume => ResumeSurvives(a, p, userId);
        case Message(e) => GentleMessageSaves(a, e, p, userId);
        case Start(_) =>
      }
      SnapshotIsFinal(After(a, steps[0]), steps[1..], p, userId);
    }
  }

  /// What became of records and leases

  /** Registrations make new records under new ids only. */
  lemma StepMakesNoOldRecord(a: SweepState, step: Step, p: Principal, userId: nat)
    requires SweepInv(a) && !a.phase.Idle? && Disciplined(a, step) && userId < a.index.nextUserId
    requires Holds(After(a, step).index, p, userId)
    ensures Holds(a.index, p, userId)
  {
    if step.Resume? {
      ContinueFrame(ReturnAll(a.index, {a.returning.value}), a.phase);
    } else {
      OldRecordWasThere(a, step.event, p, userId);
    }
  }

  lemma {:induction false} RunMakesNoOldRecord(a: SweepState, steps: seq<Step>, p: Principal, userId: nat)
    requires SweepInv(a) && DuringSweep(a, steps) && userId < a.index.nextUserId
    requires Holds(RunSteps(a, steps).index, p, userId)
    ensures Holds(a.index, p, userId)
    decreases |steps|
  {
    if steps != [] {
      StepKeepsSweepInv(a, steps[0]);
      StepOutline(a, steps[0]);
      RunMakesNoOldRecord(After(a, steps[0]), steps[1..], p, userId);
      StepMakesNoOldRecord(a, steps[0], p, userId);
    }
  }

  /** `p` has the same canister, and the same lease unless it is permanent now and nobody managed before. */
  ghost predicate SameLease(s: State, s': State, p: Principal) {
    && p in s.users && p in s'.users
    && var c := s.users[p].canisterId;
       && s'.users[p].canisterId == c && c in s.pool && c in s'.pool
       && (s'.pool[c] == s.pool[c] || (s.managers == {} && s'.pool[c] == s.pool[c].(state := Assigned(p, None))))
  }

  lemma StepKeepsLease(a: SweepState, step: Step, p: Principal, userId: nat)
    requires SweepInv(a) && !a.phase.Idle? && Disciplined(a, step)
    requires Holds(a.index, p, userId) && Holds(After(a, step).index, p, userId) && userId < a.index.nextUserId
    ensures SameLease(a.index, After(a, step).index, p)
  {
    ReturningIsNobodys(a, p);
    if step.Resume? {
      ContinueFrame(ReturnAll(a.index, {a.returning.value}), a.phase);
    } else {
      OldRecordWasThere(a, step.event, p, userId);
      GentleKeepsLease(a, step.event, p);
    }
  }

  /** Whoever keeps the record through a sweep keeps the lease, but for a claim of the manager role. */
  lemma {:induction false} SweepKeepsLease(a: SweepState, steps: seq<Step>, p: Principal, userId: nat)
    requires SweepInv(a) && DuringSweep(a, steps) && userId < a.index.nextUserId
    requires Holds(RunSteps(a, steps).index, p, userId)
    ensures Holds(a.index, p, userId) && SameLease(a.index, RunSteps(a, steps).index, p)
    decreases |steps|
  {
    if steps == [] {
      ReturningIsNobodys(a, p);
    } else {
      var b := After(a, steps[0]);
      StepKeepsSweepInv(a, steps[0]);
      StepOutline(a, steps[0]);
      RunMakesNoOldRecord(b, steps[1..], p, userId);
      StepMakesNoOldRecord(a, steps[0], p, userId);
      StepKeepsLease(a, steps[0], p, userId);
      SweepKeepsLease(b, steps[1..], p, userId);
    }
  }

  lemma StartSurvives(a: SweepState, now: nat, p: Principal)
    requires SweepInv(a) && a.phase.Idle? && p in a.index.users
    ensures Survives(After(a, Start(now)), p, a.index.users[p].userId) <==>
            !ConfirmOverdue(a.index, p, now) && !HasOverdueTrial(a.index, p, now)
  {
    var s := a.index;
    IdleIsSettled(a);
    StartKeepsInv(s, now);
    var overdue := OverdueRegistrations(s, now);
    var b := SweepState(s.(pending := s.pending - overdue), Lapsed(Ascending(overdue), now), None);
    ContinueSurvives(b.index, b.phase, p, s.users[p].userId);
    assert p in overdue <==> ConfirmOverdue(s, p, now);
    OwnTrial(s, p, now);
  }

  lemma OwnTrial(s: State, p: Principal, now: nat)
    requires Inv(s) && p in s.users
    ensures TrialOverdue(s, p, now) <==> HasOverdueTrial(s, p, now)
  {
    assert IsAssignedTo(s, s.users[p].canisterId, p);
  }

  lemma StartFrame(a: SweepState, now: nat)
    requires a.phase.Idle?
    ensures var b := After(a, Start(now));
            && b.index.pool == a.index.pool && b.index.available == a.index.available
            && b.index.managers == a.index.managers && b.index.nextUserId == a.index.nextUserId
            && (forall p | p in b.index.users :: p in a.index.users && b.index.users[p] == a.index.users[p])
  {
    var overdue := OverdueRegistrations(a.index, now);
    ContinueFrame(a.index.(pending := a.index.pending - overdue), Lapsed(Ascending(overdue), now));
  }

  /**
   * Of the users registered when it starts, a sweep removes those that an uninterrupted one would, whatever
   * messages of others run at its awaits; who keeps the record keeps the lease.
   */
  lemma InterruptedSweepExact(before: seq<Step>, now: nat, during: seq<Step>, p: Principal)
    requires DisciplinedRun(START, before)
    requires var a := RunSteps(START, before);
             && a.phase.Idle? && p in a.index.users
             && DuringSweep(After(a, Start(now)), during)
             && Passive(After(a, Start(now)), during, p, a.index.users[p].userId)
             && RunSteps(After(a, Start(now)), during).phase.Idle?
    ensures var s := RunSteps(START, before).index;
            var s' := RunSteps(After(RunSteps(START, before), Start(now)), during).index;
            && (Holds(s', p, s.users[p].userId) <==> !ConfirmOverdue(s, p, now) && !HasOverdueTrial(s, p, now))
            && (Holds(s', p, s.users[p].userId) ==> SameLease(s, s', p))
  {
    InitialInv();
    IdleIsSettled(START);
    RunKeepsSweepInv(START, before);
    var a := RunSteps(START, before);
    var b := After(a, Start(now));
    var userId := a.index.users[p].userId;
    IdleIsSettled(a);
    StepKeepsSweepInv(a, Start(now));
    StartFrame(a, now);
    StartSurvives(a, now, p);
    SweepDecides(b, during, p, userId);
    if Holds(RunSteps(b, during).index, p, userId) {
      SweepKeepsLease(b, during, p, userId);
    }
  }

  /// Registrations granted while the sweep runs

  /** The lease of a new record: for ever, or for an hour from its message. */
  lemma NewRecordLease(s: State, e: Event)
    requires Inv(s) && e.Register? && Holds(Next(s, e), e.caller, s.nextUserId)
    ensures var s' := Next(s, e);
            var c := s'.users[e.caller].canisterId;
            c in s'.pool && s'.pool[c].state ==
              Assigned(e.caller, if e.caller in s.managers then None else Some(e.now + 3_600_000_000_000))
  {
    RegistrationEffect(s, e.caller, e.now, e.username, e.installOk);
  }

  lemma NewRecordSettled(a: SweepState, e: Event)
    requires SweepInv(a) && Gentle(a, e) && e.Register?
    requires Holds(Next(a.index, e), e.caller, a.index.nextUserId)
    ensures var s' := Next(a.index, e);
            var c := s'.users[e.caller].canisterId;
            c in s'.pool && s'.pool[c].state ==
              Assigned(e.caller, if e.caller in a.index.managers then None else Some(e.now + 3_600_000_000_000))
  {
    var b := After(a, Message(e));
    MessageSettles(a, e);
    NewRecordLease(Settled(a), e);
    GentleKeepsSweepInv(a, e);
    ReturningIsNobodys(b, e.caller);
    SettledEntry(b, b.index.users[e.caller].canisterId);
  }

  lemma NewCanisterNotInSnapshot(a: SweepState, e: Event)
    requires SweepInv(a) && Gentle(a, e) && e.Register? && a.phase.Overdue?
    requires Holds(Next(a.index, e), e.caller, a.index.nextUserId)
    ensures Next(a.index, e).users[e.caller].canisterId !in a.phase.canisters
  {
    var c := Next(a.index, e).users[e.caller].canisterId;
    if c in a.phase.canisters {
      NewRecordSettled(a, e);
      SettledEntry(a, c);
      var owner := a.index.pool[c].state.owner;
      assert owner in a.index.users && a.index.users[owner].canisterId == c;
      GentleKeepsLease(a, e, owner);
    }
  }

  lemma NewRecordSurvivesIff(a: SweepState, e: Event)
    requires SweepInv(a) && !a.phase.Idle? && Gentle(a, e) && e.Register?
    requires Holds(Next(a.index, e), e.caller, a.index.nextUserId)
    requires a.phase.Lapsed? ==> a.phase.now <= e.now
    ensures Survives(After(a, Message(e)), e.caller, a.index.nextUserId) <==>
            !(a.phase.Lapsed? && e.caller in a.phase.users)
  {
    NewRecordSettled(a, e);
    if a.phase.Overdue? {
      NewCanisterNotInSnapshot(a, e);
    }
  }

  /**
   * A registration granted while a sweep runs is kept exactly when its principal is not among the lapsed
   * users the sweep still has to work through.
   */
  lemma NewRegistrationKeptIff(a: SweepState, e: Event, steps: seq<Step>)
    requires SweepInv(a) && !a.phase.Idle? && Gentle(a, e) && e.Register?
    requires Holds(Next(a.index, e), e.caller, a.index.nextUserId)
    requires a.phase.Lapsed? ==> a.phase.now <= e.now
    requires var b := After(a, Message(e));
             && DuringSweep(b, steps) && RunSteps(b, steps).phase.Idle?
             && Passive(b, steps, e.caller, a.index.nextUserId)
    ensures Holds(RunSteps(After(a, Message(e)), steps).index, e.caller, a.index.nextUserId) <==>
            !(a.phase.Lapsed? && e.caller in a.phase.users)
  {
    var b := After(a, Message(e));
    GentleKeepsSweepInv(a, e);
    assert Settled(b).users[e.caller].userId < Settled(b).nextUserId;
    SweepDecides(b, steps, e.caller, a.index.nextUserId);
    NewRecordSurvivesIff(a, e);
  }

  /// Permanent leases

  /** The rest of the sweep will come to `p`'s record or canister. */
  ghost predicate Listed(a: SweepState, p: Principal)
    requires p in a.index.users
  {
    match a.phase
    case Idle => false
    case Lapsed(ps, _) => p in ps
    case Overdue(cs) => a.index.users[p].canisterId in cs
  }

  /** A permanent lease outlasts a running sweep exactly when it is not on the sweep's list. */
  lemma PermanentThroughSweepIff(a: SweepState, steps: seq<Step>, p: Principal, userId: nat)
    requires SweepInv(a) && HoldsPermanently(a.index, p, userId)
    requires DuringSweep(a, steps) && RunSteps(a, steps).phase.Idle? && Passive(a, steps, p, userId)
    ensures HoldsPermanently(RunSteps(a, steps).index, p, userId) <==> !Listed(a, p)
  {
    assert Settled(a).users[p].userId < Settled(a).nextUserId;
    SweepDecides(a, steps, p, userId);
    if Holds(RunSteps(a, steps).index, p, userId) {
      SweepKeepsLease(a, steps, p, userId);
    }
  }

  lemma ClaimDuringSweep(a: SweepState, p: Principal)
    requires SweepInv(a) && !a.phase.Idle? && a.index.managers == {} && p in a.index.users
    ensures var b := After(a, Message(ClaimManager(p)));
            && SweepInv(b) && HoldsPermanently(b.index, p, a.index.users[p].userId)
            && (Listed(b, p) <==> Listed(a, p)) && a.index.users[p].userId < b.index.nextUserId
  {
    GentleKeepsSweepInv(a, ClaimManager(p));
    GentleKeepsLease(a, ClaimManager(p), p);
    assert Settled(a).users[p].userId < Settled(a).nextUserId;
  }

  /**
   * The first claim of the manager role, made while a sweep runs, keeps the claimer's lease exactly when
   * the lease is not on the sweep's list: before the snapshot, even if its trial is overdue.
   */
  lemma ClaimDuringSweepIff(a: SweepState, steps: seq<Step>, p: Principal)
    requires SweepInv(a) && !a.phase.Idle? && a.index.managers == {} && p in a.index.users
    requires var b := After(a, Message(ClaimManager(p)));
             && DuringSweep(b, steps) && RunSteps(b, steps).phase.Idle?
             && Passive(b, steps, p, a.index.users[p].userId)
    ensures var b := After(a, Message(ClaimManager(p)));
            HoldsPermanently(RunSteps(b, steps).index, p, a.index.users[p].userId) <==> !Listed(a, p)
  {
    ClaimDuringSweep(a, p);
    PermanentThroughSweepIff(After(a, Message(ClaimManager(p))), steps, p, a.index.users[p].userId);
  }

  /** A claim of the manager role that comes after the snapshot makes a lease permanent, and loses it. */
  lemma LateClaimIsLost(a: SweepState, steps: seq<Step>, p: Principal)
    requires SweepInv(a) && a.phase.Overdue? && a.index.managers == {}
    requires p in a.index.users && a.index.users[p].canisterId in a.phase.canisters
    requires var b := After(a, Message(ClaimManager(p)));
             DuringSweep(b, steps) && RunSteps(b, steps).phase.Idle?
    ensures var b := After(a, Message(ClaimManager(p)));
            var userId := a.index.users[p].userId;
            HoldsPermanently(b.index, p, userId) && !Holds(RunSteps(b, steps).index, p, userId)
  {
    ClaimDuringSweep(a, p);
    SnapshotIsFinal(After(a, Message(ClaimManager(p))), steps, p, a.index.users[p].userId);
  }
}
