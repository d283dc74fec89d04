/** Who is still registered when a sweep ends, with registrations waiting for installs meanwhile. */
module InterleavedOutcomes {
  import opened IndexState
  import opened IndexInvariants
  import opened IndexTheorems
  import opened Sweeps
  import opened SweepOutcomes
  import opened TrialClocks
  import opened Interleavings

  /** The acts from inside a sweep to its end, or to some point before. */
  ghost predicate DuringSweepActs(w: World, acts: seq<Act>)
    decreases |acts|
  {
    acts == [] ||
    (!w.sweep.phase.Idle? && Interleavings.Disciplined(w, acts[0]) && DuringSweepActs(Do(w, acts[0]), acts[1..]))
  }

  /** Along the run, `p` neither gives up the record `userId` nor stops its overdue trial. */
  ghost predicate PassiveActs(w: World, acts: seq<Act>, p: Principal, userId: nat)
    decreases |acts|
  {
    acts == [] ||
    (&& (acts[0].Sweep? && acts[0].step.Message? && Holds(w.sweep.index, p, userId) ==>
           !GivesUp(w.sweep, acts[0].step.event, p) && !StopsTrial(w.sweep, acts[0].step.event, p))
     && PassiveActs(Do(w, acts[0]), acts[1..], p, userId))
  }

  /** The id has been handed out, and no registration that could still get it is waiting. */
  ghost predicate IdSettled(w: World, userId: nat) {
    && userId < w.sweep.index.nextUserId
    && forall call | call in w.inFlight :: w.inFlight[call].userId != userId
  }

  lemma SweepStepIsDisciplined(w: World, step: Step)
    requires WorldInv(w) && Interleavings.Disciplined(w, Sweep(step))
    ensures Sweeps.Disciplined(w.sweep, step)
  {
    if step.Message? && !w.sweep.phase.Idle? {
      QuietIsGentle(w.sweep, step.event);
    }
  }

  lemma BeginSurvives(w: World, act: Act, p: Principal, userId: nat)
    requires act.Begin?
    ensures Survives(Do(w, act).sweep, p, userId) <==> Survives(w.sweep, p, userId)
  {}

  lemma FinishSurvives(w: World, act: Act, p: Principal, userId: nat)
    requires WorldInv(w) && act.Finish? && act.call in w.inFlight && IdSettled(w, userId)
    ensures Survives(Do(w, act).sweep, p, userId) <==> Survives(w.sweep, p, userId)
  {
    var r := w.inFlight[act.call];
    ReservedIsFree(w, act.call);
    assert Committable(Settled(w.sweep), r);
    if p in w.sweep.index.users {
      ReturningIsNobodys(w.sweep, p);
    }
  }

  lemma SweepStepSurvives(a: SweepState, step: Step, p: Principal, userId: nat)
    requires SweepInv(a) && !a.phase.Idle? && Sweeps.Disciplined(a, step) && userId < a.index.nextUserId
    requires step.Message? && Holds(a.index, p, userId) ==> !GivesUp(a, step.event, p) && !StopsTrial(a, step.event, p)
    ensures Survives(After(a, step), p, userId) <==> Survives(a, p, userId)
  {
    assert DuringSweep(After(a, step), []) && Passive(After(a, step), [], p, userId);
    assert [step][1..] == [];
    assert DuringSweep(a, [step]) && Passive(a, [step], p, userId);
    assert RunSteps(a, [step]) == After(a, step) by { assert RunSteps(After(a, step), []) == After(a, step); }
    SweepDecides(a, [step], p, userId);
  }

  lemma ActKeepsIdSettled(w: World, act: Act, userId: nat)
    requires WorldInv(w) && Interleavings.Disciplined(w, act) && !w.sweep.phase.Idle? && IdSettled(w, userId)
    ensures IdSettled(Do(w, act), userId)
  {
    if act.Sweep? {
      SweepStepIsDisciplined(w, act.step);
      StepOutline(w.sweep, act.step);
    }
  }

  /** With installs under way too, a sweep decides at once who keeps a record; only the holder can change that. */
  lemma {:induction false} InterleavedSweepDecides(w: World, acts: seq<Act>, p: Principal, userId: nat)
    requires WorldInv(w) && DuringSweepActs(w, acts) && IdSettled(w, userId) && PassiveActs(w, acts, p, userId)
    ensures Survives(RunActs(w, acts).sweep, p, userId) <==> Survives(w.sweep, p, userId)
    decreases |acts|
  {
    if acts != [] {
      ActKeepsWorldInv(w, acts[0]);
      ActKeepsIdSettled(w, acts[0], userId);
      match acts[0] {
        case Begin(_, _, _) => BeginSurvives(w, acts[0], p, userId);
        case Finish(_, _) => FinishSurvives(w, acts[0], p, userId);
        case Sweep(step) =>
          SweepStepIsDisciplined(w, step);
          SweepStepSurvives(w.sweep, step, p, userId);
      }
      InterleavedSweepDecides(Do(w, acts[0]), acts[1..], p, userId);
    }
  }

  lemma RegisteredIdIsSettled(w: World, p: Principal)
    requires WorldInv(w) && p in w.sweep.index.users
    ensures IdSettled(w, w.sweep.index.users[p].userId)
  {
    assert Settled(w.sweep).users[p].userId < Settled(w.sweep).nextUserId;
    forall call | call in w.inFlight ensures w.inFlight[call].userId != w.sweep.index.users[p].userId {
      assert Committable(Settled(w.sweep), w.inFlight[call]);
    }
  }

  /**
   * Of the users registered when it starts, a sweep removes those that an uninterrupted one would, whatever
   * messages of others run and whatever installs are under way or begin at its awaits.
   */
  lemma InterleavedSweepExact(before: seq<Act>, now: nat, during: seq<Act>, p: Principal)
    requires Interleavings.DisciplinedRun(QUIET_WORLD, before)
    requires var w := RunActs(QUIET_WORLD, before);
             var b := Do(w, Sweep(Start(now)));
             && w.sweep.phase.Idle? && p in w.sweep.index.users
             && DuringSweepActs(b, during) && PassiveActs(b, during, p, w.sweep.index.users[p].userId)
             && RunActs(b, during).sweep.phase.Idle?
    ensures var w := RunActs(QUIET_WORLD, before);
            var s := w.sweep.index;
            Holds(RunActs(Do(w, Sweep(Start(now))), during).sweep.index, p, s.users[p].userId) <==>
            !ConfirmOverdue(s, p, now) && !HasOverdueTrial(s, p, now)
  {
    QuietWorldInv();
    RunKeepsWorldInv(QUIET_WORLD, before);
    var w := RunActs(QUIET_WORLD, before);
    var b := Do(w, Sweep(Start(now)));
    StartKeepsWorldInv(w, now);
    StartFrame(w.sweep, now);
    RegisteredIdIsSettled(w, p);
    StartSurvives(w.sweep, now, p);
    InterleavedSweepDecides(b, during, p, w.sweep.index.users[p].userId);
  }

  /**
   * A registration whose install is answered while a sweep runs is kept exactly when its principal is not
   * among the lapsed users the sweep still has to work through.
   */
  lemma FinishedRegistrationKeptIff(w: World, call: nat, acts: seq<Act>)
    requires WorldInv(w) && !w.sweep.phase.Idle? && Interleavings.Disciplined(w, Finish(call, true))
    requires var b := Do(w, Finish(call, true));
             && DuringSweepActs(b, acts) && RunActs(b, acts).sweep.phase.Idle?
             && PassiveActs(b, acts, w.inFlight[call].principal, w.inFlight[call].userId)
    ensures var r := w.inFlight[call];
            Holds(RunActs(Do(w, Finish(call, true)), acts).sweep.index, r.principal, r.userId) <==>
            !(w.sweep.phase.Lapsed? && r.principal in w.sweep.phase.users)
  {
    var r, b := w.inFlight[call], Do(w, Finish(call, true));
    FinishKeepsWorldInv(w, Finish(call, true));
    RegisteredIdIsSettled(b, r.principal);
    InterleavedSweepDecides(b, acts, r.principal, r.userId);
    CommittedSurvivesIff(w, call);
  }

  lemma CommittedSurvivesIff(w: World, call: nat)
    requires WorldInv(w) && !w.sweep.phase.Idle? && Interleavings.Disciplined(w, Finish(call, true))
    ensures var r := w.inFlight[call];
            Survives(Do(w, Finish(call, true)).sweep, r.principal, r.userId) <==>
            !(w.sweep.phase.Lapsed? && r.principal in w.sweep.phase.users)
  {
    ReservedIsFree(w, call);
  }
}
