/**
 * Registrations that wait for an install and a sweep that waits for an uninstall, at the same time.
 *
 * The state is that of `Sweeps` together with the waiting registrations of `Reservations`.
 */
module Interleavings {
  import opened Prelude
  import opened IndexState
  import opened IndexInvariants
  import opened Sweeps
  import opened SweepOutcomes
  import opened TrialClocks
  import Reservations

  datatype World = World(sweep: SweepState, inFlight: map<nat, Reservation>, nextCall: nat)

  datatype Act =
    | Begin(caller: Principal, now: nat, username: string)
    | Finish(call: nat, installOk: bool)
    | Sweep(step: Step)

  const QUIET_WORLD: World := World(START, map[], 0)

  function Do(w: World, act: Act): World {
    var s := w.sweep.index;
    match act
    case Begin(caller, now, username) =>
      (match Reserve(s, caller, now, username)
       case (index, None) => w.(sweep := w.sweep.(index := index))
       case (index, Some(r)) => World(w.sweep.(index := index), w.inFlight[w.nextCall := r], w.nextCall + 1))
    case Finish(call, installOk) =>
      if call !in w.inFlight then w
      else World(w.sweep.(index := if installOk then Commit(s, w.inFlight[call]) else s),
                 w.inFlight - {call}, w.nextCall)
    case Sweep(step) =>
      World(After(w.sweep, step), if step == Message(PostUpgrade) then map[] else w.inFlight, w.nextCall)
  }

  predicate IsWaiting(w: World, p: Principal) {
    exists call :: call in w.inFlight && w.inFlight[call].principal == p
  }

  /**
   * While a sweep works through the lapsed users, no registration ends with a trial that was over at the
   * sweep's time: clocks run forward, and no install takes an hour.
   */
  predicate Timely(w: World, act: Act) {
    w.sweep.phase.Lapsed? ==>
      match act
      case Finish(call, _) => call in w.inFlight && w.sweep.phase.now < w.inFlight[call].startedAt + TRIAL_EXPIRY_NS
      case Sweep(Message(Register(_, now, _, _))) => w.sweep.phase.now < now + TRIAL_EXPIRY_NS
      case _ => true
  }

  /**
   * One sweep at a time, with no upgrade while it runs; one registration at a time per principal. Late
   * re-registrations and all other messages may come at any time.
   */
  ghost predicate Disciplined(w: World, act: Act) {
    && Timely(w, act)
    && match act
       case Begin(caller, _, username) =>
         !IsBlank(username) && caller !in w.sweep.index.users && !IsWaiting(w, caller)
       case Finish(call, _) => call in w.inFlight
       case Sweep(Start(_)) => w.sweep.phase.Idle?
       case Sweep(Resume) => !w.sweep.phase.Idle?
       case Sweep(Message(e)) =>
         && Admissible(w.sweep.index, e)
         && (!w.sweep.phase.Idle? ==> Quiet(w.sweep.index, e))
         && (e.Register? ==> !IsWaiting(w, e.caller))
  }

  function RunActs(w: World, acts: seq<Act>): World
    decreases |acts|
  {
    if acts == [] then w else RunActs(Do(w, acts[0]), acts[1..])
  }

  ghost predicate DisciplinedRun(w: World, acts: seq<Act>)
    decreases |acts|
  {
    acts == [] || (Disciplined(w, acts[0]) && DisciplinedRun(Do(w, acts[0]), acts[1..]))
  }

  /// What every act keeps

  /** The waiting registrations, over the index as it would be without the sweep. */
  function Settle(w: World): Reservations.AsyncState {
    Reservations.AsyncState(Settled(w.sweep), w.inFlight, w.nextCall)
  }

  ghost predicate WorldInv(w: World) {
    && SweepInv(w.sweep)
    && ClockInv(w.sweep)
    && Reservations.AsyncInv(Settle(w))
    && Returning(w.sweep) !! Reserved(w)
  }

  function Reserved(w: World): set<Principal> {
    set call | call in w.inFlight :: w.inFlight[call].canisterId
  }

  /** A reserved canister is free, and neither on offer nor in the hands of the sweep. */
  lemma ReservedIsFree(w: World, call: nat)
    requires WorldInv(w) && call in w.inFlight
    ensures var c := w.inFlight[call].canisterId;
            && c in w.sweep.index.pool && w.sweep.index.pool[c].state.Available?
            && c !in w.sweep.index.available && c !in Returning(w.sweep)
  {
    assert Committable(Settled(w.sweep), w.inFlight[call]);
    assert w.inFlight[call].canisterId in Reserved(w);
    SettledEntry(w.sweep, w.inFlight[call].canisterId);
  }

  lemma BeginSettles(w: World, caller: Principal, now: nat, username: string)
    ensures Settle(Do(w, Begin(caller, now, username))) ==
            Reservations.StepOf(Settle(w), Reservations.Begin(caller, now, username))
  {}

  lemma ReserveKeepsSweep(a: SweepState, caller: Principal, now: nat, username: string)
    requires SweepInv(a)
    ensures SweepInv(a.(index := Reserve(a.index, caller, now, username).0))
  {
    ReserveKeepsInv(Settled(a), caller, now, username);
    assert Settled(a.(index := Reserve(a.index, caller, now, username).0)) ==
           Reserve(Settled(a), caller, now, username).0;
  }

  /** Trial clocks depend on users and pool only. */
  lemma ClockDependsOn(a: SweepState, b: SweepState)
    requires ClockInv(a) && b.index.users == a.index.users && b.index.pool == a.index.pool && b.phase == a.phase
    ensures ClockInv(b)
  {
    forall p | p in b.index.users ensures PendingClock(b.index, p) {
      assert PendingClock(a.index, p);
    }
    if a.phase.Lapsed? {
      forall p | p in b.index.users && b.index.users[p].status.Pending? && TrialOverdue(b.index, p, b.phase.now)
        ensures p in b.phase.users
      {
        assert TrialOverdue(a.index, p, a.phase.now);
      }
    }
  }

  lemma BeginReserves(w: World, act: Act)
    requires WorldInv(w) && act.Begin?
    ensures Returning(w.sweep) !! Reserved(Do(w, act))
  {
    forall c | c in Reserved(Do(w, act)) ensures c !in Returning(w.sweep) {
      assert c in Reserved(w) || c in w.sweep.index.available;
    }
  }

  lemma BeginKeepsWorldInv(w: World, act: Act)
    requires WorldInv(w) && act.Begin? && Disciplined(w, act)
    ensures WorldInv(Do(w, act))
  {
    BeginSettles(w, act.caller, act.now, act.username);
    BeginReserves(w, act);
    ReserveKeepsSweep(w.sweep, act.caller, act.now, act.username);
    ClockDependsOn(w.sweep, Do(w, act).sweep);
    Reservations.StepKeepsAsyncInv(Settle(w), Reservations.Begin(act.caller, act.now, act.username));
  }

  lemma FinishSettles(w: World, call: nat, installOk: bool)
    requires WorldInv(w) && call in w.inFlight
    ensures Settle(Do(w, Finish(call, installOk))) ==
            Reservations.StepOf(Settle(w), Reservations.Finish(call, installOk))
  {
    ReservedIsFree(w, call);
    CommitSettles(w.sweep, w.inFlight[call]);
  }

  lemma CommitKeepsSweep(a: SweepState, r: Reservation)
    requires SweepInv(a) && Committable(Settled(a), r) && r.canisterId !in Returning(a)
    ensures SweepInv(a.(index := Commit(a.index, r)))
  {
    SettledEntry(a, r.canisterId);
    CommitSettles(a, r);
    CommitKeepsInv(Settled(a), r);
  }

  lemma FinishKeepsWorldInv(w: World, act: Act)
    requires WorldInv(w) && act.Finish? && Disciplined(w, act)
    ensures WorldInv(Do(w, act))
  {
    ReservedIsFree(w, act.call);
    assert Committable(Settled(w.sweep), w.inFlight[act.call]);
    FinishSettles(w, act.call, act.installOk);
    CommitKeepsSweep(w.sweep, w.inFlight[act.call]);
    CommitKeepsClock(w.sweep, w.inFlight[act.call]);
    Reservations.StepKeepsAsyncInv(Settle(w), Reservations.Finish(act.call, act.installOk));
  }

  lemma CommitKeepsClock(a: SweepState, r: Reservation)
    requires SweepInv(a) && ClockInv(a) && Committable(Settled(a), r) && r.canisterId !in Returning(a)
    requires a.phase.Lapsed? ==> a.phase.now < r.startedAt + TRIAL_EXPIRY_NS
    ensures ClockInv(a.(index := Commit(a.index, r)))
  {
    var s := Commit(a.index, r);
    SettledEntry(a, r.canisterId);
    forall p | p in a.index.users ensures a.index.users[p].canisterId != r.canisterId && PendingClock(a.index, p) {
      ReturningIsNobodys(a, p);
    }
  }

  lemma SweepKeepsReservations(w: World, b: SweepState)
    requires WorldInv(w) && SweepInv(b)
    requires b.index.nextUserId == w.sweep.index.nextUserId
    requires forall p | p in b.index.users :: p in w.sweep.index.users && b.index.users[p] == w.sweep.index.users[p]
    requires b.index.pool == SetFree(w.sweep.index.pool, Returning(w.sweep))
    requires b.index.available == w.sweep.index.available + Returning(w.sweep)
    ensures Reservations.AsyncInv(Settle(w.(sweep := b))) && Returning(b) !! Reserved(w)
  {
    forall call | call in w.inFlight
      ensures Committable(Settled(b), w.inFlight[call]) && w.inFlight[call].canisterId !in Returning(b)
    {
      ReservedIsFree(w, call);
      assert Committable(Settled(w.sweep), w.inFlight[call]);
    }
  }

  lemma StartKeepsWorldInv(w: World, now: nat)
    requires WorldInv(w) && w.sweep.phase.Idle?
    ensures WorldInv(Do(w, Sweep(Start(now))))
  {
    StepKeepsSweepInv(w.sweep, Start(now));
    StartKeepsClock(w.sweep, now);
    StartFrame(w.sweep, now);
    SweepKeepsReservations(w, After(w.sweep, Start(now)));
  }

  lemma ResumeKeepsWorldInv(w: World)
    requires WorldInv(w) && !w.sweep.phase.Idle?
    ensures WorldInv(Do(w, Sweep(Resume)))
  {
    var s := ReturnAll(w.sweep.index, {w.sweep.returning.value});
    StepKeepsSweepInv(w.sweep, Resume);
    ReturnKeepsInv(w.sweep);
    ReturnKeepsClock(w.sweep);
    ContinueKeepsClock(s, w.sweep.phase);
    ContinueFrame(s, w.sweep.phase);
    SweepKeepsReservations(w, After(w.sweep, Resume));
  }

  lemma MessageKeepsWorldInv(w: World, e: Event)
    requires WorldInv(w) && Disciplined(w, Sweep(Message(e)))
    ensures WorldInv(Do(w, Sweep(Message(e))))
  {
    var b := After(w.sweep, Message(e));
    if w.sweep.phase.Idle? {
      IdleIsSettled(w.sweep);
      IdleIsSettled(b);
      IdleMessageKeepsClock(w.sweep, e);
    } else {
      QuietIsGentle(w.sweep, e);
      MessageSettles(w.sweep, e);
      MessageKeepsClock(w.sweep, e);
    }
    StepKeepsSweepInv(w.sweep, Message(e));
    Reservations.StepKeepsAsyncInv(Settle(w), Reservations.Atomic(e));
    PendingDoesNotMatter(Reservations.StepOf(Settle(w), Reservations.Atomic(e)), Settle(Do(w, Sweep(Message(e)))));
  }

  lemma PendingDoesNotMatter(a: Reservations.AsyncState, b: Reservations.AsyncState)
    requires Reservations.AsyncInv(a) && SameForUsers(a.index, b.index) && b == a.(index := b.index)
    ensures Reservations.AsyncInv(b)
  {
    LooserKeepsInv(a.index, b.index);
    forall call | call in b.inFlight ensures Committable(b.index, b.inFlight[call]) {
      assert Committable(a.index, a.inFlight[call]);
    }
  }

  lemma ActKeepsWorldInv(w: World, act: Act)
    requires WorldInv(w) && Disciplined(w, act)
    ensures WorldInv(Do(w, act))
  {
    match act
    case Begin(_, _, _) => BeginKeepsWorldInv(w, act);
    case Finish(_, _) => FinishKeepsWorldInv(w, act);
    case Sweep(Start(now)) => StartKeepsWorldInv(w, now);
    case Sweep(Resume) => ResumeKeepsWorldInv(w);
    case Sweep(Message(e)) => MessageKeepsWorldInv(w, e);
  }

  /** However registrations, sweeps and other messages overlap, the invariant is kept. */
  lemma {:induction false} RunKeepsWorldInv(w: World, acts: seq<Act>)
    requires WorldInv(w) && DisciplinedRun(w, acts)
    ensures WorldInv(RunActs(w, acts))
    decreases |acts|
  {
    if acts != [] {
      ActKeepsWorldInv(w, acts[0]);
      RunKeepsWorldInv(Do(w, acts[0]), acts[1..]);
    }
  }

  /// The five kinds of canister

  /** Free, unlisted, and not waiting for anyone: left behind by a failed install. */
  function Abandoned(w: World): set<Principal> {
    Stranded(w.sweep.index) - Reserved(w)
  }

  /**
   * However registrations and sweeps overlap, every canister is available, reserved, leased, being
   * returned or abandoned, and never two of these; every waiting registration has a canister of its own,
   * and every user a lease.
   */
  lemma CanistersInFiveParts(acts: seq<Act>)
    requires DisciplinedRun(QUIET_WORLD, acts)
    ensures FiveKinds(RunActs(QUIET_WORLD, acts))
  {
    QuietWorldInv();
    RunKeepsWorldInv(QUIET_WORLD, acts);
    var w := RunActs(QUIET_WORLD, acts);
    FiveParts(w);
    OneCanisterEach(w);
  }

  ghost predicate FiveKinds(w: World) {
    var s := w.sweep.index;
    && s.pool.Keys == s.available + Reserved(w) + Reservations.Leased(s) + Returning(w.sweep) + Abandoned(w)
    && s.available !! Reserved(w) !! Reservations.Leased(s) !! Returning(w.sweep) !! Abandoned(w)
    && |Reserved(w)| == |w.inFlight|
    && |Reservations.Leased(s)| == |s.users|
    && (forall p | p in s.users :: IsAssignedTo(s, s.users[p].canisterId, p))
  }

  lemma QuietWorldInv()
    ensures WorldInv(QUIET_WORLD)
  {
    InitialInv();
    IdleIsSettled(START);
  }

  lemma OneCanisterEach(w: World)
    requires WorldInv(w)
    ensures |Reserved(w)| == |w.inFlight|
    ensures |Reservations.Leased(w.sweep.index)| == |w.sweep.index.users|
    ensures forall p | p in w.sweep.index.users :: IsAssignedTo(w.sweep.index, w.sweep.index.users[p].canisterId, p)
  {
    Reservations.PartSizes(Settle(w));
    SettledSets(w);
    forall p | p in w.sweep.index.users ensures IsAssignedTo(w.sweep.index, w.sweep.index.users[p].canisterId, p) {
      ReturningIsNobodys(w.sweep, p);
    }
  }

  lemma SettledSets(w: World)
    requires WorldInv(w)
    ensures Reserved(w) == Reservations.Reserved(Settle(w))
    ensures Reservations.Leased(w.sweep.index) == Reservations.Leased(Settled(w.sweep))
    ensures Reservations.Abandoned(Settle(w)) == Returning(w.sweep) + Abandoned(w)
    ensures Returning(w.sweep) !! Abandoned(w)
  {
    assert Stranded(Settled(w.sweep)) == Returning(w.sweep) + Stranded(w.sweep.index);
  }

  lemma FiveParts(w: World)
    requires WorldInv(w)
    ensures var s := w.sweep.index;
            && s.pool.Keys ==
               s.available + Reserved(w) + Reservations.Leased(s) + Returning(w.sweep) + Abandoned(w)
            && s.available !! Reserved(w) !! Reservations.Leased(s) !! Returning(w.sweep) !! Abandoned(w)
  {
    SettledSets(w);
    Reservations.PartitionOf(Settle(w));
    SplitLast(w.sweep.index.available, Reserved(w), Reservations.Leased(w.sweep.index),
              Reservations.Abandoned(Settle(w)), Returning(w.sweep), Abandoned(w));
  }

  lemma SplitLast(a: set<Principal>, b: set<Principal>, c: set<Principal>, d: set<Principal>,
                  d1: set<Principal>, d2: set<Principal>)
    requires d == d1 + d2 && d1 !! d2 && a !! b !! c !! d
    ensures a + b + c + d == a + b + c + d1 + d2 && a !! b !! c !! d1 !! d2
  {}
}
