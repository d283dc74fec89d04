/**
 * `register_user` cut at the await of its install call.
 *
 * `Begin` runs up to the call, `Finish` from its reply to the end; between the two, any other message
 * may run, atomically. An upgrade wipes the heap, and with it the registrations that wait for a reply.
 */
module Reservations {
  import opened Prelude
  import opened IndexState
  import opened IndexInvariants
  import opened IndexTheorems

  /** The index, and the registrations waiting for their install reply, by call number. */
  datatype AsyncState = AsyncState(index: State, inFlight: map<nat, Reservation>, nextCall: nat)

  datatype Step =
    | Begin(caller: Principal, now: nat, username: string)
    | Finish(call: nat, installOk: bool)
    | Atomic(event: Event)

  const START: AsyncState := AsyncState(INITIAL, map[], 0)

  function StepOf(a: AsyncState, step: Step): AsyncState {
    match step
    case Begin(caller, now, username) =>
      (match Reserve(a.index, caller, now, username)
       case (index, None) => a.(index := index)
       case (index, Some(r)) => AsyncState(index, a.inFlight[a.nextCall := r], a.nextCall + 1))
    case Finish(call, installOk) =>
      if call !in a.inFlight then a
      else AsyncState(if installOk then Commit(a.index, a.inFlight[call]) else a.index,
                      a.inFlight - {call}, a.nextCall)
    case Atomic(e) =>
      AsyncState(Next(a.index, e), if e.PostUpgrade? then map[] else a.inFlight, a.nextCall)
  }

  predicate IsWaiting(a: AsyncState, p: Principal) {
    exists call :: call in a.inFlight && a.inFlight[call].principal == p
  }

  /**
   * The steps considered: a first-time registration by someone who is not already waiting for an
   * install, the end of a registration that is waiting, or any other message.
   */
  ghost predicate Disciplined(a: AsyncState, step: Step) {
    match step
    case Begin(caller, _, username) => !IsBlank(username) && caller !in a.index.users && !IsWaiting(a, caller)
    case Finish(call, _) => call in a.inFlight
    case Atomic(e) => Admissible(a.index, e) && (e.Register? ==> !IsWaiting(a, e.caller))
  }

  function RunSteps(a: AsyncState, steps: seq<Step>): AsyncState
    decreases |steps|
  {
    if steps == [] then a else RunSteps(StepOf(a, steps[0]), steps[1..])
  }

  ghost predicate DisciplinedRun(a: AsyncState, steps: seq<Step>)
    decreases |steps|
  {
    steps == [] || (Disciplined(a, steps[0]) && DisciplinedRun(StepOf(a, steps[0]), steps[1..]))
  }

  /** Running the two halves back to back is the whole message. */
  lemma HalvesMakeTheWhole(a: AsyncState, caller: Principal, now: nat, username: string, installOk: bool)
    requires !IsBlank(username) && caller !in a.index.users && a.nextCall !in a.inFlight
    ensures StepOf(StepOf(a, Begin(caller, now, username)), Finish(a.nextCall, installOk)).index ==
            RegisterUser(a.index, caller, now, username, installOk).0
  {}

  ghost predicate ReservationsDistinct(a: AsyncState) {
    && (forall call | call in a.inFlight :: call < a.nextCall)
    && (forall i, j | i in a.inFlight && j in a.inFlight && i != j ::
          && a.inFlight[i].canisterId != a.inFlight[j].canisterId
          && a.inFlight[i].principal != a.inFlight[j].principal
          && a.inFlight[i].userId != a.inFlight[j].userId)
  }

  ghost predicate AsyncInv(a: AsyncState) {
    && Inv(a.index)
    && (forall call | call in a.inFlight :: Committable(a.index, a.inFlight[call]))
    && ReservationsDistinct(a)
  }

  lemma AtomicKeepsCommittable(s: State, e: Event, r: Reservation)
    requires Inv(s) && Admissible(s, e) && !e.PostUpgrade? && Committable(s, r)
    requires e.Register? ==> e.caller != r.principal
    ensures Committable(Next(s, e), r)
  {
    StrandedExactly(s, e);
    NextOutline(s, e);
    forall p | p in Next(s, e).users ensures Next(s, e).users[p].userId != r.userId {
      if Next(s, e).users[p].userId == r.userId {
        OldIdsAreOldRecords(s, e, p);
      }
    }
  }

  lemma CommitKeepsCommittable(s: State, r: Reservation, other: Reservation)
    requires Inv(s) && Committable(s, r) && Committable(s, other)
    requires r.canisterId != other.canisterId && r.principal != other.principal && r.userId != other.userId
    ensures Committable(Commit(s, r), other)
  {}

  lemma BeginKeepsAsyncInv(a: AsyncState, step: Step)
    requires AsyncInv(a) && step.Begin? && Disciplined(a, step)
    ensures AsyncInv(StepOf(a, step))
  {
    ReserveKeepsInv(a.index, step.caller, step.now, step.username);
    var (index, r) := Reserve(a.index, step.caller, step.now, step.username);
    forall call | call in a.inFlight ensures Committable(index, a.inFlight[call]) {
      assert Committable(a.index, a.inFlight[call]);
    }
    if r.Some? {
      assert Committable(index, r.value);
      forall call | call in a.inFlight
        ensures a.inFlight[call].canisterId != r.value.canisterId
        ensures a.inFlight[call].principal != r.value.principal
        ensures a.inFlight[call].userId != r.value.userId
      {
        assert Committable(a.index, a.inFlight[call]);
      }
    }
  }

  lemma StepKeepsAsyncInv(a: AsyncState, step: Step)
    requires AsyncInv(a) && Disciplined(a, step)
    ensures AsyncInv(StepOf(a, step))
  {
    match step
    case Begin(_, _, _) => BeginKeepsAsyncInv(a, step);
    case Finish(call, installOk) =>
      if installOk {
        CommitKeepsInv(a.index, a.inFlight[call]);
        forall other | other in a.inFlight && other != call
          ensures Committable(Commit(a.index, a.inFlight[call]), a.inFlight[other])
        {
          CommitKeepsCommittable(a.index, a.inFlight[call], a.inFlight[other]);
        }
      }
    case Atomic(e) =>
      NextKeepsInv(a.index, e);
      if !e.PostUpgrade? {
        forall call | call in a.inFlight ensures Committable(Next(a.index, e), a.inFlight[call]) {
          AtomicKeepsCommittable(a.index, e, a.inFlight[call]);
        }
      }
  }

  lemma {:induction false} RunKeepsAsyncInv(a: AsyncState, steps: seq<Step>)
    requires AsyncInv(a) && DisciplinedRun(a, steps)
    ensures AsyncInv(RunSteps(a, steps))
    decreases |steps|
  {
    if steps != [] {
      StepKeepsAsyncInv(a, steps[0]);
      RunKeepsAsyncInv(StepOf(a, steps[0]), steps[1..]);
    }
  }

  /// The four kinds of canister

  function Reserved(a: AsyncState): set<Principal> {
    set call | call in a.inFlight :: a.inFlight[call].canisterId
  }

  function Leased(s: State): set<Principal> {
    set p | p in s.users :: s.users[p].canisterId
  }

  /** Free, unlisted, and not waiting for anyone: left behind by a failed install. */
  function Abandoned(a: AsyncState): set<Principal> {
    Stranded(a.index) - Reserved(a)
  }

  /**
   * However registrations overlap, every canister is available, reserved, leased or abandoned, and
   * never two of these; every waiting registration has a canister of its own, and every user too.
   */
  lemma CanistersPartitioned(steps: seq<Step>)
    requires DisciplinedRun(START, steps)
    ensures var a := RunSteps(START, steps);
            && a.index.pool.Keys == a.index.available + Reserved(a) + Leased(a.index) + Abandoned(a)
            && a.index.available !! Reserved(a) !! Leased(a.index) !! Abandoned(a)
            && |Reserved(a)| == |a.inFlight|
            && |Leased(a.index)| == |a.index.users|
            && (forall p | p in a.index.users :: IsAssignedTo(a.index, a.index.users[p].canisterId, p))
  {
    InitialInv();
    RunKeepsAsyncInv(START, steps);
    PartitionOf(RunSteps(START, steps));
    PartSizes(RunSteps(START, steps));
  }

  lemma ReservedCount(inFlight: map<nat, Reservation>, reserved: set<Principal>)
    requires reserved == set call | call in inFlight :: inFlight[call].canisterId
    requires forall i, j | i in inFlight && j in inFlight && inFlight[i].canisterId == inFlight[j].canisterId :: i == j
    ensures |reserved| == |inFlight|
  {
    var canisterOf := map call | call in inFlight :: inFlight[call].canisterId;
    assert reserved == set call | call in inFlight.Keys :: canisterOf[call];
    BijectionKeepsSize(inFlight.Keys, canisterOf, reserved);
  }

  lemma ReservedAreStranded(a: AsyncState)
    requires AsyncInv(a)
    ensures Reserved(a) <= Stranded(a.index)
  {
    forall call | call in a.inFlight ensures a.inFlight[call].canisterId in Stranded(a.index) {
      assert Committable(a.index, a.inFlight[call]);
    }
  }

  lemma FourParts(pool: set<Principal>, free: set<Principal>, available: set<Principal>, reserved: set<Principal>)
    requires available <= free <= pool && reserved <= free - available
    ensures pool == available + reserved + (pool - free) + (free - available - reserved)
    ensures available !! reserved !! (pool - free) !! (free - available - reserved)
  {}

  lemma PartitionOf(a: AsyncState)
    requires AsyncInv(a)
    ensures a.index.pool.Keys == a.index.available + Reserved(a) + Leased(a.index) + Abandoned(a)
    ensures a.index.available !! Reserved(a) !! Leased(a.index) !! Abandoned(a)
  {
    var s := a.index;
    LeasedCanisters(s);
    assert Leased(s) == CanistersOf(s, s.users.Keys);
    ReservedAreStranded(a);
    FourParts(s.pool.Keys, FreeEntries(s.pool), s.available, Reserved(a));
  }

  lemma PartSizes(a: AsyncState)
    requires AsyncInv(a)
    ensures |Reserved(a)| == |a.inFlight|
    ensures |Leased(a.index)| == |a.index.users|
  {
    LeasedCanisters(a.index);
    LeasedCount(a.index.users, Leased(a.index));
    ReservedCount(a.inFlight, Reserved(a));
  }

  /// User ids

  /** The ids handed out along a run, in order. */
  function IssuedIds(a: AsyncState, steps: seq<Step>): seq<nat>
    decreases |steps|
  {
    if steps == [] then []
    else
      var a' := StepOf(a, steps[0]);
      (if a'.index.nextUserId == a.index.nextUserId then [] else [a.index.nextUserId]) + IssuedIds(a', steps[1..])
  }

  lemma StepSpendsIds(a: AsyncState, step: Step)
    ensures var n := StepOf(a, step).index.nextUserId;
            n == a.index.nextUserId || n == a.index.nextUserId + 1
  {
    if step.Atomic? {
      NextOutline(a.index, step.event);
    }
  }

  /** Strictly increasing, from `lo` on and below `hi`. */
  ghost predicate IncreasingWithin(ids: seq<nat>, lo: nat, hi: nat) {
    && lo <= hi
    && (forall i | 0 <= i < |ids| :: lo <= ids[i] < hi)
    && (forall i, j | 0 <= i < j < |ids| :: ids[i] < ids[j])
  }

  /** Issued ids strictly increase, so none is issued twice. No discipline is needed for this. */
  lemma {:induction false} IssuedIdsIncrease(a: AsyncState, steps: seq<Step>)
    ensures IncreasingWithin(IssuedIds(a, steps), a.index.nextUserId, RunSteps(a, steps).index.nextUserId)
    decreases |steps|
  {
    if steps != [] {
      StepSpendsIds(a, steps[0]);
      var a' := StepOf(a, steps[0]);
      IssuedIdsIncrease(a', steps[1..]);
      var rest := IssuedIds(a', steps[1..]);
      if a'.index.nextUserId == a.index.nextUserId {
        assert IssuedIds(a, steps) == rest;
      } else {
        assert IssuedIds(a, steps) == [a.index.nextUserId] + rest;
      }
    }
  }

  /// Why one registration at a time per principal

  /**
   * A successful install keeps the lease bijection exactly when its principal has no user record by then.
   */
  lemma FinishKeepsLeasesIff(a: AsyncState, call: nat)
    requires Inv(a.index) && call in a.inFlight && a.inFlight[call].canisterId in Stranded(a.index)
    ensures var s' := StepOf(a, Finish(call, true)).index;
            UsersHoldLeases(s') && LeasesHaveUsers(s') <==> a.inFlight[call].principal !in a.index.users
  {
    var s := a.index;
    var r := a.inFlight[call];
    var s' := Commit(s, r);
    if r.principal in s.users {
      var c := s.users[r.principal].canisterId;
      assert IsAssignedTo(s, c, r.principal);
      assert s'.pool[c] == s.pool[c] && s'.users[r.principal].canisterId != c;
    } else {
      forall p | p in s'.users ensures s'.users[p].principal == p && IsAssignedTo(s', s'.users[p].canisterId, p) {
        if p != r.principal {
          assert IsAssignedTo(s, s.users[p].canisterId, p);
        }
      }
    }
  }

  /** Two overlapping registrations of one principal leave a lease that no user record points at. */
  lemma OverlapBreaksLeases()
    ensures var steps := [Atomic(CreateOne(true, Created(7, 0))), Atomic(CreateOne(true, Created(8, 0))),
                          Begin(1, 0, "ann"), Begin(1, 0, "ann"), Finish(0, true), Finish(1, true)];
            var s := RunSteps(START, steps).index;
            IsAssignedTo(s, 7, 1) && IsAssignedTo(s, 8, 1) && s.users.Keys == {1} && s.users[1].canisterId == 8
  {
    var steps := [Atomic(CreateOne(true, Created(7, 0))), Atomic(CreateOne(true, Created(8, 0))),
                  Begin(1, 0, "ann"), Begin(1, 0, "ann"), Finish(0, true), Finish(1, true)];
    SixSteps(START, steps);
    var a2 := StepOf(StepOf(START, steps[0]), steps[1]);
    assert a2.index.available == {7, 8};
    OverlapStates(a2);
  }

  lemma SixSteps(a: AsyncState, steps: seq<Step>)
    requires |steps| == 6
    ensures RunSteps(a, steps) ==
            StepOf(StepOf(StepOf(
              StepOf(StepOf(StepOf(a, steps[0]), steps[1]), steps[2]), steps[3]), steps[4]), steps[5])
  {
    var a1 := StepOf(a, steps[0]);
    var a2 := StepOf(a1, steps[1]);
    var a3 := StepOf(a2, steps[2]);
    var a4 := StepOf(a3, steps[3]);
    var a5 := StepOf(a4, steps[4]);
    assert steps[1..][1..] == steps[2..] && steps[2..][1..] == steps[3..];
    assert steps[3..][1..] == steps[4..] && steps[4..][1..] == steps[5..];
    assert RunSteps(a5, steps[5..]) == StepOf(a5, steps[5]);
    assert RunSteps(a4, steps[4..]) == RunSteps(a5, steps[5..]);
    assert RunSteps(a3, steps[3..]) == RunSteps(a4, steps[4..]);
    assert RunSteps(a2, steps[2..]) == RunSteps(a3, steps[3..]);
    assert RunSteps(a1, steps[1..]) == RunSteps(a2, steps[2..]);
  }

  lemma OverlapStates(a: AsyncState)
    requires a.index.available == {7, 8} && 7 in a.index.pool && 8 in a.index.pool
    requires a.index.users == map[] && a.inFlight == map[] && a.nextCall == 0
    ensures var b := Begin(1, 0, "ann");
            var s := StepOf(StepOf(StepOf(StepOf(a, b), b), Finish(0, true)), Finish(1, true)).index;
            IsAssignedTo(s, 7, 1) && IsAssignedTo(s, 8, 1) && s.users.Keys == {1} && s.users[1].canisterId == 8
  {
    var a1 := StepOf(a, Begin(1, 0, "ann"));
    assert Least({7, 8}) == 7;
    assert a1.index.available == {8};
    var a2 := StepOf(a1, Begin(1, 0, "ann"));
    assert a2.inFlight.Keys == {0, 1};
  }
}
