/**
 * The periodic sweep cut at the awaits of its uninstall calls.
 *
 * A sweep first takes the overdue entries out of the pending index and works through their users, then
 * takes a snapshot of the overdue trials and works through their canisters. For each, the user record
 * goes first; the canister returns to the pool when its uninstall call is answered. In between, other
 * messages run.
 */
module Sweeps {
  import opened Prelude
  import opened IndexState
  import opened IndexInvariants
  import opened IndexTheorems

  /** What a running sweep still has to work through. */
  datatype Phase = Idle | Lapsed(users: seq<Principal>, now: nat) | Overdue(canisters: seq<Principal>)

  /** The index, the running sweep, and the canister whose uninstall call it waits for. */
  datatype SweepState = SweepState(index: State, phase: Phase, returning: Option<Principal>)

  datatype Step = Start(now: nat) | Resume | Message(event: Event)

  /** From the end of one uninstall call, or from the start, to the next uninstall call. */
  function Continue(s: State, phase: Phase): SweepState
    decreases phase.Lapsed?, if phase.Lapsed? then |phase.users| else 0
  {
    match phase
    case Idle => SweepState(s, Idle, None)
    case Lapsed(ps, now) =>
      if ps == [] then Continue(s, Overdue(Ascending(OverdueTrials(s, now))))
      else if ps[0] !in s.users then Continue(s, Lapsed(ps[1..], now))
      else SweepState(s.(users := s.users - {ps[0]}), Lapsed(ps[1..], now), Some(s.users[ps[0]].canisterId))
    case Overdue(cs) =>
      if cs == [] then SweepState(s, Idle, None)
      else
        var owners := OwnersOf(s, {cs[0]});
        SweepState(s.(users := s.users - owners, pending := s.pending - owners), Overdue(cs[1..]), Some(cs[0]))
  }

  function After(a: SweepState, step: Step): SweepState {
    match step
    case Start(now) =>
      if !a.phase.Idle? then a
      else
        var overdue := OverdueRegistrations(a.index, now);
        Continue(a.index.(pending := a.index.pending - overdue), Lapsed(Ascending(overdue), now))
    case Resume =>
      if a.returning.None? then a else Continue(ReturnAll(a.index, {a.returning.value}), a.phase)
    case Message(e) => a.(index := Next(a.index, e))
  }

  /** Neither a tick nor an upgrade. */
  ghost predicate Quiet(s: State, e: Event) {
    Admissible(s, e) && !e.Tick? && !e.PostUpgrade?
  }

  /** A late re-registration: the old record goes and its canister is freed before another one is taken. */
  predicate Restarts(s: State, e: Event) {
    e.Register? && !IsBlank(e.username) && ConfirmOverdue(s, e.caller, e.now)
  }

  /** What may run while a sweep does; no late re-registration frees a canister of the snapshot. */
  ghost predicate Gentle(a: SweepState, e: Event) {
    && Quiet(a.index, e)
    && (a.phase.Overdue? && Restarts(a.index, e) ==> a.index.users[e.caller].canisterId !in a.phase.canisters)
  }

  /** One sweep at a time, and only gentle messages while it runs. */
  ghost predicate Disciplined(a: SweepState, step: Step) {
    match step
    case Start(_) => a.phase.Idle?
    case Resume => !a.phase.Idle?
    case Message(e) => Admissible(a.index, e) && (!a.phase.Idle? ==> Gentle(a, e))
  }

  function RunSteps(a: SweepState, steps: seq<Step>): SweepState
    decreases |steps|
  {
    if steps == [] then a else RunSteps(After(a, steps[0]), steps[1..])
  }

  ghost predicate DisciplinedRun(a: SweepState, steps: seq<Step>)
    decreases |steps|
  {
    steps == [] || (Disciplined(a, steps[0]) && DisciplinedRun(After(a, steps[0]), steps[1..]))
  }

  /// Without messages in between, the sweep is the one that runs as a single step

  function Todo(phase: Phase): seq<Principal> {
    match phase
    case Idle => []
    case Lapsed(ps, _) => ps
    case Overdue(cs) => cs
  }

  lemma {:induction false} ContinueAdvances(s: State, phase: Phase)
    ensures var next := Continue(s, phase).phase;
            && (phase.Lapsed? ==> !next.Lapsed? || |next.users| < |phase.users|)
            && (phase.Overdue? ==> next.Idle? || (next.Overdue? && |next.canisters| < |phase.canisters|))
            && (phase.Idle? ==> next.Idle? && Continue(s, phase).returning.None?)
    decreases phase.Lapsed?, |Todo(phase)|
  {
    if phase.Lapsed? {
      if phase.users == [] {
        ContinueAdvances(s, Overdue(Ascending(OverdueTrials(s, phase.now))));
      } else if phase.users[0] !in s.users {
        ContinueAdvances(s, Lapsed(phase.users[1..], phase.now));
      }
    }
  }

  /** Resumes until nothing is left to do. */
  function Finish(a: SweepState): SweepState
    decreases a.phase.Lapsed?, a.phase.Overdue?, |Todo(a.phase)|, a.returning.Some?
  {
    if a.returning.None? then a
    else
      ContinueAdvances(ReturnAll(a.index, {a.returning.value}), a.phase);
      Finish(After(a, Resume))
  }

  /** The closed form of what is left of a sweep. */
  function Swept(s: State, phase: Phase): State {
    match phase
    case Idle => s
    case Lapsed(ps, now) =>
      SweepTrials(ReturnAll(s, CanistersOf(s, Elements(ps))).(users := s.users - Elements(ps)), now)
    case Overdue(cs) =>
      var owners := OwnersOf(s, Elements(cs));
      ReturnAll(s, Elements(cs)).(users := s.users - owners, pending := s.pending - owners)
  }

  ghost predicate DistinctTodo(phase: Phase) {
    forall i, j | 0 <= i < j < |Todo(phase)| :: Todo(phase)[i] != Todo(phase)[j]
  }

  lemma {:induction false} FinishIsSwept(s: State, phase: Phase)
    requires DistinctTodo(phase)
    ensures Finish(Continue(s, phase)) == SweepState(Swept(s, phase), Idle, None)
    decreases phase.Lapsed?, |Todo(phase)|
  {
    match phase
    case Idle =>
    case Lapsed(ps, now) =>
      if ps == [] {
        NothingLapsed(s, now);
        FinishIsSwept(s, Overdue(Ascending(OverdueTrials(s, now))));
      } else {
        LapsedInTwoParts(s, ps, now);
        if ps[0] in s.users {
          var a := Continue(s, phase);
          FinishIsSwept(ReturnAll(a.index, {a.returning.value}), a.phase);
        } else {
          FinishIsSwept(s, Lapsed(ps[1..], now));
        }
      }
    case Overdue(cs) =>
      if cs == [] {
        NothingOverdue(s);
      } else {
        var a := Continue(s, phase);
        FinishIsSwept(ReturnAll(a.index, {cs[0]}), a.phase);
        OverdueInTwoParts(s, cs);
      }
  }

  lemma NothingOverdue(s: State)
    ensures Swept(s, Overdue([])) == s
  {
    assert Elements([]) == {} && OwnersOf(s, {}) == {};
    assert SetFree(s.pool, {}) == s.pool && s.trials - {} == s.trials;
    assert s.users - {} == s.users && s.pending - {} == s.pending;
  }

  lemma NothingLapsed(s: State, now: nat)
    ensures Swept(s, Lapsed([], now)) == Swept(s, Overdue(Ascending(OverdueTrials(s, now))))
  {
    assert Elements([]) == {} && CanistersOf(s, {}) == {};
    assert SetFree(s.pool, {}) == s.pool && s.trials - {} == s.trials && s.users - {} == s.users;
    assert ReturnAll(s, {}).(users := s.users - {}) == s;
    assert Elements(Ascending(OverdueTrials(s, now))) == OverdueTrials(s, now);
  }

  lemma ReturnInTwoParts(s: State, cs: set<Principal>, more: set<Principal>)
    ensures ReturnAll(ReturnAll(s, cs), more) == ReturnAll(s, cs + more)
  {
    assert SetFree(SetFree(s.pool, cs), more) == SetFree(s.pool, cs + more);
    assert (s.trials - cs) - more == s.trials - (cs + more);
  }

  lemma LapsedInTwoParts(s: State, ps: seq<Principal>, now: nat)
    requires ps != []
    ensures var p := ps[0];
            var s' := if p in s.users then ReturnAll(s.(users := s.users - {p}), {s.users[p].canisterId}) else s;
            Swept(s', Lapsed(ps[1..], now)) == Swept(s, Lapsed(ps, now))
  {
    var p, rest := ps[0], Elements(ps[1..]);
    assert ps == [p] + ps[1..];
    assert Elements(ps) == {p} + rest;
    assert s.users - {p} - rest == s.users - ({p} + rest);
    if p in s.users {
      var t, c := s.(users := s.users - {p}), s.users[p].canisterId;
      assert {c} + CanistersOf(t, rest) == CanistersOf(s, {p} + rest);
      ReturnInTwoParts(t, {c}, CanistersOf(t, rest));
    } else {
      assert CanistersOf(s, {p} + rest) == CanistersOf(s, rest);
      assert s.users - rest == s.users - ({p} + rest);
    }
  }

  lemma HeadAndRest(cs: seq<Principal>)
    requires cs != [] && forall i, j | 0 <= i < j < |cs| :: cs[i] != cs[j]
    ensures Elements(cs) == {cs[0]} + Elements(cs[1..]) && cs[0] !in Elements(cs[1..])
  {
    assert cs == [cs[0]] + cs[1..];
    forall i | 0 <= i < |cs[1..]| ensures cs[1..][i] != cs[0] {
      assert cs[1..][i] == cs[i + 1];
    }
  }

  lemma OwnersInTwoParts(s: State, t: State, c: Principal, rest: set<Principal>)
    requires t.pool == SetFree(s.pool, {c}) && c !in rest
    ensures OwnersOf(t, rest) == OwnersOf(s, rest)
    ensures OwnersOf(s, {c}) + OwnersOf(s, rest) == OwnersOf(s, {c} + rest)
  {}

  lemma OverdueInTwoParts(s: State, cs: seq<Principal>)
    requires cs != [] && DistinctTodo(Overdue(cs))
    ensures Swept(ReturnAll(Continue(s, Overdue(cs)).index, {cs[0]}), Overdue(cs[1..])) == Swept(s, Overdue(cs))
  {
    var c, rest, t := cs[0], Elements(cs[1..]), Continue(s, Overdue(cs)).index;
    HeadAndRest(Todo(Overdue(cs)));
    ReturnInTwoParts(t, {c}, rest);
    OwnersInTwoParts(s, ReturnAll(t, {c}), c, rest);
    assert s.users - OwnersOf(s, {c}) - OwnersOf(s, rest) == s.users - OwnersOf(s, {c} + rest);
    assert s.pending - OwnersOf(s, {c}) - OwnersOf(s, rest) == s.pending - OwnersOf(s, {c} + rest);
  }

  /** A sweep that nothing interrupts does what the sweep of a tick does in one step. */
  lemma UninterruptedSweep(s: State, now: nat)
    ensures Finish(After(SweepState(s, Idle, None), Start(now))) ==
            SweepState(SweepTrials(SweepPending(s, now), now), Idle, None)
  {
    var overdue := OverdueRegistrations(s, now);
    var t := s.(pending := s.pending - overdue);
    FinishIsSwept(t, Lapsed(Ascending(overdue), now));
    assert Elements(Ascending(overdue)) == overdue;
    assert CanistersOf(t, overdue) == CanistersOf(s, overdue);
  }

  /// The invariant of a running sweep

  function Returning(a: SweepState): set<Principal> {
    if a.returning.Some? then {a.returning.value} else {}
  }

  function Drained(a: SweepState): set<Principal> {
    if a.phase.Lapsed? then Elements(a.phase.users) else {}
  }

  /** The pending index with the entries of `ps` put back, as far as they have pending records. */
  function Restored(pending: map<Principal, nat>, users: map<Principal, User>, ps: set<Principal>)
    : map<Principal, nat>
  {
    map p | p in pending.Keys + ps * PendingEntries(users).Keys ::
      if p in pending then pending[p] else PendingEntries(users)[p]
  }

  /** The index as it would be without the sweep: nothing drained, and no lease on the canister being returned. */
  function Settled(a: SweepState): State {
    var s := a.index;
    s.(pool := SetFree(s.pool, Returning(a)),
       trials := s.trials - Returning(a),
       pending := Restored(s.pending, s.users, Drained(a)))
  }

  ghost predicate SnapshotLeased(a: SweepState) {
    a.phase.Overdue? ==>
      && (forall i | 0 <= i < |a.phase.canisters| ::
            var c := a.phase.canisters[i];
            c in a.index.pool && a.index.pool[c].state.Assigned? && c !in Returning(a))
      && (forall i, j | 0 <= i < j < |a.phase.canisters| :: a.phase.canisters[i] != a.phase.canisters[j])
  }

  /** The canister being returned is not on offer, though the pool still has its old lease. */
  ghost predicate IsReturning(s: State, c: Principal) {
    c in s.pool && s.pool[c].state.Assigned? && c !in s.available
  }

  ghost predicate SweepInv(a: SweepState) {
    && Inv(Settled(a))
    && SnapshotLeased(a)
    && (a.phase.Idle? <==> a.returning.None?)
    && (a.returning.Some? ==> IsReturning(a.index, a.returning.value))
  }

  lemma IdleIsSettled(a: SweepState)
    requires a.phase.Idle? && a.returning.None?
    ensures Settled(a) == a.index
  {
    var s := Settled(a);
    assert s.pool == a.index.pool && s.trials == a.index.trials && s.pending == a.index.pending;
  }

  /** Offering fewer canisters, and forgetting pending entries of nobody, keeps the invariant. */
  lemma LooserKeepsInv(s: State, s': State)
    requires Inv(s) && s' == s.(available := s'.available, pending := s'.pending)
    requires s'.available <= FreeEntries(s.pool)
    requires forall p | p in s.users :: (p in s'.pending <==> p in s.pending)
    requires forall p | p in s.users && p in s.pending :: s'.pending[p] == s.pending[p]
    ensures Inv(s')
  {
    forall p | p in s'.users ensures IsAssignedTo(s', s'.users[p].canisterId, p) {
      assert IsAssignedTo(s, s.users[p].canisterId, p);
    }
  }

  /** One removal: the record of `p` goes, and its canister is on its way back. */
  lemma RemovalKeepsInv(a: SweepState, p: Principal, a': SweepState)
    requires Inv(Settled(a)) && a.returning.None? && p in a.index.users
    requires a'.index == a.index.(users := a.index.users - {p}, pending := a'.index.pending)
    requires a'.returning == Some(a.index.users[p].canisterId)
    requires forall q | q in a'.index.users :: q in Settled(a').pending <==> q in Settled(a).pending
    requires forall q | q in a'.index.users && q in Settled(a).pending ::
               Settled(a').pending[q] == Settled(a).pending[q]
    ensures Inv(Settled(a')) && IsReturning(a'.index, a'.returning.value)
  {
    var s := Settled(a);
    assert IsAssignedTo(s, a.index.users[p].canisterId, p);
    EvictReleases(s, p);
    RemovalSettles(a, p, a');
    LooserKeepsInv(Evict(s, p), Settled(a'));
  }

  lemma RemovalSettles(a: SweepState, p: Principal, a': SweepState)
    requires a.returning.None? && p in a.index.users
    requires a'.index == a.index.(users := a.index.users - {p}, pending := a'.index.pending)
    requires a'.returning == Some(a.index.users[p].canisterId)
    ensures Settled(a') == Evict(Settled(a), p).(available := a.index.available, pending := Settled(a').pending)
  {
    assert Settled(a').pool == Evict(Settled(a), p).pool;
    assert Settled(a').trials == Evict(Settled(a), p).trials;
  }

  lemma ContinueKeepsInv(s: State, phase: Phase)
    requires Inv(Settled(SweepState(s, phase, None))) && SnapshotLeased(SweepState(s, phase, None))
    ensures SweepInv(Continue(s, phase))
    decreases phase.Lapsed?, if phase.Lapsed? then |phase.users| else 0
  {
    var a := SweepState(s, phase, None);
    match phase
    case Idle =>
    case Lapsed(ps, now) =>
      if ps == [] {
        SnapshotIsLeased(s, now);
        ContinueKeepsInv(s, Overdue(Ascending(OverdueTrials(s, now))));
      } else if ps[0] !in s.users {
        assert Settled(SweepState(s, Lapsed(ps[1..], now), None)) == Settled(a) by {
          SkippedEntry(s, ps);
        }
        ContinueKeepsInv(s, Lapsed(ps[1..], now));
      } else {
        SkippedEntry(s.(users := s.users - {ps[0]}), ps);
        RemovalKeepsInv(a, ps[0], Continue(s, phase));
      }
    case Overdue(cs) =>
      if cs == [] {
        SettledAtTheEnd(s);
      } else {
        OverdueStepKeepsInv(s, cs);
      }
  }

  lemma SettledAtTheEnd(s: State)
    ensures Settled(SweepState(s, Overdue([]), None)) == Settled(SweepState(s, Idle, None))
  {}

  lemma SkippedEntry(s: State, ps: seq<Principal>)
    requires ps != [] && ps[0] !in s.users
    ensures Restored(s.pending, s.users, Elements(ps)) == Restored(s.pending, s.users, Elements(ps[1..]))
  {
    assert ps == [ps[0]] + ps[1..];
    forall p | p in s.users ensures p in Elements(ps) <==> p in Elements(ps[1..]) {}
  }

  lemma SnapshotIsLeased(s: State, now: nat)
    requires Inv(Settled(SweepState(s, Lapsed([], now), None)))
    ensures var a := SweepState(s, Overdue(Ascending(OverdueTrials(s, now))), None);
            Settled(a) == Settled(SweepState(s, Lapsed([], now), None)) && SnapshotLeased(a)
  {
    var a := SweepState(s, Overdue(Ascending(OverdueTrials(s, now))), None);
    assert Settled(a).trials == s.trials && Settled(a).pool == s.pool;
    assert Elements([]) == {};
    forall i | 0 <= i < |a.phase.canisters| ensures a.phase.canisters[i] in OverdueTrials(s, now) {
      assert a.phase.canisters[i] in a.phase.canisters;
    }
  }

  lemma OverdueStepKeepsInv(s: State, cs: seq<Principal>)
    requires cs != [] && Inv(Settled(SweepState(s, Overdue(cs), None))) &&
             SnapshotLeased(SweepState(s, Overdue(cs), None))
    ensures SweepInv(Continue(s, Overdue(cs)))
  {
    var a, a' := SweepState(s, Overdue(cs), None), Continue(s, Overdue(cs));
    var c := cs[0];
    var owner := s.pool[c].state.owner;
    assert c in Settled(a).pool && Settled(a).pool[c] == s.pool[c];
    assert OwnersOf(s, {c}) == {owner};
    RemovalKeepsInv(a, owner, a');
  }

  lemma ReturnKeepsInv(a: SweepState)
    requires SweepInv(a) && a.returning.Some?
    ensures var b := SweepState(ReturnAll(a.index, {a.returning.value}), a.phase, None);
            Inv(Settled(b)) && SnapshotLeased(b)
  {
    var c := a.returning.value;
    var b := SweepState(ReturnAll(a.index, {c}), a.phase, None);
    var s := Settled(a);
    assert Settled(b).pool == s.pool && Settled(b).trials == s.trials && Settled(b).pending == s.pending;
    assert Settled(b) == s.(available := s.available + {c});
    LooserKeepsInv(s, Settled(b));
  }

  lemma StartKeepsInv(s: State, now: nat)
    requires Inv(s)
    ensures var overdue := OverdueRegistrations(s, now);
            var b := SweepState(s.(pending := s.pending - overdue), Lapsed(Ascending(overdue), now), None);
            Settled(b).users == s.users && Inv(Settled(b))
  {
    var overdue := OverdueRegistrations(s, now);
    var b := SweepState(s.(pending := s.pending - overdue), Lapsed(Ascending(overdue), now), None);
    assert Elements(Ascending(overdue)) == overdue;
    assert Settled(b).pool == s.pool && Settled(b).trials == s.trials;
    assert Settled(b) == s.(pending := Settled(b).pending);
    LooserKeepsInv(s, Settled(b));
  }

  /// Messages during a sweep

  /** Equal but for pending entries of principals without a record. */
  ghost predicate SameForUsers(s: State, t: State) {
    && t == s.(pending := t.pending)
    && (forall p | p in s.users :: p in t.pending <==> p in s.pending)
    && (forall p | p in s.users && p in s.pending :: t.pending[p] == s.pending[p])
  }

  /** To the rest of the index, the sweep is invisible: a message does to it what it would do without. */
  lemma MessageSettles(a: SweepState, e: Event)
    requires SweepInv(a) && Gentle(a, e)
    ensures SameForUsers(Next(Settled(a), e), Settled(After(a, Message(e))))
  {
    if Restarts(a.index, e) {
      RestartSettles(a, e);
    } else {
      OtherMessageSettles(a, e);
    }
  }

  lemma OtherMessageSettles(a: SweepState, e: Event)
    requires SweepInv(a) && Gentle(a, e) && !Restarts(a.index, e)
    ensures Settled(After(a, Message(e))) == Next(Settled(a), e)
  {
    match e
    case Register(caller, now, username, installOk) => RegisterSettles(a, e);
    case Confirm(caller, user) => ConfirmSettles(a, e);
    case ClaimManager(caller) => ClaimSettles(a, e);
    case Promote(_, _) => ManagersSettle(a, e);
    case Demote(_, _) => ManagersSettle(a, e);
    case Provision(_, count, replies) => ProvisionSettles(a, e);
    case CreateOne(_, _) => CreateSettles(a, e);
  }

  lemma ManagersSettle(a: SweepState, e: Event)
    requires e.Promote? || e.Demote?
    ensures Settled(After(a, Message(e))) == Next(Settled(a), e)
  {}

  lemma RegisterSettles(a: SweepState, e: Event)
    requires SweepInv(a) && e.Register? && !Restarts(a.index, e)
    ensures Settled(After(a, Message(e))) == Next(Settled(a), e)
  {
    if e.caller !in a.index.users && !IsBlank(e.username) {
      EnrollSettles(a, e.caller, e.now, e.username, e.installOk);
    }
  }

  lemma EnrollSettles(a: SweepState, caller: Principal, now: nat, username: string, installOk: bool)
    requires forall c | c in a.index.available :: c in a.index.pool && c !in Returning(a)
    ensures Settled(a.(index := Enroll(a.index, caller, now, username, installOk).0)) ==
            Enroll(Settled(a), caller, now, username, installOk).0
  {
    var (s, r) := Reserve(a.index, caller, now, username);
    if r.Some? && installOk {
      CommitSettles(a.(index := s), r.value);
    }
  }

  lemma EnrollSame(s: State, t: State, caller: Principal, now: nat, username: string, installOk: bool)
    requires SameForUsers(s, t)
    ensures SameForUsers(Enroll(s, caller, now, username, installOk).0, Enroll(t, caller, now, username, installOk).0)
  {}

  lemma EvictSettles(a: SweepState, p: Principal)
    requires p in a.index.users
    ensures SameForUsers(Evict(Settled(a), p), Settled(a.(index := Evict(a.index, p))))
  {
    var s, c := a.index, a.index.users[p].canisterId;
    assert SetFree(SetFree(s.pool, {c}), Returning(a)) == SetFree(SetFree(s.pool, Returning(a)), {c});
    assert (s.trials - {c}) - Returning(a) == (s.trials - Returning(a)) - {c};
  }

  lemma RestartSettles(a: SweepState, e: Event)
    requires SweepInv(a) && Restarts(a.index, e)
    ensures SameForUsers(Next(Settled(a), e), Settled(After(a, Message(e))))
  {
    var b := a.(index := Evict(a.index, e.caller));
    ReturningIsNobodys(a, e.caller);
    EvictSettles(a, e.caller);
    EnrollSettles(b, e.caller, e.now, e.username, e.installOk);
    EnrollSame(Evict(Settled(a), e.caller), Settled(b), e.caller, e.now, e.username, e.installOk);
  }

  lemma FreeUpdate(pool: map<Principal, PoolEntry>, c: Principal, entry: PoolEntry, gone: set<Principal>)
    requires c !in gone
    ensures SetFree(pool[c := entry], gone) == SetFree(pool, gone)[c := entry]
  {}

  lemma RestoredUpdate(
    pending: map<Principal, nat>, users: map<Principal, User>, ps: set<Principal>, p: Principal, u: User)
    requires u.status.Pending?
    ensures Restored(pending[p := u.status.since], users[p := u], ps) ==
            Restored(pending, users, ps)[p := u.status.since]
  {}

  lemma RestoredRemove(
    pending: map<Principal, nat>, users: map<Principal, User>, ps: set<Principal>, p: Principal, u: User)
    requires u.status.Active?
    ensures Restored(pending - {p}, users[p := u], ps) == Restored(pending, users, ps) - {p}
  {}

  lemma CommitSettles(a: SweepState, r: Reservation)
    requires r.canisterId in a.index.pool && r.canisterId !in Returning(a)
    ensures Settled(a.(index := Commit(a.index, r))) == Commit(Settled(a), r)
  {
    var s, c := a.index, r.canisterId;
    FreeUpdate(s.pool, c, s.pool[c].(state := Assigned(r.principal, ExpiryOf(r))), Returning(a));
    RestoredUpdate(s.pending, s.users, Drained(a), r.principal, UserOf(r));
    assert s.trials[c := r.startedAt + TRIAL_EXPIRY_NS] - Returning(a) ==
           (s.trials - Returning(a))[c := r.startedAt + TRIAL_EXPIRY_NS];
  }

  lemma ConfirmSettles(a: SweepState, e: Event)
    requires e.Confirm?
    ensures Settled(After(a, Message(e))) == Next(Settled(a), e)
  {
    var s := a.index;
    if e.user in s.users {
      RestoredRemove(s.pending, s.users, Drained(a), e.user, s.users[e.user].(status := Active));
    }
  }

  lemma ClaimSettles(a: SweepState, e: Event)
    requires SweepInv(a) && e.ClaimManager?
    ensures Settled(After(a, Message(e))) == Next(Settled(a), e)
  {
    var s := a.index;
    if e.caller in s.users {
      var c := s.users[e.caller].canisterId;
      assert IsAssignedTo(Settled(a), c, e.caller);
      PermanentSettles(a, e.caller);
    }
  }

  lemma PermanentSettles(a: SweepState, p: Principal)
    requires p in a.index.users && IsAssignedTo(Settled(a), a.index.users[p].canisterId, p)
    ensures Settled(a.(index := MakePermanent(a.index, p))) == MakePermanent(Settled(a), p)
  {
    var s, c := a.index, a.index.users[p].canisterId;
    FreeUpdate(s.pool, c, s.pool[c].(state := Assigned(s.pool[c].state.owner, None)), Returning(a));
    assert (s.trials - {c}) - Returning(a) == (s.trials - Returning(a)) - {c};
  }

  lemma CreateSettles(a: SweepState, e: Event)
    requires SweepInv(a) && Gentle(a, e) && e.CreateOne?
    ensures Settled(After(a, Message(e))) == Next(Settled(a), e)
  {
    assert [e.reply][0] == e.reply;
    assert Settled(After(a, Message(e))).pool == Next(Settled(a), e).pool;
  }

  lemma ProvisionSettles(a: SweepState, e: Event)
    requires SweepInv(a) && Gentle(a, e) && e.Provision?
    ensures Settled(After(a, Message(e))) == Next(Settled(a), e)
  {
    BatchIsNew(a.index, e.replies, e.count);
    BatchSettles(a, Accepted(e.replies, e.count));
  }

  lemma BatchIsNew(s: State, replies: seq<CreateReply>, n: nat)
    requires Fresh(s.pool, replies)
    ensures CreatedIds(Accepted(replies, n)) !! s.pool.Keys
  {
    BatchAdds(s, replies, n);
  }

  lemma {:induction false} BatchSettles(a: SweepState, replies: seq<CreateReply>)
    requires forall c | c in CreatedIds(replies) :: c !in Returning(a)
    ensures Settled(a.(index := CreateAll(a.index, replies))) == CreateAll(Settled(a), replies)
    decreases |replies|
  {
    if replies != [] {
      var n := |replies| - 1;
      assert replies == replies[..n] + [replies[n]];
      BatchSettles(a, replies[..n]);
      var s := CreateAll(a.index, replies[..n]);
      assert Settled(a.(index := Create(s, replies[n]))).pool == Create(Settled(a.(index := s)), replies[n]).pool;
    }
  }

  lemma QuietKeepsUser(s: State, e: Event, p: Principal)
    requires Inv(s) && Quiet(s, e) && p in s.users && !(Restarts(s, e) && e.caller == p)
    ensures p in Next(s, e).users && Next(s, e).users[p].userId == s.users[p].userId
  {
    if e.Register? && e.caller != p {
      RegistrationSparesOthers(s, e.caller, e.now, e.username, e.installOk, p);
    } else if e.Provision? {
      BatchSparesUser(s, e.replies, e.count, p);
    }
  }

  /** A canister that is neither on offer nor anyone's keeps its pool entry. */
  lemma QuietKeepsEntry(s: State, e: Event, c: Principal)
    requires Quiet(s, e) && c in s.pool && c !in s.available
    requires forall p | p in s.users :: s.users[p].canisterId != c
    ensures c in Next(s, e).pool && Next(s, e).pool[c] == s.pool[c]
  {
    match e
    case Provision(_, count, replies) => BatchAdds(s, replies, count);
    case CreateOne(_, reply) =>
      assert [reply][0] == reply;
    case _ =>
  }

  /** Nobody's record names the canister being returned. */
  lemma ReturningIsNobodys(a: SweepState, p: Principal)
    requires SweepInv(a) && p in a.index.users
    ensures a.index.users[p].canisterId !in Returning(a)
    ensures IsAssignedTo(a.index, a.index.users[p].canisterId, p)
    ensures Settled(a).pool[a.index.users[p].canisterId] == a.index.pool[a.index.users[p].canisterId]
  {
    assert IsAssignedTo(Settled(a), a.index.users[p].canisterId, p);
  }

  lemma GentleKeepsReturning(a: SweepState, e: Event)
    requires SweepInv(a) && Gentle(a, e) && a.returning.Some?
    ensures IsReturning(Next(a.index, e), a.returning.value)
  {
    var c, s := a.returning.value, Settled(a);
    forall p | p in a.index.users ensures a.index.users[p].canisterId != c {
      ReturningIsNobodys(a, p);
    }
    QuietKeepsEntry(a.index, e, c);
    MessageSettles(a, e);
    assert c in Stranded(s);
    StrandedExactly(s, e);
    assert c in Stranded(Next(s, e));
  }

  /** `p`'s lease on `c`, as it stands after message `e`: only the first claim touches it. */
  ghost predicate KeptLease(s: State, e: Event, s': State, p: Principal, c: Principal) {
    && c in s.pool && c in s'.pool
    && s'.pool[c] ==
       if e == ClaimManager(p) && s.managers == {} then s.pool[c].(state := Assigned(p, None)) else s.pool[c]
  }

  lemma SettledEntry(a: SweepState, c: Principal)
    requires c !in Returning(a)
    ensures c in Settled(a).pool <==> c in a.index.pool
    ensures c in a.index.pool ==> Settled(a).pool[c] == a.index.pool[c]
  {}

  lemma GentleKeepsRecord(a: SweepState, e: Event, p: Principal)
    requires SweepInv(a) && Gentle(a, e) && p in a.index.users && !(Restarts(a.index, e) && e.caller == p)
    ensures var s' := Next(Settled(a), e);
            var c := a.index.users[p].canisterId;
            && p in s'.users && s'.users[p].userId == a.index.users[p].userId && s'.users[p].canisterId == c
            && KeptLease(Settled(a), e, s', p, c)
  {
    QuietKeepsUser(Settled(a), e, p);
    LeaseFixed(Settled(a), e, p);
  }

  /** While a sweep runs, messages keep the records of other users, and their leases up to the first claim. */
  lemma GentleKeepsLease(a: SweepState, e: Event, p: Principal)
    requires SweepInv(a) && Gentle(a, e) && p in a.index.users && !(Restarts(a.index, e) && e.caller == p)
    ensures var c := a.index.users[p].canisterId;
            var a' := After(a, Message(e));
            && p in a'.index.users && a'.index.users[p].userId == a.index.users[p].userId
            && a'.index.users[p].canisterId == c && c !in Returning(a)
            && KeptLease(a.index, e, a'.index, p, c)
  {
    var a', c := After(a, Message(e)), a.index.users[p].canisterId;
    GentleKeepsRecord(a, e, p);
    MessageSettles(a, e);
    ReturningIsNobodys(a, p);
    SettledEntry(a, c);
    SettledEntry(a', c);
  }

  lemma GentleKeepsSnapshot(a: SweepState, e: Event)
    requires SweepInv(a) && Gentle(a, e) && a.phase.Overdue?
    ensures SnapshotLeased(After(a, Message(e)))
  {
    var a' := After(a, Message(e));
    forall i | 0 <= i < |a.phase.canisters|
      ensures a.phase.canisters[i] in a'.index.pool && a'.index.pool[a.phase.canisters[i]].state.Assigned?
    {
      var c := a.phase.canisters[i];
      assert c in Settled(a).pool && Settled(a).pool[c] == a.index.pool[c];
      assert c == a.index.users[a.index.pool[c].state.owner].canisterId;
      GentleKeepsLease(a, e, a.index.pool[c].state.owner);
    }
  }

  lemma GentleKeepsSweepInv(a: SweepState, e: Event)
    requires SweepInv(a) && Gentle(a, e)
    ensures SweepInv(After(a, Message(e)))
  {
    MessageSettles(a, e);
    NextKeepsInv(Settled(a), e);
    LooserKeepsInv(Next(Settled(a), e), Settled(After(a, Message(e))));
    if a.phase.Overdue? {
      GentleKeepsSnapshot(a, e);
    }
    if a.returning.Some? {
      GentleKeepsReturning(a, e);
    }
  }

  lemma StepKeepsSweepInv(a: SweepState, step: Step)
    requires SweepInv(a) && Disciplined(a, step)
    ensures SweepInv(After(a, step))
  {
    match step
    case Start(now) =>
      IdleIsSettled(a);
      StartKeepsInv(a.index, now);
      var overdue := OverdueRegistrations(a.index, now);
      ContinueKeepsInv(a.index.(pending := a.index.pending - overdue), Lapsed(Ascending(overdue), now));
    case Resume =>
      ReturnKeepsInv(a);
      ContinueKeepsInv(ReturnAll(a.index, {a.returning.value}), a.phase);
    case Message(e) =>
      if a.phase.Idle? {
        IdleIsSettled(a);
        NextKeepsInv(a.index, e);
        IdleIsSettled(After(a, step));
      } else {
        GentleKeepsSweepInv(a, e);
      }
  }

  const START: SweepState := SweepState(INITIAL, Idle, None)

  /** However messages fall between the steps of a sweep, what the sweep hides from them is consistent. */
  lemma {:induction false} RunKeepsSweepInv(a: SweepState, steps: seq<Step>)
    requires SweepInv(a) && DisciplinedRun(a, steps)
    ensures SweepInv(RunSteps(a, steps))
    decreases |steps|
  {
    if steps != [] {
      StepKeepsSweepInv(a, steps[0]);
      RunKeepsSweepInv(After(a, steps[0]), steps[1..]);
    }
  }

  /**
   * Whenever no sweep is running, the index satisfies the invariant of the uninterrupted messages; while
   * one is running, all that is off is the lease of the one canister being returned.
   */
  lemma IndexBetweenSweeps(steps: seq<Step>)
    requires DisciplinedRun(START, steps)
    ensures var a := RunSteps(START, steps);
            && (a.phase.Idle? ==> Inv(a.index))
            && (forall p, c | c !in Returning(a) ::
                  (p in a.index.users && a.index.users[p].canisterId == c) <==> IsAssignedTo(a.index, c, p))
            && (forall p | p in a.index.users :: a.index.users[p].canisterId !in Returning(a))
  {
    InitialInv();
    IdleIsSettled(START);
    RunKeepsSweepInv(START, steps);
    var a := RunSteps(START, steps);
    if a.phase.Idle? {
      IdleIsSettled(a);
    }
    forall p | p in a.index.users ensures a.index.users[p].canisterId !in Returning(a) {
      ReturningIsNobodys(a, p);
    }
    forall p, c | c !in Returning(a)
      ensures (p in a.index.users && a.index.users[p].canisterId == c) <==> IsAssignedTo(a.index, c, p)
    {
      if p in a.index.users {
        ReturningIsNobodys(a, p);
      }
      if IsAssignedTo(a.index, c, p) {
        assert IsAssignedTo(Settled(a), c, p);
      }
    }
  }

  /// An upgrade wipes the heap, and with it a running sweep

  /** An upgrade keeps the lease bijection exactly when no sweep is waiting for an uninstall. */
  lemma UpgradeKeepsLeasesIff(a: SweepState)
    requires SweepInv(a)
    ensures LeasesHaveUsers(Upgrade(a.index)) <==> a.phase.Idle?
  {
    if a.phase.Idle? {
      IdleIsSettled(a);
    } else {
      var s, c := a.index, a.returning.value;
      var owner := s.pool[c].state.owner;
      if owner in s.users {
        ReturningIsNobodys(a, owner);
      }
    }
  }
}
