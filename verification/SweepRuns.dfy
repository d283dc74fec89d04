/** Two runs from the initial state in which a sweep takes what was granted while it ran. */
module SweepRuns {
  import opened Prelude
  import opened IndexState
  import opened IndexTheorems
  import opened Sweeps

  /// A claim of the manager role after the snapshot

  /** The loss is real: two trials are overdue, and the second user claims the role while the first is swept. */
  lemma LateClaimRun()
    ensures var a := SweepState(Run(INITIAL, FIRST_TRIAL + SECOND_TRIAL), Idle, None);
            var b := After(After(a, Start(TRIAL_EXPIRY_NS)), Message(ClaimManager(2)));
            var end := After(After(b, Resume), Resume);
            && AdmissibleRun(INITIAL, FIRST_TRIAL + SECOND_TRIAL)
            && b.index.managers == {2} && HoldsPermanently(b.index, 2, 2)
            && end.phase.Idle? && end.index.users == map[] && end.index.managers == {2}
  {
    TwoTrials();
    StartOfLateClaim();
    var a := After(SweepState(TWO_TRIALS, Idle, None), Start(TRIAL_EXPIRY_NS));
    EndOfLateClaim(After(a, Message(ClaimManager(2))));
  }

  const FIRST_TRIAL: seq<Event> := [CreateOne(true, Created(7, 0)), Register(1, 0, "ann", true), Confirm(7, 1)]
  const SECOND_TRIAL: seq<Event> := [CreateOne(true, Created(8, 0)), Register(2, 0, "bob", true), Confirm(8, 2)]

  const LEASE_1: PoolEntry := PoolEntry(7, 0, Assigned(1, Some(TRIAL_EXPIRY_NS)))
  const LEASE_2: PoolEntry := PoolEntry(8, 0, Assigned(2, Some(TRIAL_EXPIRY_NS)))

  /** The state after both registrations. */
  const TWO_TRIALS: State := State(
    map[1 := User(1, 1, "ann", 7, Active), 2 := User(2, 2, "bob", 8, Active)],
    map[7 := LEASE_1, 8 := LEASE_2],
    {}, 3, DEFAULT_POOL_TARGET, {}, map[7 := TRIAL_EXPIRY_NS, 8 := TRIAL_EXPIRY_NS], map[])

  lemma {:induction false} RunInTwoParts(s: State, es: seq<Event>, more: seq<Event>)
    ensures Run(s, es + more) == Run(Run(s, es), more)
    ensures AdmissibleRun(s, es + more) <==> AdmissibleRun(s, es) && AdmissibleRun(Run(s, es), more)
    decreases |es|
  {
    if es == [] {
      assert es + more == more;
    } else {
      assert (es + more)[1..] == es[1..] + more;
      RunInTwoParts(Next(s, es[0]), es[1..], more);
    }
  }

  lemma OneTrial(s: State, p: Principal, c: Principal, username: string)
    requires s.available == {} && c !in s.pool && p !in s.users && p !in s.managers && p !in s.pending
    requires !IsBlank(username)
    ensures var es := [CreateOne(true, Created(c, 0)), Register(p, 0, username, true), Confirm(c, p)];
            && AdmissibleRun(s, es)
            && Run(s, es) == s.(users := s.users[p := User(s.nextUserId, p, username, c, Active)],
                                pool := s.pool[c := PoolEntry(c, 0, Assigned(p, Some(TRIAL_EXPIRY_NS)))],
                                trials := s.trials[c := TRIAL_EXPIRY_NS],
                                nextUserId := s.nextUserId + 1)
  {
    var e1, e2, e3 := CreateOne(true, Created(c, 0)), Register(p, 0, username, true), Confirm(c, p);
    RunOfThree(s, e1, e2, e3);
    assert [Created(c, 0)][0] == Created(c, 0);
    OneTrialStates(s, Next(s, e1), Next(Next(s, e1), e2), p, c, username);
  }

  lemma OneTrialStates(s: State, s1: State, s2: State, p: Principal, c: Principal, username: string)
    requires s.available == {} && c !in s.pool && p !in s.users && p !in s.managers && p !in s.pending
    requires !IsBlank(username)
    requires s1 == Create(s, Created(c, 0)) && s2 == RegisterUser(s1, p, 0, username, true).0
    ensures ConfirmRegistration(s2, c, p).0 ==
            s.(users := s.users[p := User(s.nextUserId, p, username, c, Active)],
               pool := s.pool[c := PoolEntry(c, 0, Assigned(p, Some(TRIAL_EXPIRY_NS)))],
               trials := s.trials[c := TRIAL_EXPIRY_NS],
               nextUserId := s.nextUserId + 1)
  {
    assert s1.available == {c};
    assert s2.available == {};
    assert s2.pending - {p} == s.pending;
  }

  lemma TwoTrials()
    ensures Run(INITIAL, FIRST_TRIAL + SECOND_TRIAL) == TWO_TRIALS
    ensures AdmissibleRun(INITIAL, FIRST_TRIAL + SECOND_TRIAL)
  {
    assert 'a' in "ann" && 'b' in "bob";
    OneTrial(INITIAL, 1, 7, "ann");
    OneTrial(Run(INITIAL, FIRST_TRIAL), 2, 8, "bob");
    RunInTwoParts(INITIAL, FIRST_TRIAL, SECOND_TRIAL);
  }

  lemma StartOfLateClaim()
    ensures var a := After(SweepState(TWO_TRIALS, Idle, None), Start(TRIAL_EXPIRY_NS));
            && a.index == TWO_TRIALS.(users := map[2 := User(2, 2, "bob", 8, Active)])
            && a.phase == Overdue([8]) && a.returning == Some(7)
  {
    var s, now := TWO_TRIALS, TRIAL_EXPIRY_NS;
    assert OverdueRegistrations(s, now) == {} && s.pending - {} == s.pending;
    assert OverdueTrials(s, now) == {7, 8};
    AscendingPair(7, 8);
    assert After(SweepState(s, Idle, None), Start(now)) == Continue(s, Overdue([7, 8]));
    assert OwnersOf(s, {7}) == {1};
    assert s.users - {1} == map[2 := User(2, 2, "bob", 8, Active)] && s.pending - {1} == s.pending;
    assert [7, 8][1..] == [8];
  }

  lemma AscendingPair(x: nat, y: nat)
    requires x < y
    ensures Ascending({x, y}) == [x, y]
  {
    assert Least({x, y}) == x && {x, y} - {x} == {y};
    assert Least({y}) == y && {y} - {y} == {};
    assert Ascending({y}) == [y];
  }

  lemma EndOfLateClaim(b: SweepState)
    requires b.phase == Overdue([8]) && b.returning == Some(7)
    requires b.index.users.Keys == {2} && 8 in b.index.pool && b.index.pool[8].state == Assigned(2, None)
    ensures var end := After(After(b, Resume), Resume);
            end.phase.Idle? && end.index.users == map[] && end.index.managers == b.index.managers
  {
    var s := ReturnAll(b.index, {7});
    assert OwnersOf(s, {8}) == {2};
    assert s.users - {2} == map[];
    assert [8][1..] == [];
    var c := After(b, Resume);
    assert c.phase == Overdue([]) && c.returning == Some(8) && c.index.users == map[];
    assert ReturnAll(c.index, {8}).users == map[];
  }

  /// A registration before its own stale entry is reached

  /**
   * User 1's late re-registration failed to install and left a stale entry. When user 0 lapses too, the
   * sweep drains both entries; user 1 registers while the sweep waits for user 0's uninstall, and the sweep
   * removes the new record.
   */
  lemma NewRegistrationLostRun()
    ensures var a := SweepState(Run(INITIAL, FAILED_RETRY + MORE_CANISTERS), Idle, None);
            var b := After(After(a, Start(LATE)), Message(Register(1, LATE, "ann", true)));
            var end := After(After(b, Resume), Resume);
            && AdmissibleRun(INITIAL, FAILED_RETRY + MORE_CANISTERS)
            && b.index.users == map[1 := User(4, 1, "ann", 9, Pending(LATE))]
            && end.phase.Idle? && end.index.users == map[]
  {
    StaleEntry();
    StartOfLostRegistration();
    EndOfLostRegistration();
  }

  const LATE: nat := PENDING_TIMEOUT_NS + 1
  const FAILED_RETRY: seq<Event> :=
    [CreateOne(true, Created(7, 0)), Register(1, 0, "ann", true), Register(1, LATE, "ann", false)]
  const MORE_CANISTERS: seq<Event> :=
    [CreateOne(true, Created(8, 0)), Register(0, 0, "bob", true), CreateOne(true, Created(9, 0))]

  const ENTRY_7: PoolEntry := PoolEntry(7, 0, Available)
  const ENTRY_8: PoolEntry := PoolEntry(8, 0, Assigned(0, Some(TRIAL_EXPIRY_NS)))
  const ENTRY_9: PoolEntry := PoolEntry(9, 0, Available)

  const AFTER_RETRY: State :=
    State(map[], map[7 := ENTRY_7], {}, 3, DEFAULT_POOL_TARGET, {}, map[], map[1 := 0])

  /** The state before the sweep. */
  const STALE_ENTRY: State := State(
    map[0 := User(3, 0, "bob", 8, Pending(0))], map[7 := ENTRY_7, 8 := ENTRY_8, 9 := ENTRY_9],
    {}, 4, DEFAULT_POOL_TARGET, {9}, map[8 := TRIAL_EXPIRY_NS], map[0 := 0, 1 := 0])

  lemma FailedRetry()
    ensures Run(INITIAL, FAILED_RETRY) == AFTER_RETRY && AdmissibleRun(INITIAL, FAILED_RETRY)
  {
    var e1, e2, e3 := CreateOne(true, Created(7, 0)), Register(1, 0, "ann", true), Register(1, LATE, "ann", false);
    RunOfThree(INITIAL, e1, e2, e3);
    assert 'a' in "ann";
    var s1 := Next(INITIAL, e1);
    assert s1.available == {7};
    var s2 := Next(s1, e2);
    assert s2.available == {} && s2.pending == map[1 := 0];
    assert Evict(s2, 1).available == {7} && Evict(s2, 1).trials == map[] && Evict(s2, 1).users == map[];
  }

  lemma StaleEntry()
    ensures Run(INITIAL, FAILED_RETRY + MORE_CANISTERS) == STALE_ENTRY
    ensures AdmissibleRun(INITIAL, FAILED_RETRY + MORE_CANISTERS)
  {
    FailedRetry();
    RunInTwoParts(INITIAL, FAILED_RETRY, MORE_CANISTERS);
    var e1, e2, e3 := CreateOne(true, Created(8, 0)), Register(0, 0, "bob", true), CreateOne(true, Created(9, 0));
    RunOfThree(AFTER_RETRY, e1, e2, e3);
    LapsedBob(Next(AFTER_RETRY, e1));
  }

  lemma LapsedBob(s: State)
    requires s == Create(AFTER_RETRY, Created(8, 0))
    ensures Create(RegisterUser(s, 0, 0, "bob", true).0, Created(9, 0)) == STALE_ENTRY
    ensures RegisterUser(s, 0, 0, "bob", true).0.pool.Keys == {7, 8}
  {
    assert 'b' in "bob";
    assert s.available == {8};
    assert RegisterUser(s, 0, 0, "bob", true).0.available == {};
  }

  /** The state after user 1 has registered, with the sweep waiting for canister 8. */
  const BEFORE_LOSS: SweepState := SweepState(
    State(map[1 := User(4, 1, "ann", 9, Pending(LATE))],
          map[7 := ENTRY_7, 8 := ENTRY_8, 9 := PoolEntry(9, 0, Assigned(1, Some(LATE + TRIAL_EXPIRY_NS)))],
          {}, 5, DEFAULT_POOL_TARGET, {}, map[8 := TRIAL_EXPIRY_NS, 9 := LATE + TRIAL_EXPIRY_NS], map[1 := LATE]),
    Lapsed([1], LATE), Some(8))

  lemma StartOfLostRegistration()
    ensures After(After(SweepState(STALE_ENTRY, Idle, None), Start(LATE)), Message(Register(1, LATE, "ann", true))) ==
            BEFORE_LOSS
  {
    BobIsTaken();
    RegistrationToLose(STALE_ENTRY.(users := map[], pending := map[]));
  }

  lemma BobIsTaken()
    ensures After(SweepState(STALE_ENTRY, Idle, None), Start(LATE)) ==
            SweepState(STALE_ENTRY.(users := map[], pending := map[]), Lapsed([1], LATE), Some(8))
  {
    var s := STALE_ENTRY;
    assert OverdueRegistrations(s, LATE) == {0, 1};
    assert s.pending - {0, 1} == map[] && s.users - {0} == map[];
    TwoDrained(s, 0, 1, LATE);
  }

  lemma TwoDrained(s: State, p: Principal, q: Principal, now: nat)
    requires p < q && p in s.users && OverdueRegistrations(s, now) == {p, q}
    ensures After(SweepState(s, Idle, None), Start(now)) ==
            SweepState(s.(users := s.users - {p}, pending := s.pending - {p, q}), Lapsed([q], now),
                       Some(s.users[p].canisterId))
  {
    AscendingPair(p, q);
    assert [p, q][1..] == [q];
  }

  lemma RegistrationToLose(t: State)
    requires t == STALE_ENTRY.(users := map[], pending := map[])
    ensures RegisterUser(t, 1, LATE, "ann", true).0 == BEFORE_LOSS.index
  {
    assert 'a' in "ann";
    assert Least(t.available) == 9 && t.available - {9} == {};
  }

  lemma EndOfLostRegistration()
    ensures var end := After(After(BEFORE_LOSS, Resume), Resume);
            end.phase.Idle? && end.index.users == map[]
  {
    var s := ReturnAll(BEFORE_LOSS.index, {8});
    assert s.users - {1} == map[] && [1][1..] == [];
    var c := After(BEFORE_LOSS, Resume);
    assert c == SweepState(s.(users := map[]), Lapsed([], LATE), Some(9));
    LastReturn(s.(users := map[]));
  }

  lemma LastReturn(s: State)
    requires s == ReturnAll(BEFORE_LOSS.index, {8}).(users := map[])
    ensures Continue(ReturnAll(s, {9}), Lapsed([], LATE)) == SweepState(ReturnAll(s, {9}), Idle, None)
  {
    assert OverdueTrials(ReturnAll(s, {9}), LATE) == {};
    assert Ascending({}) == [];
  }
}
