/**
 * The canister pool of `gpt_index`: its stable maps, its heap indexes, and what each message does
 * to them when it runs to completion.
 *
 * `users`, `pool`, `managers`, `nextUserId` and `poolTarget` live in stable memory. `available`,
 * `trials` and `pending` are heap indexes that can be rebuilt from the stable part.
 */
module IndexState {
  import opened Prelude

  /** Only identity and the byte order of principals matter here, so naturals stand for them. */
  type Principal = nat

  const PENDING_TIMEOUT_NS: nat := 15 * 60 * 1_000_000_000
  const TRIAL_EXPIRY_NS: nat := 60 * 60 * 1_000_000_000
  const DEFAULT_POOL_TARGET: nat := 5

  datatype Error =
    | InvalidInput | PoolExhausted | CallError | UserNotFound | Unauthorized | RoleAlreadyClaimed

  datatype LeaseState = Available | Assigned(owner: Principal, expiresAt: Option<nat>)

  datatype PoolEntry = PoolEntry(canisterId: Principal, timeCreated: nat, state: LeaseState)

  datatype UserStatus = Pending(since: nat) | Active

  datatype User = User(userId: nat, principal: Principal, username: string,
                       canisterId: Principal, status: UserStatus)

  datatype State = State(
    users: map<Principal, User>,
    pool: map<Principal, PoolEntry>,
    managers: set<Principal>,
    nextUserId: nat,
    poolTarget: nat,
    available: set<Principal>,
    trials: map<Principal, nat>,
    pending: map<Principal, nat>)

  /** The reply to a successful registration. */
  datatype Registration = Registration(userId: nat, principal: Principal, username: string, canisterId: Principal)

  /** The management canister's answer to one `create_canister` call. */
  datatype CreateReply = Created(id: Principal, at: nat) | NotCreated

  /** A canister taken out of `available` for a registration whose code is still being installed. */
  datatype Reservation = Reservation(userId: nat, principal: Principal, username: string, canisterId: Principal,
                                     startedAt: nat, isManager: bool)

  /** State after `init_canister` on a default configuration. */
  const INITIAL: State := State(map[], map[], {}, 1, DEFAULT_POOL_TARGET, {}, map[], map[])

  function SaturatingSub(a: nat, b: nat): nat {
    if a < b then 0 else a - b
  }

  predicate TimedOut(now: nat, since: nat) {
    SaturatingSub(now, since) > PENDING_TIMEOUT_NS
  }

  predicate IsAssignedTo(s: State, c: Principal, p: Principal) {
    c in s.pool && s.pool[c].state.Assigned? && s.pool[c].state.owner == p
  }

  /// Views of the stable maps

  function FreeEntries(pool: map<Principal, PoolEntry>): set<Principal> {
    set c | c in pool && pool[c].state.Available?
  }

  function TrialEntries(pool: map<Principal, PoolEntry>): map<Principal, nat> {
    map c | c in pool && pool[c].state.Assigned? && pool[c].state.expiresAt.Some? :: pool[c].state.expiresAt.value
  }

  function PendingEntries(users: map<Principal, User>): map<Principal, nat> {
    map p | p in users && users[p].status.Pending? :: users[p].status.since
  }

  /** Free in the pool, yet not offered to anyone: what a failed install leaves behind. */
  function Stranded(s: State): set<Principal> {
    FreeEntries(s.pool) - s.available
  }

  /** Pending index entries of principals without a user record. */
  function Stale(s: State): set<Principal> {
    s.pending.Keys - s.users.Keys
  }

  /// Pool operations

  function SetFree(pool: map<Principal, PoolEntry>, cs: set<Principal>): map<Principal, PoolEntry> {
    map c | c in pool :: if c in cs then pool[c].(state := Available) else pool[c]
  }

  /** `return_canister_to_pool`, for a whole set of canisters. */
  function ReturnAll(s: State, cs: set<Principal>): State {
    s.(pool := SetFree(s.pool, cs), available := s.available + cs, trials := s.trials - cs)
  }

  function Create(s: State, reply: CreateReply): State {
    match reply
    case NotCreated => s
    case Created(id, at) =>
      s.(pool := s.pool[id := PoolEntry(id, at, Available)], available := s.available + {id})
  }

  /** The replies a creation loop of `n` rounds consumes: it stops at the first failure. */
  function Accepted(replies: seq<CreateReply>, n: nat): seq<CreateReply> {
    if n == 0 || replies == [] || replies[0].NotCreated? then []
    else [replies[0]] + Accepted(replies[1..], n - 1)
  }

  function CreatedIds(replies: seq<CreateReply>): set<Principal> {
    set r | r in replies && r.Created? :: r.id
  }

  function CreateAll(s: State, replies: seq<CreateReply>): State {
    if replies == [] then s
    else Create(CreateAll(s, replies[..|replies| - 1]), replies[|replies| - 1])
  }

  /// Registration

  function RegistrationOf(u: User): Registration {
    Registration(u.userId, u.principal, u.username, u.canisterId)
  }

  /** Up to the install call: a user id is spent, and the least free canister is taken, if there is one. */
  function Reserve(s: State, caller: Principal, now: nat, username: string): (State, Option<Reservation>) {
    var s' := s.(nextUserId := s.nextUserId + 1);
    if s.available == {} then (s', None)
    else
      var c := Least(s.available);
      (s'.(available := s.available - {c}),
       Some(Reservation(s.nextUserId, caller, username, c, now, caller in s.managers)))
  }

  function ExpiryOf(r: Reservation): Option<nat> {
    if r.isManager then None else Some(r.startedAt + TRIAL_EXPIRY_NS)
  }

  function UserOf(r: Reservation): User {
    User(r.userId, r.principal, r.username, r.canisterId, Pending(r.startedAt))
  }

  /** After a successful install: the lease, the trial clock, the user record and the pending entry. */
  function Commit(s: State, r: Reservation): State {
    var c := r.canisterId;
    s.(pool := if c in s.pool then s.pool[c := s.pool[c].(state := Assigned(r.principal, ExpiryOf(r)))] else s.pool,
       trials := if r.isManager then s.trials else s.trials[c := r.startedAt + TRIAL_EXPIRY_NS],
       users := s.users[r.principal := UserOf(r)],
       pending := s.pending[r.principal := r.startedAt])
  }

  function Enroll(s: State, caller: Principal, now: nat, username: string, installOk: bool)
    : (State, Result<Registration, Error>)
  {
    match Reserve(s, caller, now, username)
    case (s', None) => (s', Failure(PoolExhausted))
    case (s', Some(r)) =>
      if installOk then (Commit(s', r), Success(RegistrationOf(UserOf(r)))) else (s', Failure(CallError))
  }

  /** A pending registration that has timed out is cleaned up before its owner registers again. */
  function Evict(s: State, p: Principal): State
    requires p in s.users
  {
    ReturnAll(s, {s.users[p].canisterId}).(users := s.users - {p})
  }

  predicate IsLapsed(s: State, p: Principal, now: nat) {
    p in s.users && s.users[p].status.Pending? && TimedOut(now, s.users[p].status.since)
  }

  function RegisterUser(s: State, caller: Principal, now: nat, username: string, installOk: bool)
    : (State, Result<Registration, Error>)
  {
    if IsBlank(username) then (s, Failure(InvalidInput))
    else if IsLapsed(s, caller, now) then Enroll(Evict(s, caller), caller, now, username, installOk)
    else if caller in s.users then (s, Success(RegistrationOf(s.users[caller])))
    else Enroll(s, caller, now, username, installOk)
  }

  function ConfirmRegistration(s: State, caller: Principal, p: Principal): (State, Result<(), Error>) {
    if p !in s.users then (s, Failure(UserNotFound))
    else if s.users[p].canisterId != caller then (s, Failure(Unauthorized))
    else if s.users[p].status == Active then (s, Success(()))
    else (s.(users := s.users[p := s.users[p].(status := Active)], pending := s.pending - {p}), Success(()))
  }

  /// Governance

  /** Drops the expiry of `caller`'s lease, if it has one. */
  function MakePermanent(s: State, caller: Principal): State {
    if caller !in s.users then s
    else
      var c := s.users[caller].canisterId;
      s.(pool := if c in s.pool && s.pool[c].state.Assigned?
                 then s.pool[c := s.pool[c].(state := Assigned(s.pool[c].state.owner, None))]
                 else s.pool,
         trials := s.trials - {c})
  }

  function ClaimManagerRole(s: State, caller: Principal): (State, Result<(), Error>) {
    if s.managers != {} then (s, Failure(RoleAlreadyClaimed))
    else (MakePermanent(s, caller).(managers := {caller}), Success(()))
  }

  function AddManager(s: State, caller: Principal, p: Principal): (State, Result<(), Error>) {
    if caller !in s.managers then (s, Failure(Unauthorized))
    else (s.(managers := s.managers + {p}), Success(()))
  }

  function RemoveManager(s: State, caller: Principal, p: Principal): (State, Result<(), Error>) {
    if caller !in s.managers then (s, Failure(Unauthorized))
    else if |s.managers| == 1 && p in s.managers && caller == p then (s, Failure(InvalidInput))
    else if p in s.managers then (s.(managers := s.managers - {p}), Success(()))
    else (s, Failure(UserNotFound))
  }

  function ProvisionCanisters(s: State, caller: Principal, count: nat, replies: seq<CreateReply>)
    : (State, Result<(nat, nat), Error>)
  {
    if caller !in s.managers then (s, Failure(Unauthorized))
    else
      var done := Accepted(replies, count);
      var s' := CreateAll(s, done);
      (s', Success((|done|, |s'.available|)))
  }

  /// The periodic sweep, in closed form

  function OverdueRegistrations(s: State, now: nat): set<Principal> {
    set p | p in s.pending && TimedOut(now, s.pending[p])
  }

  function CanistersOf(s: State, ps: set<Principal>): set<Principal> {
    set p | p in ps && p in s.users :: s.users[p].canisterId
  }

  function SweepPending(s: State, now: nat): State {
    var overdue := OverdueRegistrations(s, now);
    ReturnAll(s, CanistersOf(s, overdue)).(users := s.users - overdue, pending := s.pending - overdue)
  }

  function OverdueTrials(s: State, now: nat): set<Principal> {
    set c | c in s.trials && s.trials[c] <= now
  }

  function OwnersOf(s: State, cs: set<Principal>): set<Principal> {
    set c | c in cs && c in s.pool && s.pool[c].state.Assigned? :: s.pool[c].state.owner
  }

  function SweepTrials(s: State, now: nat): State {
    var overdue := OverdueTrials(s, now);
    var owners := OwnersOf(s, overdue);
    ReturnAll(s, overdue).(users := s.users - owners, pending := s.pending - owners)
  }

  function Replenish(s: State, replies: seq<CreateReply>): State {
    CreateAll(s, Accepted(replies, SaturatingSub(s.poolTarget, |s.pool|)))
  }

  function GcTick(s: State, now: nat, replies: seq<CreateReply>): State {
    Replenish(SweepTrials(SweepPending(s, now), now), replies)
  }

  /** `post_upgrade`: the heap indexes are thrown away and recomputed from the stable maps. */
  function Upgrade(s: State): State {
    s.(pending := PendingEntries(s.users),
       available := FreeEntries(s.pool),
       trials := TrialEntries(s.pool),
       poolTarget := if s.poolTarget == 0 then DEFAULT_POOL_TARGET else s.poolTarget)
  }

  /// Runs

  datatype Event =
    | Register(caller: Principal, now: nat, username: string, installOk: bool)
    | Confirm(caller: Principal, user: Principal)
    | ClaimManager(caller: Principal)
    | Promote(caller: Principal, user: Principal)
    | Demote(caller: Principal, user: Principal)
    | Provision(caller: Principal, count: nat, replies: seq<CreateReply>)
    | CreateOne(authorized: bool, reply: CreateReply)
    | Tick(now: nat, replies: seq<CreateReply>)
    | PostUpgrade

  function Next(s: State, e: Event): State {
    match e
    case Register(caller, now, username, installOk) => RegisterUser(s, caller, now, username, installOk).0
    case Confirm(caller, user) => ConfirmRegistration(s, caller, user).0
    case ClaimManager(caller) => ClaimManagerRole(s, caller).0
    case Promote(caller, user) => AddManager(s, caller, user).0
    case Demote(caller, user) => RemoveManager(s, caller, user).0
    case Provision(caller, count, replies) => ProvisionCanisters(s, caller, count, replies).0
    case CreateOne(authorized, reply) => if authorized then Create(s, reply) else s
    case Tick(now, replies) => GcTick(s, now, replies)
    case PostUpgrade => Upgrade(s)
  }

  /** The management canister never hands out an id twice: new ids are distinct and not in the pool. */
  ghost predicate Fresh(pool: map<Principal, PoolEntry>, replies: seq<CreateReply>) {
    && (forall i | 0 <= i < |replies| && replies[i].Created? :: replies[i].id !in pool)
    && (forall i, j | 0 <= i < j < |replies| && replies[i].Created? && replies[j].Created? ::
          replies[i].id != replies[j].id)
  }

  ghost predicate Admissible(s: State, e: Event) {
    match e
    case Provision(_, _, replies) => Fresh(s.pool, replies)
    case CreateOne(_, reply) => Fresh(s.pool, [reply])
    case Tick(_, replies) => Fresh(s.pool, replies)
    case _ => true
  }

  function Run(s: State, es: seq<Event>): State
    decreases |es|
  {
    if es == [] then s else Run(Next(s, es[0]), es[1..])
  }

  ghost predicate AdmissibleRun(s: State, es: seq<Event>)
    decreases |es|
  {
    es == [] || (Admissible(s, es[0]) && AdmissibleRun(Next(s, es[0]), es[1..]))
  }
}
