/** Token issue, refresh and revocation of the auth base, as atomic handlers on a
    clock that advances strictly between them (platform/auth/token.go,
    redisstore.go, users.go, main.go). */
module Tokens {
  import opened Prelude

  /** Times are in nanoseconds. */
  const SECOND: int := 1_000_000_000
  const ACCESS_TTL: int := 2 * 3600 * SECOND
  const REFRESH_TTL: int := 30 * 24 * 3600 * SECOND
  const SERVICE_TTL: int := 300 * SECOND

  /** The whole second a time lies in; what a token can carry. */
  function Truncated(t: int): (w: int)
    ensures w <= t < w + SECOND && w % SECOND == 0
  {
    t / SECOND * SECOND
  }

  lemma TruncatedMonotone(a: int, b: int)
    requires a <= b
    ensures Truncated(a) <= Truncated(b)
  {}

  datatype TokenType = Access | RefreshToken | Service

  /** A user row; role and tenant are what tokens copy. */
  datatype User = User(role: string, status: int, tenant: int)

  datatype Claims = Claims(id: nat, tokenType: TokenType, userId: int, role: string, tenant: int, iat: int, exp: int)

  /** Where revocations are kept. */
  datatype Mode = InMemory | Redis

  /** A user-level cutoff; a Redis key goes away at `until`. */
  datatype Kill = Kill(cutoff: int, until: Option<int>)

  /** The server, with a history: `issuedAt` (exact issue times), `everRevoked` and
      `lastKill` (every revocation, never forgotten), `torn` (each user's latest change
      that no cutoff followed). */
  datatype State = State(
    mode: Mode,
    now: int,
    users: map<int, User>,
    issued: set<Claims>,
    nextId: nat,
    revoked: map<nat, int>,
    kills: map<int, Kill>,
    issuedAt: map<nat, int>,
    everRevoked: set<nat>,
    lastKill: map<int, int>,
    torn: map<int, int>)

  // --------------------------------------------------------------- acceptance

  predicate IsRevoked(s: State, id: nat) {
    id in s.revoked && (s.mode == InMemory || s.now < s.revoked[id])
  }

  function UserKilledBefore(s: State, user: int): Option<int> {
    match Get(s.kills, user)
    case None => None
    case Some(kill) => if kill.until.Some? && kill.until.value <= s.now then None else Some(kill.cutoff)
  }

  /** A token is genuine when it was issued here; then it is accepted unless it
      is expired, revoked, or older than its user's cutoff. */
  predicate Accepts(s: State, c: Claims) {
    && c in s.issued
    && s.now < c.exp
    && !IsRevoked(s, c.id)
    && (c.userId == 0 || match UserKilledBefore(s, c.userId) case None => true case Some(cutoff) => c.iat >= cutoff)
  }

  /** The claims still say what the user row says, and the user is active. */
  predicate Current(s: State, c: Claims) {
    c.userId in s.users && s.users[c.userId].status == 1
    && c.role == s.users[c.userId].role && c.tenant == s.users[c.userId].tenant
  }

  // ------------------------------------------------------------------ effects

  function Revoke(s: State, c: Claims): State {
    var s' := s.(everRevoked := s.everRevoked + {c.id});
    if c.exp - s.now <= 0 then s' else s'.(revoked := s.revoked[c.id := c.exp])
  }

  function CutoffOf(mode: Mode, t: int): int {
    if mode == Redis then Truncated(t) else t
  }

  function RevokeUserTokens(s: State, user: int): State {
    var kill := if s.mode == Redis then Kill(CutoffOf(Redis, s.now), Some(s.now + REFRESH_TTL)) else Kill(s.now, None);
    s.(kills := s.kills[user := kill], lastKill := s.lastKill[user := s.now])
  }

  function NewClaims(s: State, tokenType: TokenType, userId: int, role: string, tenant: int, ttl: int): Claims {
    Claims(s.nextId, tokenType, userId, role, tenant, Truncated(s.now), Truncated(s.now + ttl))
  }

  function Issue(s: State, c: Claims): State {
    s.(issued := s.issued + {c}, nextId := s.nextId + 1, issuedAt := s.issuedAt[c.id := s.now])
  }

  function IssuePair(s: State, user: int): State
    requires user in s.users
  {
    var u := s.users[user];
    var s' := Issue(s, NewClaims(s, Access, user, u.role, u.tenant, ACCESS_TTL));
    Issue(s', NewClaims(s', RefreshToken, user, u.role, u.tenant, REFRESH_TTL))
  }

  function RevokeAll(s: State, users: set<int>): State {
    var kill := if s.mode == Redis then Kill(CutoffOf(Redis, s.now), Some(s.now + REFRESH_TTL)) else Kill(s.now, None);
    s.(kills := map u | u in s.kills.Keys + users :: if u in users then kill else s.kills[u],
       lastKill := map u | u in s.lastKill.Keys + users :: if u in users then s.now else s.lastKill[u])
  }

  function Members(users: map<int, User>, tenant: int): set<int> {
    set u | u in users && users[u].tenant == tenant
  }

  function ActiveAdmins(users: map<int, User>): set<int> {
    set u | u in users && users[u].role == "admin" && users[u].status == 1
  }

  // ----------------------------------------------------------------- handlers

  datatype Step =
    | Login(user: int, credentialsOk: bool)
    | Refresh(token: Claims)
    | Logout(token: Claims, other: Option<Claims>)
    | CreateUser(actor: Claims, id: int, role: string)
    | UpdateUser(actor: Claims, id: int, newRole: Option<string>, newStatus: Option<int>, newTenant: Option<int>,
        fault: Fault)
    | StopTenant(actor: Claims, tenant: int, reached: set<int>)
    | ResetPassword(actor: Claims, id: int)
    | ChangePassword(token: Claims, passwordOk: bool)
    | Register(id: int, loaded: bool)
    | SetPassword(service: Claims, allowed: bool, id: int)
    | IssueService
    | Janitor

  /** What goes wrong with the database in a user update, which is two statements: the
      count of admins fails, which the handler reads as 0; or the handler gets an error
      when nothing, role and status only, or both statements have been written. */
  datatype Fault = NoFault | CountFails | NothingWritten | RoleWritten | BothWritten

  datatype Outcome = Done | Denied | Missing | SelfLock | LastAdmin | Failed

  predicate IsAdminActor(s: State, actor: Claims) {
    Accepts(s, actor) && actor.tokenType == Access && actor.role == "admin"
  }

  /** The guards of the user update, in their order. */
  function UpdateOutcome(s: State, actor: Claims, id: int, role: Option<string>, status: Option<int>,
      fault: Fault): Outcome
  {
    if !IsAdminActor(s, actor) then Denied
    else if id !in s.users then Missing
    else
      var u := s.users[id];
      var demoting := role.Some? && role.value != "admin" && u.role == "admin";
      var disabling := status.Some? && status.value != 1 && u.status == 1;
      if (demoting || disabling) && id == actor.userId then SelfLock
      else if (demoting || disabling) && u.role == "admin" && (fault == CountFails || |ActiveAdmins(s.users)| <= 1)
        then LastAdmin
      else if fault == NoFault || fault == CountFails then Done
      else Failed
  }

  function UpdatedUser(u: User, role: Option<string>, status: Option<int>, tenant: Option<int>): User {
    User(match role case None => u.role case Some(r) => if r == "admin" then "admin" else "user",
         match status case None => u.status case Some(x) => x,
         match tenant case None => u.tenant case Some(t) => t)
  }

  function DoUpdate(s: State, id: int, role: Option<string>, status: Option<int>, tenant: Option<int>): State
    requires id in s.users
  {
    var u, u' := s.users[id], UpdatedUser(s.users[id], role, status, tenant);
    var s' := s.(users := s.users[id := u']);
    if tenant.Some? || u'.status != 1 || u'.role != u.role then RevokeUserTokens(s', id) else s'
  }

  /** Tokens that copied the old row no longer agree with the new one. */
  predicate Outdates(u: User, u': User) {
    u'.status != 1 || u'.role != u.role || u'.tenant != u.tenant
  }

  /** What an update that ends with an error has written; no cutoff is set. */
  function TornUpdate(s: State, id: int, role: Option<string>, status: Option<int>, tenant: Option<int>,
      fault: Fault): State
    requires id in s.users
  {
    var u := s.users[id];
    var u' := UpdatedUser(u, role, status, if fault == BothWritten then tenant else None);
    if fault == NothingWritten then s
    else s.(users := s.users[id := u'], torn := if Outdates(u, u') then s.torn[id := s.now] else s.torn)
  }

  predicate RefreshSucceeds(s: State, c: Claims) {
    Accepts(s, c) && c.tokenType == RefreshToken && c.userId in s.users && s.users[c.userId].status == 1
  }

  /** The state after a handler that runs at time `s.now`. */
  function Handle(s: State, step: Step): State {
    match step
    case Login(user, ok) => if ok && user in s.users && s.users[user].status == 1 then IssuePair(s, user) else s
    case Refresh(c) => if RefreshSucceeds(s, c) then IssuePair(Revoke(s, c), c.userId) else s
    case Logout(c, other) =>
      if !(Accepts(s, c) && c.tokenType == Access) then s
      else
        var s' := Revoke(s, c);
        if other.Some? && Accepts(s', other.value) && other.value.userId == c.userId then Revoke(s', other.value)
          else s'
    case CreateUser(actor, id, role) =>
      if IsAdminActor(s, actor) && id > 0 && id !in s.users then
        s.(users := s.users[id := User(if role == "admin" then "admin" else "user", 1, 0)])
      else s
    case UpdateUser(actor, id, role, status, tenant, fault) =>
      var outcome := UpdateOutcome(s, actor, id, role, status, fault);
      if outcome == Done then DoUpdate(s, id, role, status, tenant)
      else if outcome == Failed then TornUpdate(s, id, role, status, tenant, fault)
      else s
    case StopTenant(actor, tenant, reached) =>
      if IsAdminActor(s, actor) then RevokeAll(s, reached * Members(s.users, tenant)) else s
    case ResetPassword(actor, id) => if IsAdminActor(s, actor) && id in s.users then RevokeUserTokens(s, id) else s
    case ChangePassword(c, ok) => if Accepts(s, c) && c.tokenType == Access && c.userId in s.users && ok
      then Revoke(s, c) else s
    case Register(id, loaded) =>
      if !(id > 0 && id !in s.users) then s
      else
        var s' := s.(users := s.users[id := User("user", 1, 0)]);
        if loaded then IssuePair(s', id) else s'
    case SetPassword(c, allowed, id) =>
      if Accepts(s, c) && c.tokenType == Service && allowed && id in s.users then RevokeUserTokens(s, id) else s
    case IssueService => Issue(s, NewClaims(s, Service, 0, "", 0, SERVICE_TTL))
    case Janitor =>
      if s.mode == Redis then s
      else s.(revoked := map id | id in s.revoked && !(s.now > s.revoked[id]) :: s.revoked[id])
  }

  function After(s: State, t: int, step: Step): State {
    Handle(s.(now := t), step)
  }

  predicate Initial(s: State) {
    && s.issued == {} && s.revoked == map[] && s.kills == map[]
    && s.issuedAt == map[] && s.everRevoked == {} && s.lastKill == map[] && s.torn == map[]
    && (forall u :: u in s.users ==> u > 0)
    && ActiveAdmins(s.users) != {}
  }

  /** `run` is a history of the server: handlers at strictly increasing times. */
  ghost predicate IsRun(run: seq<State>, times: seq<int>, steps: seq<Step>) {
    && |run| == |steps| + 1 == |times| + 1 && Initial(run[0])
    && forall i :: 0 <= i < |steps| ==> Follows(run, times, steps, i)
  }

  predicate Follows(run: seq<State>, times: seq<int>, steps: seq<Step>, i: nat)
    requires |run| == |steps| + 1 == |times| + 1 && i < |steps|
  {
    run[i].now < times[i] && run[i + 1] == After(run[i], times[i], steps[i])
  }

  // ---------------------------------------------------------------- invariant

  /** Every token is known by its id and was issued no later than now. */
  ghost predicate TokensOk(s: State) {
    && (forall c :: c in s.issued ==>
          && c.id < s.nextId && c.id in s.issuedAt
          && s.issuedAt[c.id] <= s.now
          && c.iat == Truncated(s.issuedAt[c.id])
          && c.exp <= s.issuedAt[c.id] + REFRESH_TTL
          && (c.userId == 0 <==> c.tokenType == Service)
          && (c.userId == 0 || c.userId in s.users))
    && (forall c, d :: c in s.issued && d in s.issued && c.id == d.id ==> c == d)
    && (forall u :: u in s.users ==> u > 0)
  }

  /** What is stored about revocations agrees with what happened. */
  ghost predicate StoreOk(s: State) {
    && (forall c :: c in s.issued && c.id in s.revoked ==> c.id in s.everRevoked && s.revoked[c.id] == c.exp)
    && (forall c :: c in s.issued && c.id in s.everRevoked ==> c.id in s.revoked || c.exp <= s.now)
    && (forall id :: id in s.everRevoked ==> id < s.nextId)
    && s.revoked.Keys <= s.everRevoked
    && s.kills.Keys == s.lastKill.Keys
    && (forall u :: u in s.kills ==>
          && s.lastKill[u] <= s.now
          && s.kills[u] == Kill(CutoffOf(s.mode, s.lastKill[u]), if s.mode == Redis
            then Some(s.lastKill[u] + REFRESH_TTL) else None))
  }

  /** Issued before its user's latest cutoff. */
  predicate Outdated(s: State, c: Claims) {
    c.userId in s.lastKill && c.id in s.issuedAt && s.issuedAt[c.id] < s.lastKill[c.userId]
  }

  /** Issued before the latest change of its user that no cutoff followed. */
  predicate Torn(s: State, c: Claims) {
    c.userId in s.torn && c.id in s.issuedAt && s.issuedAt[c.id] < s.torn[c.userId]
  }

  /** A user token is current, or was issued before a change of its user. */
  ghost predicate Coherent(s: State) {
    forall c :: c in s.issued && c.userId != 0 ==>
      Current(s, c) || Outdated(s, c) || Torn(s, c)
  }

  ghost predicate Inv(s: State)  {
    TokensOk(s) && StoreOk(s) && Coherent(s) && ActiveAdmins(s.users) != {}
  }

  /** The clock has moved on since the last handler. */
  ghost predicate Ready(s: State) {
    && Inv(s)
    && (forall c :: c in s.issued ==> s.issuedAt[c.id] < s.now)
    && (forall u :: u in s.lastKill ==> s.lastKill[u] < s.now)
  }

  /** Moving the clock on or recording revocations leaves tokens and users alone. */
  lemma TokensUntouched(s: State, s': State)
    requires TokensOk(s) && Coherent(s) && s.now <= s'.now
    requires s' == s.(now := s'.now, revoked := s'.revoked, everRevoked := s'.everRevoked)
    ensures TokensOk(s') && Coherent(s')
  {
    forall c | c in s.issued && c.userId != 0 ensures Current(s', c) || Outdated(s', c) || Torn(s', c) {
      assert Current(s, c) == Current(s', c);
    }
  }

  lemma ClockMakesReady(s: State, t: int)
    requires Inv(s) && s.now < t
    ensures Ready(s.(now := t))
  {
    TokensUntouched(s, s.(now := t));
  }

  lemma RevokeStoreOk(s: State, c: Claims)
    requires StoreOk(s) && c in s.issued && c.id < s.nextId && forall d :: d in s.issued && d.id == c.id ==> d == c
    ensures StoreOk(Revoke(s, c))
  {
    var s' := Revoke(s, c);
    assert s'.everRevoked == s.everRevoked + {c.id};
    assert s' == s.(everRevoked := s'.everRevoked, revoked := s'.revoked);
    assert s'.revoked == if c.exp <= s.now then s.revoked else s.revoked[c.id := c.exp];
    hide Revoke, CutoffOf;
    forall d | d in s.issued && d.id in s'.revoked ensures d.id in s'.everRevoked && s'.revoked[d.id] == d.exp {}
    forall d | d in s.issued && d.id in s'.everRevoked ensures d.id in s'.revoked || d.exp <= s.now {}
  }

  lemma RevokeKeeps(s: State, c: Claims)
    requires Ready(s) && c in s.issued
    ensures Ready(Revoke(s, c))
  {
    TokensUntouched(s, Revoke(s, c));
    RevokeStoreOk(s, c);
  }

  lemma IssueKeeps(s: State, c: Claims, ttl: int)
    requires Inv(s) && ttl <= REFRESH_TTL
    requires c == NewClaims(s, c.tokenType, c.userId, c.role, c.tenant, ttl)
    requires (c.userId == 0 <==> c.tokenType == Service) && (c.userId == 0 || Current(s, c))
    ensures Inv(Issue(s, c))
  {
    var s' := Issue(s, c);
    assert c.id !in s.everRevoked;
    forall d | d in s'.issued && d.userId != 0
      ensures Current(s', d) || Outdated(s', d) || Torn(s', d)
    {
      assert Current(s, d) == Current(s', d);
    }
  }

  lemma IssuePairKeeps(s: State, user: int)
    requires Inv(s) && user in s.users && s.users[user].status == 1
    ensures Inv(IssuePair(s, user))
  {
    var u := s.users[user];
    var a := NewClaims(s, Access, user, u.role, u.tenant, ACCESS_TTL);
    IssueKeeps(s, a, ACCESS_TTL);
    var s' := Issue(s, a);
    IssueKeeps(s', NewClaims(s', RefreshToken, user, u.role, u.tenant, REFRESH_TTL), REFRESH_TTL);
  }

  /** Cutting off a set of users covers any change to their rows. */
  lemma RevokeAllKeeps(s: State, users: map<int, User>, killed: set<int>)
    requires Ready(s) && users.Keys == s.users.Keys && ActiveAdmins(users) != {}
    requires forall u :: u in users && u !in killed ==>
               users[u] == s.users[u]
                 || (users[u].role == s.users[u].role && users[u].tenant == s.users[u].tenant && s.users[u].status != 1)
    ensures Inv(RevokeAll(s.(users := users), killed))
  {
    var s' := RevokeAll(s.(users := users), killed);
    forall c | c in s'.issued && c.userId != 0
      ensures Current(s', c) || Outdated(s', c) || Torn(s', c)
    {
      if c.userId !in killed && Current(s, c) {
        assert Current(s', c);
      }
    }
  }

  lemma RevokeOneIsRevokeAll(s: State, user: int)
    requires s.kills.Keys == s.lastKill.Keys
    ensures RevokeUserTokens(s, user) == RevokeAll(s, {user})
  {
    assert RevokeUserTokens(s, user).kills == RevokeAll(s, {user}).kills;
    assert RevokeUserTokens(s, user).lastKill == RevokeAll(s, {user}).lastKill;
  }

  lemma RevokeNoneIsNothing(s: State)
    ensures RevokeAll(s, {}) == s
  {
    assert RevokeAll(s, {}).kills == s.kills;
    assert RevokeAll(s, {}).lastKill == s.lastKill;
  }

  /** An update that passes the guards leaves an active admin. */
  lemma UpdateLeavesAdmin(s: State, actor: Claims, id: int, role: Option<string>, status: Option<int>,
      tenant: Option<int>, fault: Fault)
    requires ActiveAdmins(s.users) != {} && UpdateOutcome(s, actor, id, role, status, fault) in {Done, Failed}
    ensures ActiveAdmins(s.users[id := UpdatedUser(s.users[id], role, status, tenant)]) != {}
  {
    var before := ActiveAdmins(s.users);
    var users' := s.users[id := UpdatedUser(s.users[id], role, status, tenant)];
    if id !in before {
      var a := Pick(before);
      assert a in ActiveAdmins(users');
    } else if users'[id].role == "admin" && users'[id].status == 1 {
      assert id in ActiveAdmins(users');
    } else {
      assert |before| > 1;
      assert before != {id} by { assert |{id}| == 1; }
      assert before - {id} != {} by { assert before <= {id} + (before - {id}); }
      var a := Pick(before - {id});
      assert a in ActiveAdmins(users');
    }
  }

  lemma UpdateKeeps(s: State, actor: Claims, id: int, role: Option<string>, status: Option<int>, tenant: Option<int>,
      fault: Fault)
    requires Ready(s) && UpdateOutcome(s, actor, id, role, status, fault) == Done
    ensures Inv(DoUpdate(s, id, role, status, tenant))
  {
    UpdateLeavesAdmin(s, actor, id, role, status, tenant, fault);
    var u, u' := s.users[id], UpdatedUser(s.users[id], role, status, tenant);
    var users' := s.users[id := u'];
    if tenant.Some? || u'.status != 1 || u'.role != u.role {
      RevokeAllKeeps(s, users', {id});
      RevokeOneIsRevokeAll(s.(users := users'), id);
    } else {
      RevokeAllKeeps(s, users', {});
      RevokeNoneIsNothing(s.(users := users'));
    }
  }

  lemma TornUpdateKeeps(s: State, actor: Claims, id: int, role: Option<string>, status: Option<int>,
      tenant: Option<int>, fault: Fault)
    requires Ready(s) && UpdateOutcome(s, actor, id, role, status, fault) == Failed
    ensures Inv(TornUpdate(s, id, role, status, tenant, fault))
  {
    UpdateLeavesAdmin(s, actor, id, role, status, if fault == BothWritten then tenant else None, fault);
    hide ActiveAdmins, UpdateOutcome, UpdatedUser;
    var s' := TornUpdate(s, id, role, status, tenant, fault);
    forall c | c in s'.issued && c.userId != 0 ensures Current(s', c) || Outdated(s', c) || Torn(s', c) {
      assert c.userId != id ==> Current(s, c) == Current(s', c);
      assert Torn(s, c) ==> Torn(s', c);
    }
  }

  lemma JanitorKeeps(s: State)
    requires Ready(s)
    ensures Inv(Handle(s, Janitor))
  {
    TokensUntouched(s, Handle(s, Janitor));
  }

  lemma CreateKeeps(s: State, id: int, u: User)
    requires Ready(s) && id > 0 && id !in s.users
    ensures Inv(s.(users := s.users[id := u]))
  {
    var s' := s.(users := s.users[id := u]);
    forall c | c in s'.issued && c.userId != 0
      ensures Current(s', c) || Outdated(s', c) || Torn(s', c)
    {
      assert Current(s, c) == Current(s', c);
    }
    var a := Pick(ActiveAdmins(s.users));
    assert a in ActiveAdmins(s'.users);
  }

  lemma RefreshKeeps(s: State, c: Claims)
    requires Ready(s)
    ensures Inv(Handle(s, Refresh(c)))
  {
    if RefreshSucceeds(s, c) {
      RevokeKeeps(s, c);
      IssuePairKeeps(Revoke(s, c), c.userId);
    }
  }

  lemma LogoutKeeps(s: State, c: Claims, other: Option<Claims>)
    requires Ready(s)
    ensures Inv(Handle(s, Logout(c, other)))
  {
    if Accepts(s, c) && c.tokenType == Access {
      RevokeKeeps(s, c);
      var s' := Revoke(s, c);
      if other.Some? && Accepts(s', other.value) && other.value.userId == c.userId {
        RevokeKeeps(s', other.value);
      }
    }
  }

  lemma CutoffKeeps(s: State, killed: set<int>)
    requires Ready(s)
    ensures Inv(RevokeAll(s, killed))
  {
    RevokeAllKeeps(s, s.users, killed);
  }

  lemma LoginKeeps(s: State, step: Step)
    requires Ready(s) && step.Login?
    ensures Inv(Handle(s, step))
  {
    if step.credentialsOk && step.user in s.users && s.users[step.user].status == 1 { IssuePairKeeps(s, step.user); }
  }

  lemma CreateUserKeeps(s: State, step: Step)
    requires Ready(s) && step.CreateUser?
    ensures Inv(Handle(s, step))
  {
    if IsAdminActor(s, step.actor) && step.id > 0 && step.id !in s.users {
      CreateKeeps(s, step.id, User(if step.role == "admin" then "admin" else "user", 1, 0));
    }
  }

  lemma UpdateUserKeeps(s: State, step: Step)
    requires Ready(s) && step.UpdateUser?
    ensures Inv(Handle(s, step))
  {
    var outcome := UpdateOutcome(s, step.actor, step.id, step.newRole, step.newStatus, step.fault);
    if outcome == Done {
      UpdateKeeps(s, step.actor, step.id, step.newRole, step.newStatus, step.newTenant, step.fault);
    } else if outcome == Failed {
      TornUpdateKeeps(s, step.actor, step.id, step.newRole, step.newStatus, step.newTenant, step.fault);
    }
  }

  lemma PasswordKeeps(s: State, step: Step)
    requires Ready(s) && (step.ResetPassword? || step.SetPassword?)
    ensures Inv(Handle(s, step))
  {
    CutoffKeeps(s, {step.id});
    RevokeOneIsRevokeAll(s, step.id);
  }

  lemma RegisterKeeps(s: State, step: Step)
    requires Ready(s) && step.Register?
    ensures Inv(Handle(s, step))
  {
    if step.id > 0 && step.id !in s.users {
      var u := User("user", 1, 0);
      CreateKeeps(s, step.id, u);
      if step.loaded { IssuePairKeeps(s.(users := s.users[step.id := u]), step.id); }
    }
  }

  lemma ChangePasswordKeeps(s: State, step: Step)
    requires Ready(s) && step.ChangePassword?
    ensures Inv(Handle(s, step))
  {
    if Accepts(s, step.token) && step.token.tokenType == Access { RevokeKeeps(s, step.token); }
  }

  lemma StopTenantKeeps(s: State, step: Step)
    requires Ready(s) && step.StopTenant?
    ensures Inv(Handle(s, step))
  {
    CutoffKeeps(s, step.reached * Members(s.users, step.tenant));
  }

  lemma IssueServiceKeeps(s: State)
    requires Ready(s)
    ensures Inv(Handle(s, IssueService))
  {
    IssueKeeps(s, NewClaims(s, Service, 0, "", 0, SERVICE_TTL), SERVICE_TTL);
  }

  lemma HandleKeepsInv(s: State, step: Step)
    requires Ready(s)
    ensures Inv(Handle(s, step))
  {
    hide *;
    match step {
      case Login(_, _) => LoginKeeps(s, step);
      case Refresh(c) => RefreshKeeps(s, c);
      case Logout(c, other) => LogoutKeeps(s, c, other);
      case CreateUser(_, _, _) => CreateUserKeeps(s, step);
      case UpdateUser(_, _, _, _, _, _) => UpdateUserKeeps(s, step);
      case StopTenant(_, _, _) => StopTenantKeeps(s, step);
      case ResetPassword(_, _) => PasswordKeeps(s, step);
      case SetPassword(_, _, _) => PasswordKeeps(s, step);
      case Register(_, _) => RegisterKeeps(s, step);
      case ChangePassword(_, _) => ChangePasswordKeeps(s, step);
      case IssueService => IssueServiceKeeps(s);
      case Janitor => JanitorKeeps(s);
    }
  }

  lemma InitialInv(s: State)
    requires Initial(s)
    ensures Inv(s)
  {}

  /** In every reachable state the invariant holds. */
  lemma {:induction false} ReachableInv(run: seq<State>, times: seq<int>, steps: seq<Step>, i: nat)
    requires IsRun(run, times, steps) && i < |run|
    ensures Inv(run[i])
    decreases i
  {
    if i == 0 {
      InitialInv(run[0]);
    } else {
      ReachableInv(run, times, steps, i - 1);
      assert Follows(run, times, steps, i - 1);
      ClockMakesReady(run[i - 1], times[i - 1]);
      HandleKeepsInv(run[i - 1].(now := times[i - 1]), steps[i - 1]);
    }
  }

  // ------------------------------------------------------------ main results

  /** Acceptance if nothing were ever forgotten: no janitor, no expiring keys. */
  predicate AcceptsRemembering(s: State, c: Claims) {
    && c in s.issued
    && s.now < c.exp
    && c.id !in s.everRevoked
    && (c.userId == 0 || c.userId !in s.lastKill || c.iat >= CutoffOf(s.mode, s.lastKill[c.userId]))
  }

  /** The janitor and the 30-day life of a cutoff never change a decision. */
  lemma ForgettingIsSafe(s: State, c: Claims)
    requires Inv(s)
    ensures Accepts(s, c) <==> AcceptsRemembering(s, c)
  {
    if c in s.issued && c.userId != 0 && c.userId in s.lastKill && s.mode == Redis {
      assert s.kills[c.userId].until == Some(s.lastKill[c.userId] + REFRESH_TTL);
      if s.issuedAt[c.id] < Truncated(s.lastKill[c.userId]) {
        TruncatedMonotone(s.issuedAt[c.id], s.lastKill[c.userId]);
      }
      if c.iat < Truncated(s.lastKill[c.userId]) {
        assert s.issuedAt[c.id] < s.lastKill[c.userId] by {
          if s.lastKill[c.userId] <= s.issuedAt[c.id] { TruncatedMonotone(s.lastKill[c.userId], s.issuedAt[c.id]); }
        }
      }
    }
  }

  /** With the in-memory store an accepted user token that is not current was issued
      since its user's latest cutoff, and before a change no cutoff followed. */
  lemma StaleIsTorn(s: State, c: Claims)
    requires Inv(s) && s.mode == InMemory && Accepts(s, c) && c.userId != 0
    ensures Current(s, c) || Torn(s, c)
    ensures !Outdated(s, c)
  {}

  /** Every accepted user token carries its user's current role and tenant, and the
      user is active. */
  ghost predicate AllCurrent(s: State) {
    forall c :: c in s.issued && c.userId != 0 && Accepts(s, c) ==> Current(s, c)
  }

  /** The request is a user update that passes the guards and ends with an error after
      writing a change, of a user who holds an accepted token. */
  ghost predicate TearsTokens(s: State, step: Step) {
    && step.UpdateUser? && (step.fault == RoleWritten || step.fault == BothWritten)
    && UpdateOutcome(s, step.actor, step.id, step.newRole, step.newStatus, step.fault) == Failed
    && Outdates(s.users[step.id], UpdatedUser(s.users[step.id], step.newRole, step.newStatus,
                                              if step.fault == BothWritten then step.newTenant else None))
    && exists c :: c in s.issued && c.userId == step.id && Accepts(s, c)
  }

  /** With Redis an accepted token is current unless it was issued before a change no
      cutoff followed, or, before the cutoff, in the very second of its user's latest
      cutoff. An unexpired and
      unrevoked token issued before the cutoff is refused exactly when it was
      issued in an earlier second. */
  lemma AcceptedIsCurrentUpToTheSecond(s: State, c: Claims)
    requires Inv(s) && s.mode == Redis && c in s.issued && c.userId != 0
    ensures Accepts(s, c) && !Current(s, c) ==>
              Torn(s, c) || (Outdated(s, c) && Truncated(s.issuedAt[c.id]) == Truncated(s.lastKill[c.userId]))
    ensures s.now < c.exp && c.id !in s.everRevoked && Outdated(s, c) ==>
              (Accepts(s, c) <==> Truncated(s.issuedAt[c.id]) == Truncated(s.lastKill[c.userId]))
  {
    ForgettingIsSafe(s, c);
    if Outdated(s, c) {
      TruncatedMonotone(s.issuedAt[c.id], s.lastKill[c.userId]);
    }
  }

  /** A refused token stays refused, whatever happens later. */
  lemma RefusedStaysRefused(s: State, t: int, step: Step, c: Claims)
    requires Inv(s) && s.now < t && c in s.issued && !Accepts(s, c)
    ensures c in After(s, t, step).issued && !Accepts(After(s, t, step), c)
  {
    var r, s' := s.(now := t), After(s, t, step);
    ClockMakesReady(s, t);
    HandleKeepsInv(r, step);
    ForgettingIsSafe(s, c);
    ForgettingIsSafe(s', c);
    HistoryGrows(r, step);
    if c.userId in s.lastKill {
      TruncatedMonotone(s.lastKill[c.userId], s'.lastKill[c.userId]);
    }
  }

  /** Same time, no token or revocation forgotten, no cutoff moved back. */
  ghost predicate Grows(s: State, s': State) {
    && s'.now == s.now && s'.mode == s.mode && s.issued <= s'.issued && s.everRevoked <= s'.everRevoked
    && s.lastKill.Keys <= s'.lastKill.Keys
    && (forall u :: u in s.lastKill ==> s.lastKill[u] <= s'.lastKill[u])
    && forall u :: u in s'.lastKill ==> (u in s.lastKill && s'.lastKill[u] == s.lastKill[u]) || s'.lastKill[u] == s.now
  }

  ghost predicate KillsPast(s: State) { forall u :: u in s.lastKill ==> s.lastKill[u] <= s.now }

  lemma RevokeGrows(s: State, c: Claims)
    ensures Grows(s, Revoke(s, c)) && KillsPast(s) == KillsPast(Revoke(s, c))
  {}

  lemma IssuePairGrows(s: State, user: int)
    requires user in s.users
    ensures Grows(s, IssuePair(s, user))
  {}

  lemma RevokeAllGrows(s: State, users: set<int>)
    requires KillsPast(s)
    ensures Grows(s, RevokeAll(s, users))
  {}

  lemma RevokeUserGrows(s: State, user: int)
    requires KillsPast(s)
    ensures Grows(s, RevokeUserTokens(s, user))
  {}

  lemma HistoryGrows(s: State, step: Step)
    requires KillsPast(s)
    ensures Grows(s, Handle(s, step))
  {
    hide Accepts, Revoke, RevokeAll, RevokeUserTokens, IssuePair, UpdateOutcome, UpdatedUser, DoUpdate, KillsPast;
    match step {
      case Login(user, ok) =>
        if ok && user in s.users && s.users[user].status == 1 { IssuePairGrows(s, user); }
      case Refresh(c) => RefreshGrows(s, c);
      case Logout(c, other) => LogoutGrows(s, c, other);
      case CreateUser(actor, id, role) =>
      case UpdateUser(actor, id, role, status, tenant, fault) =>
        UpdateGrows(s, actor, id, role, status, tenant, fault);
      case StopTenant(actor, tenant, reached) =>
        RevokeAllGrows(s, reached * Members(s.users, tenant));
      case Register(id, loaded) => RegisterGrows(s, id, loaded);
      case SetPassword(c, allowed, id) =>
        RevokeUserGrows(s, id);
      case ResetPassword(actor, id) =>
        RevokeUserGrows(s, id);
      case ChangePassword(c, ok) =>
        RevokeGrows(s, c);
      case IssueService =>
      case Janitor =>
    }
  }

  lemma LogoutGrows(s: State, c: Claims, other: Option<Claims>)
    requires KillsPast(s)
    ensures Grows(s, Handle(s, Logout(c, other)))
  {
    hide Accepts, Revoke, KillsPast;
    RevokeGrows(s, c);
    if other.Some? { RevokeGrows(Revoke(s, c), other.value); }
  }

  lemma RegisterGrows(s: State, id: int, loaded: bool)
    ensures Grows(s, Handle(s, Register(id, loaded)))
  {
    hide IssuePair;
    if id > 0 && id !in s.users {
      IssuePairGrows(s.(users := s.users[id := User("user", 1, 0)]), id);
    }
  }

  lemma RefreshGrows(s: State, c: Claims)
    requires KillsPast(s)
    ensures Grows(s, Handle(s, Refresh(c)))
  {
    RevokingLeavesUsers(s, c, 0, {});
    hide Accepts, Revoke, IssuePair, KillsPast;
    if RefreshSucceeds(s, c) {
      RevokeGrows(s, c);
      IssuePairGrows(Revoke(s, c), c.userId);
    }
  }

  lemma UpdateGrows(s: State, actor: Claims, id: int, role: Option<string>, status: Option<int>, tenant: Option<int>,
      fault: Fault)
    requires KillsPast(s)
    ensures Grows(s, Handle(s, UpdateUser(actor, id, role, status, tenant, fault)))
  {
    UpdateHandled(s, UpdateUser(actor, id, role, status, tenant, fault));
    hide *;
    if id in s.users {
      DoUpdateGrows(s, id, role, status, tenant);
      TornUpdateGrows(s, id, role, status, tenant, fault);
    }
    NothingGrows(s);
  }

  lemma UpdateHandled(s: State, step: Step)
    requires step.UpdateUser?
    ensures var outcome := UpdateOutcome(s, step.actor, step.id, step.newRole, step.newStatus, step.fault);
            Handle(s, step) ==
            if step.id !in s.users then s
            else if outcome == Done then DoUpdate(s, step.id, step.newRole, step.newStatus, step.newTenant)
            else if outcome == Failed
              then TornUpdate(s, step.id, step.newRole, step.newStatus, step.newTenant, step.fault)
            else s
  {
    hide Accepts, DoUpdate, TornUpdate;
  }

  lemma DoUpdateGrows(s: State, id: int, role: Option<string>, status: Option<int>, tenant: Option<int>)
    requires KillsPast(s) && id in s.users
    ensures Grows(s, DoUpdate(s, id, role, status, tenant))
  {
    hide RevokeUserTokens, UpdatedUser;
    RevokeUserGrows(s.(users := s.users[id := UpdatedUser(s.users[id], role, status, tenant)]), id);
  }

  lemma TornUpdateGrows(s: State, id: int, role: Option<string>, status: Option<int>, tenant: Option<int>,
      fault: Fault)
    requires KillsPast(s) && id in s.users
    ensures Grows(s, TornUpdate(s, id, role, status, tenant, fault))
  {}

  lemma NothingGrows(s: State)
    ensures Grows(s, s)
  {}

  lemma {:induction false} RefusedForever(run: seq<State>, times: seq<int>, steps: seq<Step>, i: nat, j: nat, c: Claims)
    requires IsRun(run, times, steps) && i <= j < |run|
    requires c in run[i].issued && !Accepts(run[i], c)
    ensures c in run[j].issued && !Accepts(run[j], c)
    decreases j
  {
    if i < j {
      RefusedForever(run, times, steps, i, j - 1, c);
      ReachableInv(run, times, steps, j - 1);
      assert Follows(run, times, steps, j - 1);
      RefusedStaysRefused(run[j - 1], times[j - 1], steps[j - 1], c);
    }
  }

  /** In memory an accepted user token stays accepted exactly until it expires, is
      revoked, or its user is cut off; nothing else, a change of the user's row in
      particular, ends it. */
  lemma AcceptedUntil(run: seq<State>, times: seq<int>, steps: seq<Step>, i: nat, j: nat, c: Claims)
    requires IsRun(run, times, steps) && i <= j < |run| && run[0].mode == InMemory
    requires Accepts(run[i], c) && c.userId != 0
    ensures Accepts(run[j], c) <==>
              && run[j].now < c.exp && c.id !in run[j].everRevoked
              && Get(run[j].lastKill, c.userId) == Get(run[i].lastKill, c.userId)
  {
    ReachableInv(run, times, steps, i);
    ReachableInv(run, times, steps, j);
    ModeStays(run, times, steps, i);
    ModeStays(run, times, steps, j);
    CutoffsAreLater(run, times, steps, i, j, c.userId);
    ForgettingIsSafe(run[i], c);
    ForgettingIsSafe(run[j], c);
  }

  lemma {:induction false} CutoffsAreLater(run: seq<State>, times: seq<int>, steps: seq<Step>, i: nat, j: nat, u: int)
    requires IsRun(run, times, steps) && i <= j < |run|
    ensures run[i].issued <= run[j].issued && run[i].now <= run[j].now
    ensures u in run[i].lastKill ==> u in run[j].lastKill
    ensures u in run[j].lastKill && Get(run[i].lastKill, u) != Some(run[j].lastKill[u]) ==>
              run[i].now < run[j].lastKill[u]
    decreases j
  {
    if i < j {
      CutoffsAreLater(run, times, steps, i, j - 1, u);
      ReachableInv(run, times, steps, j - 1);
      assert Follows(run, times, steps, j - 1);
      ClockMakesReady(run[j - 1], times[j - 1]);
      hide Handle;
      HistoryGrows(run[j - 1].(now := times[j - 1]), steps[j - 1]);
    }
  }

  // ------------------------------------------------------- what each handler ends

  /** Issued before now, as far as the store can tell: with Redis, in an earlier second. */
  predicate Older(s: State, d: Claims) {
    s.mode == InMemory || d.iat < s.now / 1_000_000_000 * 1_000_000_000
  }

  predicate ActsAsAdmin(s: State, actor: Claims) {
    Accepts(s, actor) && actor.tokenType == Access && actor.role == "admin"
  }

  /** The handler is to end token `d`: a refresh its own token, a logout the token at
      hand and the user's other one, a changed password the token at hand; a reset or a
      stopped tenant the users' tokens so far, a user update too when it names a tenant,
      changes the role or leaves the user inactive. */
  predicate Ends(s: State, step: Step, d: Claims) {
    match step
    case Refresh(c) =>
      d == c && Accepts(s, c) && c.tokenType == RefreshToken && c.userId in s.users && s.users[c.userId].status == 1
    case Logout(c, other) =>
      Accepts(s, c) && c.tokenType == Access && (d == c || (other == Some(d) && d.userId == c.userId))
    case ChangePassword(c, ok) => d == c && Accepts(s, c) && c.tokenType == Access && c.userId in s.users && ok
    case ResetPassword(actor, id) => ActsAsAdmin(s, actor) && id in s.users && d.userId == id && Older(s, d)
    case SetPassword(c, allowed, id) =>
      Accepts(s, c) && c.tokenType == Service && allowed && id in s.users && d.userId == id && Older(s, d)
    case StopTenant(actor, tenant, reached) =>
      && ActsAsAdmin(s, actor) && d.userId in s.users && s.users[d.userId].tenant == tenant && d.userId in reached
      && Older(s, d)
    case UpdateUser(actor, id, role, status, tenant, fault) =>
      && UpdateOutcome(s, actor, id, role, status, fault) == Done && d.userId == id && Older(s, d)
      && (|| tenant.Some?
          || (status.Some? && status.value != 1) || (status == None && s.users[id].status != 1)
          || (role == Some("admin") && s.users[id].role != "admin")
          || (role.Some? && role.value != "admin" && s.users[id].role != "user"))
    case _ => false
  }

  lemma RevokeEnds(s: State, c: Claims, d: Claims)
    requires Inv(s) && c in s.issued && d in s.issued && s.now < c.exp
    ensures Accepts(Revoke(s, c), d) <==> Accepts(s, d) && d != c
  {}

  lemma CutoffEnds(s: State, users: set<int>, d: Claims)
    requires Ready(s) && d in s.issued && 0 !in users
    ensures Accepts(RevokeAll(s, users), d) <==> Accepts(s, d) && !(d.userId in users && Older(s, d))
  {
    assert d.iat <= s.issuedAt[d.id] < s.now;
    ForgettingIsSafe(s, d);
    CutoffKeeps(s, users);
    ForgettingIsSafe(RevokeAll(s, users), d);
    if d.userId in s.lastKill { TruncatedMonotone(s.lastKill[d.userId], s.now); }
  }

  lemma IssuingEndsNothing(s: State, user: int, d: Claims)
    requires user in s.users && d in s.issued
    ensures Accepts(IssuePair(s, user), d) <==> Accepts(s, d)
  {}

  lemma EndsByRevoking(s: State, step: Step, d: Claims)
    requires Ready(s) && d in s.issued && (step.Refresh? || step.Logout? || step.ChangePassword?)
    ensures Accepts(Handle(s, step), d) <==> Accepts(s, d) && !Ends(s, step, d)
  {
    match step {
      case Refresh(c) =>
        if RefreshSucceeds(s, c) {
          RevokeEnds(s, c, d);
          RevokingLeavesUsers(s, c, 0, {});
          IssuingEndsNothing(Revoke(s, c), c.userId, d);
        }
      case Logout(c, other) =>
        if Accepts(s, c) && c.tokenType == Access {
          RevokeEnds(s, c, d);
          RevokeKeeps(s, c);
          var s' := Revoke(s, c);
          if other.Some? && Accepts(s', other.value) { RevokeEnds(s', other.value, d); }
        }
      case ChangePassword(c, _) =>
        if Accepts(s, c) { RevokeEnds(s, c, d); }
    }
  }

  lemma EndsByCutoff(s: State, step: Step, d: Claims)
    requires Ready(s) && d in s.issued && (step.ResetPassword? || step.SetPassword? || step.StopTenant?)
    ensures Accepts(Handle(s, step), d) <==> Accepts(s, d) && !Ends(s, step, d)
  {
    var users := if step.StopTenant? then step.reached * Members(s.users, step.tenant)
      else if step.id in s.users then {step.id} else {};
    CutoffEnds(s, users, d);
    if !step.StopTenant? { RevokeOneIsRevokeAll(s, step.id); }
    hide Accepts, RevokeAll, RevokeUserTokens;
  }

  lemma SameTablesSameDecision(s: State, s': State, d: Claims)
    requires s' == s.(users := s'.users, torn := s'.torn)
    ensures Accepts(s', d) <==> Accepts(s, d)
  {}

  lemma UpdateCutsIff(u: User, role: Option<string>, status: Option<int>, tenant: Option<int>)
    ensures var u' := UpdatedUser(u, role, status, tenant);
            u'.status != 1 || u'.role != u.role <==>
              || (status.Some? && status.value != 1) || (status == None && u.status != 1)
              || (role == Some("admin") && u.role != "admin")
              || (role.Some? && role.value != "admin" && u.role != "user")
  {}

  lemma EndsByUpdate(s: State, step: Step, d: Claims)
    requires Ready(s) && d in s.issued && step.UpdateUser?
    ensures Accepts(Handle(s, step), d) <==> Accepts(s, d) && !Ends(s, step, d)
  {
    UpdateHandled(s, step);
    if step.id in s.users {
      var id, u' := step.id, UpdatedUser(s.users[step.id], step.newRole, step.newStatus, step.newTenant);
      var t := RevokeUserTokens(s, id);
      UpdateCutsIff(s.users[id], step.newRole, step.newStatus, step.newTenant);
      CutoffEnds(s, {id}, d);
      RevokeOneIsRevokeAll(s, id);
      SameTablesSameDecision(t, t.(users := s.users[id := u']), d);
      SameTablesSameDecision(s, s.(users := s.users[id := u']), d);
      var torn := TornUpdate(s, id, step.newRole, step.newStatus, step.newTenant, step.fault);
      SameTablesSameDecision(s, torn, d);
      assert RevokeUserTokens(s.(users := s.users[id := u']), id) == t.(users := s.users[id := u']);
      hide Accepts, RevokeAll, RevokeUserTokens, UpdateOutcome, UpdatedUser, TornUpdate, Handle, Older;
    }
  }

  lemma EndsByNothing(s: State, step: Step, d: Claims)
    requires Ready(s) && d in s.issued
    requires step.Login? || step.CreateUser? || step.Register? || step.IssueService? || step.Janitor?
    ensures Accepts(Handle(s, step), d) <==> Accepts(s, d)
  {
    match step {
      case Login(user, _) => if user in s.users { IssuingEndsNothing(s, user, d); }
      case CreateUser(_, _, _) => SameTablesSameDecision(s, Handle(s, step), d);
      case Register(id, _) =>
        var s' := s.(users := s.users[id := User("user", 1, 0)]);
        SameTablesSameDecision(s, s', d);
        IssuingEndsNothing(s', id, d);
      case IssueService =>
      case Janitor =>
        HandleKeepsInv(s, step);
        ForgettingIsSafe(s, d);
        ForgettingIsSafe(Handle(s, step), d);
    }
  }

  /** Every handler, every token: what was accepted is accepted after it exactly when
      the handler was not to end it. */
  lemma EndsExactly(s: State, step: Step, d: Claims)
    requires Ready(s) && d in s.issued
    ensures Accepts(Handle(s, step), d) <==> Accepts(s, d) && !Ends(s, step, d)
  {
    hide Handle, Accepts, Inv, Ready;
    match step {
      case Refresh(_) => EndsByRevoking(s, step, d);
      case Logout(_, _) => EndsByRevoking(s, step, d);
      case ChangePassword(_, _) => EndsByRevoking(s, step, d);
      case ResetPassword(_, _) => EndsByCutoff(s, step, d);
      case SetPassword(_, _, _) => EndsByCutoff(s, step, d);
      case StopTenant(_, _, _) => EndsByCutoff(s, step, d);
      case UpdateUser(_, _, _, _, _, _) => EndsByUpdate(s, step, d);
      case Login(_, _) => EndsByNothing(s, step, d);
      case CreateUser(_, _, _) => EndsByNothing(s, step, d);
      case Register(_, _) => EndsByNothing(s, step, d);
      case IssueService => EndsByNothing(s, step, d);
      case Janitor => EndsByNothing(s, step, d);
    }
  }

  /** In every run, what a handler ends is accepted in no later state. */
  lemma EndedForever(run: seq<State>, times: seq<int>, steps: seq<Step>, i: nat, j: nat, d: Claims)
    requires IsRun(run, times, steps) && i < j < |run| && d in run[i].issued
    requires Ends(run[i].(now := times[i]), steps[i], d)
    ensures !Accepts(run[j], d)
  {
    ReachableInv(run, times, steps, i);
    assert Follows(run, times, steps, i);
    ClockMakesReady(run[i], times[i]);
    hide Handle, Accepts, Inv, Ready, Ends, IsRun;
    EndsExactly(run[i].(now := times[i]), steps[i], d);
    HistoryOfHandler(run[i].(now := times[i]), steps[i]);
    RefusedForever(run, times, steps, i + 1, j, d);
  }

  lemma HistoryOfHandler(s: State, step: Step)
    requires Ready(s)
    ensures s.issued <= Handle(s, step).issued
  {
    hide Handle;
    HistoryGrows(s, step);
  }

  /** In particular a logout ends, for good, the access token it came with, and the
      other one it names if that was accepted and the same user's. */
  lemma LoggedOutForever(run: seq<State>, times: seq<int>, steps: seq<Step>, i: nat, j: nat, c: Claims,
      other: Option<Claims>)
    requires IsRun(run, times, steps) && i < j < |run| && i < |steps| && steps[i] == Logout(c, other)
    requires Accepts(run[i].(now := times[i]), c) && c.tokenType == Access
    ensures !Accepts(run[j], c)
    ensures other.Some? && Accepts(run[i].(now := times[i]), other.value) && other.value.userId == c.userId ==>
              !Accepts(run[j], other.value)
  {
    EndedForever(run, times, steps, i, j, c);
    if other.Some? && Accepts(run[i].(now := times[i]), other.value) && other.value.userId == c.userId {
      EndedForever(run, times, steps, i, j, other.value);
    }
  }

  /** Only an accepted admin's access token does anything as an actor. */
  lemma OnlyAdminsAct(s: State, step: Step, actor: Claims)
    requires || (step.CreateUser? && step.actor == actor) || (step.UpdateUser? && step.actor == actor)
             || (step.StopTenant? && step.actor == actor) || (step.ResetPassword? && step.actor == actor)
    requires !(Accepts(s, actor) && actor.tokenType == Access && actor.role == "admin")
    ensures Handle(s, step) == s
  {}

  /** The pair issued to a user: an access token of two hours and a refresh token of
      thirty days, in whole seconds, with the user's role and tenant. */
  lemma PairIs(s: State, user: int) returns (a: Claims, r: Claims)
    requires user in s.users
    ensures IssuePair(s, user).issued == s.issued + {a, r} && IssuePair(s, user).users == s.users
    ensures a.tokenType == Access && r.tokenType == RefreshToken && a.id != r.id
    ensures forall c :: c in {a, r} ==>
              && c.userId == user && c.role == s.users[user].role && c.tenant == s.users[user].tenant
              && c.iat == s.now / 1_000_000_000 * 1_000_000_000
    ensures a.exp == (s.now + 7_200_000_000_000) / 1_000_000_000 * 1_000_000_000
    ensures r.exp == (s.now + 2_592_000_000_000_000) / 1_000_000_000 * 1_000_000_000
  {
    var u := s.users[user];
    a := NewClaims(s, Access, user, u.role, u.tenant, ACCESS_TTL);
    r := NewClaims(Issue(s, a), RefreshToken, user, u.role, u.tenant, REFRESH_TTL);
  }

  /** A service token is issued for five minutes. */
  lemma ServiceTokenIs(s: State) returns (c: Claims)
    ensures Handle(s, IssueService).issued == s.issued + {c}
    ensures c.tokenType == Service && c.userId == 0
    ensures c.exp == (s.now + 300_000_000_000) / 1_000_000_000 * 1_000_000_000
  {
    c := NewClaims(s, Service, 0, "", 0, SERVICE_TTL);
  }

  /** Which handlers issue a pair: a login of an active user with the right credentials,
      a refresh that succeeds, a registration that is read back. */
  lemma IssuesPairIff(s: State, step: Step)
    requires Ready(s) && !step.IssueService?
    ensures Handle(s, step).issued != s.issued <==>
              || (step.Login? && step.credentialsOk && step.user in s.users && s.users[step.user].status == 1)
              || (step.Refresh? && Accepts(s, step.token) && step.token.tokenType == RefreshToken
                  && step.token.userId in s.users && s.users[step.token.userId].status == 1)
              || (step.Register? && step.loaded && step.id > 0 && step.id !in s.users)
  {
    PairIsNew(s, step);
    hide Ready, Inv, Accepts, Revoke, IssuePair;
    if !(step.Login? || step.Refresh? || step.Register?) {
      OthersIssueNothing(s, step);
      hide Handle;
    } else if step.Refresh? {
      RevokingLeavesUsers(s, step.token, 0, {});
    }
  }

  lemma OthersIssueNothing(s: State, step: Step)
    requires !(step.Login? || step.Refresh? || step.Register? || step.IssueService?)
    ensures Handle(s, step).issued == s.issued
  {
    hide Accepts, Revoke, RevokeAll, RevokeUserTokens, IssuePair, UpdateOutcome, UpdatedUser, DoUpdate, TornUpdate;
    match step {
      case Login(_, _) =>
      case Refresh(_) =>
      case IssueService =>
      case Logout(c, other) =>
        RevokingLeavesUsers(s, c, 0, {});
        if other.Some? { RevokingLeavesUsers(Revoke(s, c), other.value, 0, {}); }
      case CreateUser(actor, id, role) =>
      case UpdateUser(_, _, _, _, _, _) => UpdateIssuesNothing(s, step);
      case StopTenant(actor, tenant, reached) =>
        RevokingLeavesUsers(s, NewClaims(s, Service, 0, "", 0, 0), 0, reached * Members(s.users, tenant));
      case Register(id, loaded) =>
      case SetPassword(d, allowed, id) => RevokingLeavesUsers(s, d, id, {});
      case ResetPassword(actor, id) => RevokingLeavesUsers(s, actor, id, {});
      case ChangePassword(d, ok) => RevokingLeavesUsers(s, d, 0, {});
      case Janitor =>
    }
  }

  lemma PairIsNew(s: State, step: Step)
    requires Ready(s)
    ensures step.Login? && step.user in s.users ==> IssuePair(s, step.user).issued != s.issued
    ensures step.Refresh? && step.token.userId in s.users ==>
              IssuePair(Revoke(s, step.token), step.token.userId).issued != s.issued
    ensures step.Register? ==>
              IssuePair(s.(users := s.users[step.id := User("user", 1, 0)]), step.id).issued != s.issued
  {
    if step.Login? && step.user in s.users { FreshIds(s, s, step.user); }
    if step.Refresh? && step.token.userId in s.users { FreshIds(s, Revoke(s, step.token), step.token.userId); }
    if step.Register? { FreshIds(s, s.(users := s.users[step.id := User("user", 1, 0)]), step.id); }
  }

  lemma FreshIds(s: State, t: State, user: int)
    requires Inv(s) && t.issued == s.issued && t.nextId == s.nextId && user in t.users
    ensures IssuePair(t, user).issued != s.issued
  {
    var a, r := PairIs(t, user);
    var u := t.users[user];
    assert NewClaims(t, Access, user, u.role, u.tenant, ACCESS_TTL) in IssuePair(t, user).issued;
  }

  /** How a user update is answered, spelt out. */
  lemma UpdateAnswers(s: State, actor: Claims, id: int, role: Option<string>, status: Option<int>, fault: Fault)
    ensures var outcome := UpdateOutcome(s, actor, id, role, status, fault);
            var admin := Accepts(s, actor) && actor.tokenType == Access && actor.role == "admin";
            var demotes := id in s.users && s.users[id].role == "admin" && role.Some? && role.value != "admin";
            var disables := id in s.users && s.users[id].status == 1 && status.Some? && status.value != 1;
            var admins := set u | u in s.users && s.users[u].role == "admin" && s.users[u].status == 1;
            && (outcome == Denied <==> !admin)
            && (outcome == Missing <==> admin && id !in s.users)
            && (outcome == SelfLock <==> admin && (demotes || disables) && id == actor.userId)
            && (outcome == LastAdmin <==>
                  && admin && (demotes || disables) && id != actor.userId && s.users[id].role == "admin"
                  && (fault == CountFails || |admins| <= 1))
            && (outcome == Failed ==> fault != NoFault && fault != CountFails)
            && (outcome == Done ==> fault == NoFault || fault == CountFails)
  {
    hide Accepts;
  }

  /** What an update that passes its guards and meets no error makes of the row. */
  lemma UpdateWrites(s: State, step: Step)
    requires step.UpdateUser?
      && UpdateOutcome(s, step.actor, step.id, step.newRole, step.newStatus, step.fault) == Done
    ensures step.id in s.users && Handle(s, step).users == s.users[step.id := Handle(s, step).users[step.id]]
    ensures var u, u' := s.users[step.id], Handle(s, step).users[step.id];
            && (step.newRole == None ==> u'.role == u.role)
            && (step.newRole == Some("admin") ==> u'.role == "admin")
            && (step.newRole.Some? && step.newRole.value != "admin" ==> u'.role == "user")
            && u'.status == (if step.newStatus.Some? then step.newStatus.value else u.status)
            && u'.tenant == (if step.newTenant.Some? then step.newTenant.value else u.tenant)
  {
    UpdateHandled(s, step);
    hide UpdateOutcome, Handle, RevokeUserTokens;
    UpdatedRows(s, step.id, step.newRole, step.newStatus, step.newTenant);
  }

  lemma UpdatedRows(s: State, id: int, role: Option<string>, status: Option<int>, tenant: Option<int>)
    requires id in s.users
    ensures DoUpdate(s, id, role, status, tenant).users == s.users[id := UpdatedUser(s.users[id], role, status, tenant)]
  {}

  /** What an update that ends with an error leaves of it: nothing, role and status, or
      all; and no user is cut off. */
  lemma TornUpdateWrites(s: State, step: Step)
    requires step.UpdateUser?
      && UpdateOutcome(s, step.actor, step.id, step.newRole, step.newStatus, step.fault) == Failed
    ensures step.fault == NothingWritten ==> Handle(s, step) == s
    ensures step.id in s.users && Handle(s, step).users == s.users[step.id := Handle(s, step).users[step.id]]
    ensures var u, u' := s.users[step.id], Handle(s, step).users[step.id];
            step.fault != NothingWritten ==>
              && (step.newRole == None ==> u'.role == u.role)
              && (step.newRole == Some("admin") ==> u'.role == "admin")
              && (step.newRole.Some? && step.newRole.value != "admin" ==> u'.role == "user")
              && u'.status == (if step.newStatus.Some? then step.newStatus.value else u.status)
              && u'.tenant == (if step.fault == BothWritten && step.newTenant.Some? then step.newTenant.value
                               else u.tenant)
    ensures Handle(s, step).kills == s.kills && Handle(s, step).revoked == s.revoked
  {
    UpdateHandled(s, step);
    hide UpdateOutcome, Handle;
  }

  /** A cutoff is now; with Redis it is now in whole seconds, for thirty days. */
  lemma CutoffIs(s: State, user: int)
    ensures var s' := RevokeUserTokens(s, user);
            && s'.kills == s.kills[user := s'.kills[user]]
            && s'.kills[user] == if s.mode == InMemory then Kill(s.now, None)
                 else Kill(s.now / 1_000_000_000 * 1_000_000_000, Some(s.now + 2_592_000_000_000_000))
  {}

  /** In memory the janitor drops exactly the revocations of expired tokens. */
  lemma JanitorForgets(s: State, id: nat)
    ensures s.mode == InMemory ==>
              Get(Handle(s, Janitor).revoked, id) ==
              if id in s.revoked && s.now <= s.revoked[id] then Some(s.revoked[id]) else None
    ensures Handle(s, Janitor).kills == s.kills
  {}

  /** A created user is an admin only when asked for, a registered one never. */
  lemma NewUserRow(s: State, step: Step)
    requires step.CreateUser? || step.Register?
    ensures step.CreateUser? && ActsAsAdmin(s, step.actor) && step.id > 0 && step.id !in s.users ==>
              Handle(s, step).users ==
              s.users[step.id := User(if step.role == "admin" then "admin" else "user", 1, 0)]
    ensures step.Register? && step.id > 0 && step.id !in s.users ==>
              Handle(s, step).users == s.users[step.id := User("user", 1, 0)]
  {
    hide Accepts;
  }

  // ---------------------------------------------------------- accepted is current

  lemma AcceptedBefore(s: State, step: Step, c: Claims)
    requires Ready(s) && c in s.issued && Accepts(Handle(s, step), c)
    ensures Accepts(s, c)
  {
    HandleKeepsInv(s, step);
    ForgettingIsSafe(s, c);
    ForgettingIsSafe(Handle(s, step), c);
    hide Handle;
    HistoryGrows(s, step);
    if c.userId in s.lastKill {
      TruncatedMonotone(s.lastKill[c.userId], Handle(s, step).lastKill[c.userId]);
    }
  }

  lemma IssuePairIssues(s: State, user: int, c: Claims)
    requires user in s.users
    ensures IssuePair(s, user).users == s.users
    ensures c in IssuePair(s, user).issued && c !in s.issued ==>
              c.userId == user && c.role == s.users[user].role && c.tenant == s.users[user].tenant
  {}

  lemma RevokingLeavesUsers(s: State, c: Claims, user: int, users: set<int>)
    ensures Revoke(s, c).users == RevokeUserTokens(s, user).users == RevokeAll(s, users).users == s.users
    ensures Revoke(s, c).issued == RevokeUserTokens(s, user).issued == RevokeAll(s, users).issued == s.issued
  {}

  /** Except by an update no row changes, and new tokens copy their user's row. */
  lemma RowsKept(s: State, step: Step, c: Claims)
    requires !step.UpdateUser?
    ensures c.userId in s.users ==>
              c.userId in Handle(s, step).users && Handle(s, step).users[c.userId] == s.users[c.userId]
    ensures c in Handle(s, step).issued && c !in s.issued && c.userId != 0 ==> Current(Handle(s, step), c)
  {
    hide Accepts, Revoke, RevokeAll, RevokeUserTokens, IssuePair, UpdateOutcome, UpdatedUser, DoUpdate;
    match step {
      case Login(user, ok) =>
        if ok && user in s.users && s.users[user].status == 1 { IssuePairIssues(s, user, c); }
      case Refresh(d) => RefreshRows(s, d, c);
      case Logout(d, other) =>
        RevokingLeavesUsers(s, d, 0, {});
        if other.Some? { RevokingLeavesUsers(Revoke(s, d), other.value, 0, {}); }
      case CreateUser(actor, id, role) =>
      case UpdateUser(_, _, _, _, _, _) =>
      case StopTenant(actor, tenant, reached) =>
        RevokingLeavesUsers(s, c, 0, reached * Members(s.users, tenant));
      case Register(id, loaded) => RegisterRows(s, id, loaded, c);
      case SetPassword(d, allowed, id) => RevokingLeavesUsers(s, d, id, {});
      case ResetPassword(actor, id) => RevokingLeavesUsers(s, c, id, {});
      case ChangePassword(d, ok) => RevokingLeavesUsers(s, d, 0, {});
      case IssueService =>
      case Janitor =>
    }
  }

  lemma RefreshRows(s: State, d: Claims, c: Claims)
    ensures var s' := Handle(s, Refresh(d));
            s'.users == s.users && (c in s'.issued && c !in s.issued ==> Current(s', c))
  {
    RevokingLeavesUsers(s, d, 0, {});
    if RefreshSucceeds(s, d) {
      hide Accepts, Revoke, IssuePair;
      IssuePairIssues(Revoke(s, d), d.userId, c);
    }
  }

  lemma RegisterRows(s: State, id: int, loaded: bool, c: Claims)
    ensures var s' := Handle(s, Register(id, loaded));
            && (forall u :: u in s.users ==> u in s'.users && s'.users[u] == s.users[u])
            && (c in s'.issued && c !in s.issued ==> Current(s', c))
  {
    hide IssuePair;
    if id > 0 && id !in s.users {
      IssuePairIssues(s.(users := s.users[id := User("user", 1, 0)]), id, c);
    }
  }

  lemma UpdateIssuesNothing(s: State, step: Step)
    requires step.UpdateUser?
    ensures Handle(s, step).issued == s.issued
  {
    hide Accepts, UpdateOutcome, UpdatedUser;
  }

  /** A whole update sets a cutoff or leaves what tokens copy as it was. */
  lemma WholeUpdateKeepsCurrent(s: State, id: int, role: Option<string>, status: Option<int>, tenant: Option<int>,
      c: Claims)
    requires Ready(s) && s.mode == InMemory && id in s.users && c in s.issued && c.userId != 0 && Current(s, c)
    requires Accepts(DoUpdate(s, id, role, status, tenant), c)
    ensures Current(DoUpdate(s, id, role, status, tenant), c)
  {
    assert c.iat <= s.issuedAt[c.id] < s.now;
  }

  lemma StaysCurrent(s: State, step: Step, c: Claims)
    requires Ready(s) && s.mode == InMemory && c in s.issued && c.userId != 0 && Current(s, c)
    requires Accepts(s, c) && Accepts(Handle(s, step), c) && !TearsTokens(s, step)
    ensures Current(Handle(s, step), c)
  {
    if step.UpdateUser? {
      var outcome := UpdateOutcome(s, step.actor, step.id, step.newRole, step.newStatus, step.fault);
      hide UpdateOutcome, Accepts;
      if outcome == Done {
        WholeUpdateKeepsCurrent(s, step.id, step.newRole, step.newStatus, step.newTenant, c);
      }
    } else {
      RowsKept(s, step, c);
      hide Handle;
    }
  }

  /** A handler makes an accepted token stale exactly when it is such an update. */
  lemma TearingIff(s: State, step: Step)
    requires Ready(s) && s.mode == InMemory && AllCurrent(s)
    ensures AllCurrent(Handle(s, step)) <==> !TearsTokens(s, step)
  {
    if TearsTokens(s, step) {
      TearsWitness(s, step);
    } else {
      var s' := Handle(s, step);
      hide Handle, TearsTokens, Accepts;
      forall c | c in s'.issued && c.userId != 0 && Accepts(s', c) ensures Current(s', c) {
        if c in s.issued {
          AcceptedBefore(s, step, c);
          StaysCurrent(s, step, c);
        } else if step.UpdateUser? {
          UpdateIssuesNothing(s, step);
        } else {
          RowsKept(s, step, c);
        }
      }
    }
  }

  lemma TearsWitness(s: State, step: Step)
    requires Ready(s) && AllCurrent(s) && TearsTokens(s, step)
    ensures !AllCurrent(Handle(s, step))
  {
    var c :| c in s.issued && c.userId == step.id && Accepts(s, c);
    var s' := Handle(s, step);
    hide UpdateOutcome;
    assert s' == TornUpdate(s, step.id, step.newRole, step.newStatus, step.newTenant, step.fault);
    assert Accepts(s', c) && Current(s, c) && !Current(s', c);
  }

  /** While no handler runs, no token becomes stale. */
  lemma CurrentBetweenHandlers(s: State, t: int)
    requires Inv(s) && s.mode == InMemory && s.now <= t && AllCurrent(s)
    ensures AllCurrent(s.(now := t))
  {}

  /** In memory: over any run, accepted tokens were current after each handler exactly
      when none of the handlers was a user update that passed its guards and ended with
      an error after writing a change of a user who holds an accepted token. */
  lemma {:induction false} CoherentInEveryRun(run: seq<State>, times: seq<int>, steps: seq<Step>, n: nat)
    requires IsRun(run, times, steps) && n < |run| && run[0].mode == InMemory
    ensures (forall i :: 0 <= i <= n ==> AllCurrent(run[i]))
      <==> (forall i :: 0 <= i < n ==> !TearsTokens(run[i].(now := times[i]), steps[i]))
  {
    if n == 0 {
      assert run[0].issued == {};
    } else {
      CoherentInEveryRun(run, times, steps, n - 1);
      if AllCurrent(run[n - 1]) { NextIsCurrent(run, times, steps, n - 1); }
      hide *;
    }
  }

  lemma NextIsCurrent(run: seq<State>, times: seq<int>, steps: seq<Step>, i: nat)
    requires IsRun(run, times, steps) && i < |steps| && run[0].mode == InMemory && AllCurrent(run[i])
    ensures AllCurrent(run[i + 1]) <==> !TearsTokens(run[i].(now := times[i]), steps[i])
  {
    ReachableInv(run, times, steps, i);
    ModeStays(run, times, steps, i);
    assert Follows(run, times, steps, i);
    ClockMakesReady(run[i], times[i]);
    CurrentBetweenHandlers(run[i], times[i]);
    hide AllCurrent, TearsTokens, Handle, Inv;
    TearingIff(run[i].(now := times[i]), steps[i]);
  }

  /** After a successful refresh the token is no longer accepted. */
  lemma RefreshConsumes(s: State, c: Claims)
    requires Ready(s) && RefreshSucceeds(s, c)
    ensures c in Handle(s, Refresh(c)).issued && !Accepts(Handle(s, Refresh(c)), c)
  {
    HandleKeepsInv(s, Refresh(c));
    ForgettingIsSafe(Handle(s, Refresh(c)), c);
  }

  /** In any run each refresh token succeeds at most once. */
  lemma RefreshAtMostOnce(run: seq<State>, times: seq<int>, steps: seq<Step>, i: nat, j: nat, c: Claims)
    requires IsRun(run, times, steps) && i < j < |steps|
    requires steps[i] == Refresh(c) && RefreshSucceeds(run[i].(now := times[i]), c)
    ensures !RefreshSucceeds(run[j].(now := times[j]), c)
  {
    ReachableInv(run, times, steps, i);
    assert Follows(run, times, steps, i) && Follows(run, times, steps, j);
    ClockMakesReady(run[i], times[i]);
    RefreshConsumes(run[i].(now := times[i]), c);
    RefusedForever(run, times, steps, i + 1, j, c);
    ReachableInv(run, times, steps, j);
    ClockMakesReady(run[j], times[j]);
    ForgettingIsSafe(run[j], c);
    ForgettingIsSafe(run[j].(now := times[j]), c);
  }

  /** The number of active admins never reaches zero, and nobody demotes or
      disables themself. */
  lemma AlwaysAnActiveAdmin(run: seq<State>, times: seq<int>, steps: seq<Step>, i: nat)
    requires IsRun(run, times, steps) && i < |steps|
    ensures |ActiveAdmins(run[i + 1].users)| >= 1
    ensures var step := steps[i];
            step.UpdateUser? && step.id == step.actor.userId && step.id in ActiveAdmins(run[i].users) ==>
              step.id in ActiveAdmins(run[i + 1].users)
  {
    ReachableInv(run, times, steps, i + 1);
    assert Follows(run, times, steps, i);
    var r, step := run[i].(now := times[i]), steps[i];
    if step.UpdateUser? && step.id == step.actor.userId && step.id in ActiveAdmins(run[i].users) {
      NoSelfLock(r, step);
    }
    hide Handle, Accepts;
    var a := Pick(ActiveAdmins(run[i + 1].users));
  }

  lemma NoSelfLock(s: State, step: Step)
    requires step.UpdateUser? && step.id == step.actor.userId && step.id in ActiveAdmins(s.users)
    ensures step.id in ActiveAdmins(Handle(s, step).users)
  {
    if UpdateOutcome(s, step.actor, step.id, step.newRole, step.newStatus, step.fault) in {Done, Failed} {
      SelfUpdate(s, step);
    }
    hide Accepts, UpdateOutcome, UpdatedUser;
  }

  /** An update by an active admin of their own row leaves them one. */
  lemma SelfUpdate(s: State, step: Step)
    requires step.UpdateUser? && step.id == step.actor.userId && step.id in ActiveAdmins(s.users)
    requires UpdateOutcome(s, step.actor, step.id, step.newRole, step.newStatus, step.fault) in {Done, Failed}
    ensures forall tenant ::
              UpdatedUser(s.users[step.id], step.newRole, step.newStatus, tenant).role == "admin"
              && UpdatedUser(s.users[step.id], step.newRole, step.newStatus, tenant).status == 1
  {
    hide Accepts;
  }

  /** The change would take an admin's role or disable an active admin. */
  predicate TakesAdmin(u: User, role: Option<string>, status: Option<int>) {
    u.role == "admin" && ((role.Some? && role.value != "admin") || (status.Some? && status.value != 1 && u.status == 1))
  }

  /** When the count query works: a current actor is an active admin other than the
      target, and is refused exactly the demotion, as the only active admin, of an admin
      who is already inactive. The count protects an active admin only from an actor
      whose token should have been cut off and was not. */
  lemma LastAdminRefusalIff(s: State, actor: Claims, id: int, role: Option<string>, status: Option<int>, fault: Fault)
    requires Inv(s) && s.mode == InMemory
    ensures UpdateOutcome(s, actor, id, role, status, fault) == LastAdmin <==>
              && IsAdminActor(s, actor)
              && id in s.users && id != actor.userId && TakesAdmin(s.users[id], role, status)
              && (fault == CountFails
                  || if Current(s, actor) then s.users[id].status != 1 && ActiveAdmins(s.users) == {actor.userId}
                     else |ActiveAdmins(s.users)| == 1)
    ensures UpdateOutcome(s, actor, id, role, status, fault) == LastAdmin && fault != CountFails
            && id in ActiveAdmins(s.users) ==>
              ActiveAdmins(s.users) == {id} && Torn(s, actor) && !Current(s, actor)
  {
    var admins, me := ActiveAdmins(s.users), actor.userId;
    assert |admins| >= 1;
    if |admins| <= 1 && id in admins { OnlyElement(admins, id); }
    if IsAdminActor(s, actor) {
      StaleIsTorn(s, actor);
      assert |{me}| == 1;
      if Current(s, actor) {
        assert me in admins;
        assert id in s.users && s.users[id].role == "admin" && s.users[id].status == 1 ==> id in admins;
        if |admins| <= 1 { OnlyElement(admins, me); }
      }
    }
  }

  lemma OnlyElement(s: set<int>, x: int)
    requires x in s && |s| <= 1
    ensures s == {x}
  {
    assert |s - {x}| == 0;
    assert s == {x} + (s - {x});
  }

  // ------------------------------------------------------------------- witnesses

  /** Two admins, the second possibly inactive, before anything has happened. */
  function TwoAdmins(mode: Mode, secondStatus: int): State {
    State(mode, 0, map[1 := User("admin", 1, 0), 2 := User("admin", secondStatus, 0)], {}, 0, map[], map[], map[], {},
      map[], map[])
  }

  /** Such a refusal happens: the only active admin logs in and tries to demote an
      admin who was disabled. */
  lemma LastAdminRefusalHappens() returns (actor: Claims)
    ensures var s0 := TwoAdmins(InMemory, 0);
            var s1 := After(s0, SECOND, Login(1, true));
            && IsRun([s0, s1], [SECOND], [Login(1, true)])
            && UpdateOutcome(s1.(now := SECOND + 1), actor, 2, Some("user"), None, NoFault) == LastAdmin
  {
    var s0 := TwoAdmins(InMemory, 0);
    var s1 := After(s0, SECOND, Login(1, true));
    assert 1 in ActiveAdmins(s0.users);
    assert Follows([s0, s1], [SECOND], [Login(1, true)], 0);
    ReachableInv([s0, s1], [SECOND], [Login(1, true)], 1);
    actor := NewClaims(s0.(now := SECOND), Access, 1, "admin", 0, ACCESS_TTL);
    assert actor in s1.issued && s1.users == s0.users;
    ClockMakesReady(s1, SECOND + 1);
    assert ActiveAdmins(s1.users) == {1};
    LastAdminRefusalIff(s1.(now := SECOND + 1), actor, 2, Some("user"), None, NoFault);
  }

  /** A pair issued by a login is accepted at once exactly when the user has no cutoff
      later than the second of the login. With Redis that is always so; in memory a
      login in the second of a cutoff gets tokens that are never accepted. */
  lemma FreshPairAcceptedIff(s: State, user: int, c: Claims)
    requires Ready(s) && user in s.users && s.users[user].status == 1
    requires c in IssuePair(s, user).issued && c !in s.issued
    ensures Accepts(IssuePair(s, user), c)
      <==> user !in s.lastKill || CutoffOf(s.mode, s.lastKill[user]) <= Truncated(s.now)
    ensures s.mode == Redis ==> Accepts(IssuePair(s, user), c)
  {
    IssuePairKeeps(s, user);
    ForgettingIsSafe(IssuePair(s, user), c);
    if user in s.lastKill { TruncatedMonotone(s.lastKill[user], s.now); }
  }

  /** A password is reset and the user logs in within the same second:
      from then on neither of the new tokens is ever accepted. */
  lemma LoginRightAfterReset(run: seq<State>, times: seq<int>, steps: seq<Step>, i: nat, j: nat, user: int,
      actor: Claims, c: Claims)
    requires IsRun(run, times, steps) && i + 2 <= j < |run| && run[0].mode == InMemory
    requires steps[i] == ResetPassword(actor, user) && IsAdminActor(run[i].(now := times[i]), actor)
    requires steps[i + 1] == Login(user, true) && user in run[i].users && run[i].users[user].status == 1
    requires Truncated(times[i + 1]) == Truncated(times[i]) && times[i] % SECOND != 0
    requires c in run[i + 2].issued && c !in run[i + 1].issued
    ensures !Accepts(run[j], c)
  {
    assert Follows(run, times, steps, i) && Follows(run, times, steps, i + 1);
    ModeStays(run, times, steps, i);
    ReachableInv(run, times, steps, i + 1);
    ClockMakesReady(run[i + 1], times[i + 1]);
    var s := run[i + 1].(now := times[i + 1]);
    AfterReset(run[i].(now := times[i]), actor, user);
    AfterLogin(s, user);
    hide Handle, Accepts, Inv, IsRun, IssuePair, IsAdminActor;
    FreshPairAcceptedIff(s, user, c);
    RefusedForever(run, times, steps, i + 2, j, c);
  }

  lemma AfterReset(s: State, actor: Claims, user: int)
    requires IsAdminActor(s, actor) && user in s.users
    ensures var s' := Handle(s, ResetPassword(actor, user));
            s'.users == s.users && s'.mode == s.mode && user in s'.lastKill && s'.lastKill[user] == s.now
  {}

  lemma AfterLogin(s: State, user: int)
    requires user in s.users && s.users[user].status == 1
    ensures Handle(s, Login(user, true)) == IssuePair(s, user)
  {}

  lemma {:induction false} ModeStays(run: seq<State>, times: seq<int>, steps: seq<Step>, i: nat)
    requires IsRun(run, times, steps) && i < |run|
    ensures run[i].mode == run[0].mode
  {
    if i > 0 {
      ModeStays(run, times, steps, i - 1);
      ReachableInv(run, times, steps, i - 1);
      assert Follows(run, times, steps, i - 1);
      ClockMakesReady(run[i - 1], times[i - 1]);
      hide Handle;
      HistoryGrows(run[i - 1].(now := times[i - 1]), steps[i - 1]);
    }
  }

  /** Users 1 and 2 log in right after a full second. */
  function BothLoggedIn(s0: State): State
    requires 1 in s0.users && 2 in s0.users
  {
    IssuePair(IssuePair(s0.(now := SECOND + 1), 1).(now := SECOND + 2), 2)
  }

  function FirstToken(s0: State, user: int): Claims
    requires user in s0.users
  {
    Claims(if user == 1 then 0
      else 2, Access, user, s0.users[user].role, s0.users[user].tenant, SECOND, SECOND + ACCESS_TTL)
  }

  lemma LoggedInTokens(s0: State)
    requires Initial(s0) && s0.nextId == 0 && 1 in s0.users && 2 in s0.users
    ensures var s2 := BothLoggedIn(s0);
            && s2.users == s0.users && s2.mode == s0.mode && s2.revoked == map[] && s2.kills == map[]
              && s2.lastKill == map[]
            && FirstToken(s0, 1) in s2.issued && FirstToken(s0, 2) in s2.issued
  {
    SameSecond(SECOND, 1);
    SameSecond(SECOND, 2);
    SameSecond(SECOND + ACCESS_TTL, 1);
    SameSecond(SECOND + ACCESS_TTL, 2);
    var s := s0.(now := SECOND + 1);
    assert NewClaims(s, Access, 1, s0.users[1].role, s0.users[1].tenant, ACCESS_TTL) == FirstToken(s0, 1);
    var t := IssuePair(s, 1).(now := SECOND + 2);
    assert NewClaims(t, Access, 2, s0.users[2].role, s0.users[2].tenant, ACCESS_TTL) == FirstToken(s0, 2);
  }

  /** The run of both logins followed by an update of one user by the other. */
  lemma UpdateRun(s0: State, step: Step) returns (run: seq<State>, times: seq<int>, steps: seq<Step>)
    requires Initial(s0) && s0.now == 0 && 1 in s0.users && 2 in s0.users && s0.users[1].status == 1
      && s0.users[2].status == 1
    ensures IsRun(run, times, steps) && run[0] == s0 && |steps| == 3
      && run[3] == Handle(BothLoggedIn(s0).(now := SECOND + 3), step)
  {
    var s1 := IssuePair(s0.(now := SECOND + 1), 1);
    var s2 := BothLoggedIn(s0);
    run, times := [s0, s1, s2, After(s2, SECOND + 3, step)], [SECOND + 1, SECOND + 2, SECOND + 3];
    steps := [Login(1, true), Login(2, true), step];
    assert Follows(run, times, steps, 0) && Follows(run, times, steps, 1) && Follows(run, times, steps, 2);
  }

  lemma TwoAdminsStart(mode: Mode)
    ensures var s0 := TwoAdmins(mode, 1);
            && Initial(s0) && s0.mode == mode && s0.now == 0 && s0.nextId == 0 && 1 in s0.users && 2 in s0.users
            && s0.users[1].status == 1 && s0.users[2].status == 1
  {
    assert 1 in ActiveAdmins(TwoAdmins(mode, 1).users);
  }

  /** The weaker Redis statement cannot be improved: from the start, an admin and a
      user log in, the admin disables the user, all within a second, and the user's
      token is still accepted. */
  lemma StaleTokenWitness() returns (run: seq<State>, times: seq<int>, steps: seq<Step>, c: Claims)
    ensures IsRun(run, times, steps) && run[0].mode == Redis
    ensures Accepts(run[|steps|], c) && c.userId != 0 && !Current(run[|steps|], c)
  {
    var s0 := State(Redis, 0, map[1 := User("admin", 1, 0), 2 := User("user", 1, 0)], {}, 0, map[], map[], map[], {},
      map[], map[]);
    assert Initial(s0) by { assert 1 in ActiveAdmins(s0.users); }
    hide *;
    LoggedInTokens(s0);
    var actor, r := FirstToken(s0, 1), BothLoggedIn(s0).(now := SECOND + 3);
    var step := UpdateUser(actor, 2, None, Some(0), None, NoFault);
    run, times, steps := UpdateRun(s0, step);
    c := FirstToken(s0, 2);
    StaleAfterDisabling(r, s0, actor, c);
    UpdateHandled(r, step);
  }

  lemma StaleAfterDisabling(r: State, s0: State, actor: Claims, c: Claims)
    requires r.now == SECOND + 3 && r.mode == Redis && r.users == s0.users
    requires s0.users == map[1 := User("admin", 1, 0), 2 := User("user", 1, 0)]
    requires r.revoked == map[] && r.kills == map[] && actor in r.issued && c in r.issued
    requires actor == FirstToken(s0, 1) && c == FirstToken(s0, 2)
    ensures UpdateOutcome(r, actor, 2, None, Some(0), NoFault) == Done
    ensures var s := DoUpdate(r, 2, None, Some(0), None); Accepts(s, c) && c.userId != 0 && !Current(s, c)
  {
    SameSecond(SECOND, 3);
  }

  /** With Redis the count does protect: two admins demote each other within a second,
      and the second demotion, by a token that is stale, meets the last active admin. */
  lemma CountProtectsWithRedis() returns (run: seq<State>, times: seq<int>, steps: seq<Step>, actor: Claims)
    ensures IsRun(run, times, steps) && run[0].mode == Redis
    ensures 2 in ActiveAdmins(run[|steps|].users)
    ensures UpdateOutcome(run[|steps|].(now := SECOND + 4), actor, 2, Some("user"), None, NoFault) == LastAdmin
  {
    hide *;
    var s0 := TwoAdmins(Redis, 1);
    TwoAdminsStart(Redis);
    LoggedInTokens(s0);
    var second, r := FirstToken(s0, 2), BothLoggedIn(s0).(now := SECOND + 3);
    var step := UpdateUser(second, 1, Some("user"), None, None, NoFault);
    run, times, steps := UpdateRun(s0, step);
    actor := FirstToken(s0, 1);
    DemotingEachOther(r, actor, second);
    UpdateHandled(r, step);
  }

  lemma DemotingEachOther(r: State, first: Claims, second: Claims)
    requires r.now == SECOND + 3 && r.mode == Redis && r.users == TwoAdmins(Redis, 1).users
    requires r.revoked == map[] && r.kills == map[] && first in r.issued && second in r.issued
    requires first == FirstToken(TwoAdmins(Redis, 1), 1) && second == FirstToken(TwoAdmins(Redis, 1), 2)
    ensures UpdateOutcome(r, second, 1, Some("user"), None, NoFault) == Done
    ensures var s := DoUpdate(r, 1, Some("user"), None, None);
            2 in ActiveAdmins(s.users)
              && UpdateOutcome(s.(now := SECOND + 4), first, 2, Some("user"), None, NoFault) == LastAdmin
  {
    SameSecond(SECOND, 3);
    assert ActiveAdmins(r.users) == {1, 2} && |{1, 2}| == 2;
    var s := DoUpdate(r, 1, Some("user"), None, None);
    assert ActiveAdmins(s.users) == {2} && |{2}| == 1;
    assert Accepts(s.(now := SECOND + 4), first);
  }

  /** In memory an admin demotes another with a tenant the second statement refuses: the
      other's token is still accepted as an admin's, and only the count keeps it from
      demoting the last active admin. */
  lemma TornUpdateWitness() returns (run: seq<State>, times: seq<int>, steps: seq<Step>, c: Claims)
    ensures IsRun(run, times, steps) && run[0].mode == InMemory
    ensures var s := run[|steps|];
            && Accepts(s, c) && c.role == "admin" && c.userId == 2 && !Current(s, c)
            && 2 in s.users && s.users[2].role == "user" && ActiveAdmins(s.users) == {1}
    ensures UpdateOutcome(run[|steps|].(now := SECOND + 4), c, 1, Some("user"), None, NoFault) == LastAdmin
  {
    hide *;
    var s0 := TwoAdmins(InMemory, 1);
    TwoAdminsStart(InMemory);
    LoggedInTokens(s0);
    var actor, r := FirstToken(s0, 1), BothLoggedIn(s0).(now := SECOND + 3);
    var step := UpdateUser(actor, 2, Some("user"), None, Some(3_000_000_000), RoleWritten);
    run, times, steps := UpdateRun(s0, step);
    c := FirstToken(s0, 2);
    DemotedWithoutCutoff(r, actor, c);
    UpdateHandled(r, step);
  }

  lemma DemotedWithoutCutoff(r: State, first: Claims, second: Claims)
    requires r.now == SECOND + 3 && r.mode == InMemory && r.users == TwoAdmins(InMemory, 1).users
    requires r.revoked == map[] && r.kills == map[] && first in r.issued && second in r.issued
    requires first == FirstToken(TwoAdmins(InMemory, 1), 1) && second == FirstToken(TwoAdmins(InMemory, 1), 2)
    ensures UpdateOutcome(r, first, 2, Some("user"), None, RoleWritten) == Failed
    ensures var s := TornUpdate(r, 2, Some("user"), None, Some(3_000_000_000), RoleWritten);
            && Accepts(s, second) && second.role == "admin" && second.userId == 2 && !Current(s, second)
            && 2 in s.users && s.users[2].role == "user" && ActiveAdmins(s.users) == {1}
            && UpdateOutcome(s.(now := SECOND + 4), second, 1, Some("user"), None, NoFault) == LastAdmin
  {
    assert ActiveAdmins(r.users) == {1, 2} && |{1, 2}| == 2;
    var s := TornUpdate(r, 2, Some("user"), None, Some(3_000_000_000), RoleWritten);
    assert ActiveAdmins(s.users) == {1} && |{1}| == 1;
    assert Accepts(s.(now := SECOND + 4), second);
  }

  /** A login right after a reset, from the start: an admin logs in, resets a password,
      and the user logs in, all within a second; the new token is refused at once. */
  lemma LoginRightAfterResetWitness()
      returns (run: seq<State>, times: seq<int>, steps: seq<Step>, actor: Claims, c: Claims)
    ensures IsRun(run, times, steps) && run[0].mode == InMemory && |steps| == 3
    ensures steps[1] == ResetPassword(actor, 2) && IsAdminActor(run[1].(now := times[1]), actor)
    ensures steps[2] == Login(2, true) && c in run[3].issued && c !in run[2].issued && !Accepts(run[3], c)
  {
    var s0 := TwoAdmins(InMemory, 1);
    TwoAdminsStart(InMemory);
    actor, c := FirstToken(s0, 1), FirstToken(s0, 2);
    var s1 := IssuePair(s0.(now := SECOND + 1), 1);
    LoginIssues(s0, 1, 1);
    var s2 := RevokeUserTokens(s1.(now := SECOND + 2), 2);
    assert IsAdminActor(s1.(now := SECOND + 2), actor);
    var s3 := IssuePair(s2.(now := SECOND + 3), 2);
    LoginIssues(s2, 2, 3);
    run, times := [s0, s1, s2, s3], [SECOND + 1, SECOND + 2, SECOND + 3];
    steps := [Login(1, true), ResetPassword(actor, 2), Login(2, true)];
    hide IssuePair, Initial, TwoAdmins, IsAdminActor, Accepts, RevokeUserTokens;
    assert Follows(run, times, steps, 0) && Follows(run, times, steps, 1) && Follows(run, times, steps, 2);
  }

  /** A login of user 1 or 2, `d` nanoseconds past the first second. */
  lemma LoginIssues(s: State, user: int, d: nat)
    requires user in {1, 2} && d < SECOND && s.nextId == (if user == 1 then 0 else 2)
    requires user in s.users && s.users[user] == User("admin", 1, 0) && forall c :: c in s.issued ==> c.id < s.nextId
    ensures var s', c := IssuePair(s.(now := SECOND + d), user), FirstToken(TwoAdmins(InMemory, 1), user);
            && c in s'.issued && c !in s.issued && s'.nextId == s.nextId + 2 && s'.now == SECOND + d
            && s' == s.(now := s'.now, issued := s'.issued, nextId := s'.nextId, issuedAt := s'.issuedAt)
            && forall e :: e in s'.issued ==> e.id < s'.nextId
  {
    SameSecond(SECOND, d);
    SameSecond(SECOND + ACCESS_TTL, d);
    var t := s.(now := SECOND + d);
    assert NewClaims(t, Access, user, "admin", 0, ACCESS_TTL) == FirstToken(TwoAdmins(InMemory, 1), user);
  }

  /** What a restart of the process leaves: signing key, users and Redis survive it,
      revocations and cutoffs kept in memory do not. */
  function Restarted(s: State): State {
    if s.mode == Redis then s else s.(revoked := map[], kills := map[])
  }

  /** A restart brings back exactly the unexpired tokens that were revoked or cut off,
      if these were kept in memory. */
  lemma RestartBringsBack(s: State, c: Claims)
    requires Inv(s) && c in s.issued
    ensures Accepts(s, c) ==> Accepts(Restarted(s), c)
    ensures !Accepts(s, c) && Accepts(Restarted(s), c) <==>
              && s.mode == InMemory && s.now < c.exp
              && (c.id in s.everRevoked || (c.userId in s.lastKill && c.userId != 0 && c.iat < s.lastKill[c.userId]))
  {
    ForgettingIsSafe(s, c);
  }

  lemma SameSecond(t: int, d: nat)
    requires t % SECOND == 0 && d < SECOND
    ensures Truncated(t + d) == t
  {}
}
