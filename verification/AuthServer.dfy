/** The auth server with its stores updated in place (platform/auth/redisstore.go,
    token.go, main.go, users.go, tenants.go, account.go). Each handler does what the
    corresponding step of the token model says. */
module AuthServer {
  import opened Prelude
  import opened Tokens

  /** An access and a refresh token of the user, with the next two ids. */
  predicate IsPair(nextId: nat, user: int, pair: (Claims, Claims)) {
    && pair.0.tokenType == Access && pair.1.tokenType == RefreshToken
    && pair.0.userId == pair.1.userId == user && pair.0.id == nextId && pair.1.id == nextId + 1
  }

  class Server {
    const mode: Mode
    var users: map<int, User>
    var tenants: map<int, int>
    var nextId: nat
    var revoked: map<nat, int>
    var kills: map<int, Kill>
    ghost var issued: set<Claims>
    ghost var issuedAt: map<nat, int>
    ghost var everRevoked: set<nat>
    ghost var lastKill: map<int, int>
    ghost var torn: map<int, int>

    /** The server as a model state at time `t`. */
    ghost function View(t: int): State
      reads this
    {
      State(mode, t, users, issued, nextId, revoked, kills, issuedAt, everRevoked, lastKill, torn)
    }

    constructor (mode: Mode, users: map<int, User>, tenants: map<int, int>)
      ensures this.tenants == tenants
      ensures forall t :: View(t) == State(mode, t, users, {}, 0, map[], map[], map[], {}, map[], map[])
    {
      this.tenants := tenants;
      this.mode, this.users, nextId, revoked, kills := mode, users, 0, map[], map[];
      issued, issuedAt, everRevoked, lastKill, torn := {}, map[], {}, map[], map[];
    }

    method Revoke(c: Claims, t: int)
      modifies this`revoked, this`everRevoked
      ensures View(t) == Tokens.Revoke(old(View(t)), c)
    {
      everRevoked := everRevoked + {c.id};
      var ttl := c.exp - t;
      if ttl <= 0 {
        return;
      }
      revoked := revoked[c.id := c.exp];
    }

    method RevokeUserTokens(user: int, t: int)
      modifies this`kills, this`lastKill
      ensures View(t) == Tokens.RevokeUserTokens(old(View(t)), user)
    {
      lastKill := lastKill[user := t];
      if mode == Redis {
        kills := kills[user := Kill(Truncated(t), Some(t + REFRESH_TTL))];
        return;
      }
      kills := kills[user := Kill(t, None)];
    }

    /** The decision of parse: `genuine` says whether the signature verifies,
        which only tokens issued here do. */
    method Parse(c: Claims, genuine: bool, t: int) returns (ok: bool)
      requires genuine <==> c in issued
      ensures ok <==> Accepts(View(t), c)
    {
      if !genuine || t >= c.exp {
        return false;
      }
      if c.id in revoked && (mode == InMemory || t < revoked[c.id]) {
        return false;
      }
      if c.userId != 0 && c.userId in kills {
        var kill := kills[c.userId];
        if !(kill.until.Some? && kill.until.value <= t) && c.iat < kill.cutoff {
          return false;
        }
      }
      ok := true;
    }

    /** One tick of the janitor: entries whose token has expired are dropped. */
    method JanitorTick(t: int)
      modifies this`revoked
      ensures View(t) == Handle(old(View(t)), Janitor)
    {
      if mode == Redis {
        return;
      }
      var todo := revoked.Keys;
      while todo != {}
        invariant todo <= old(revoked).Keys
        invariant revoked == map id | id in old(revoked) && (id in todo || !(t > old(revoked)[id])) :: old(revoked)[id]
      {
        var id :| id in todo;
        if t > revoked[id] {
          revoked := revoked - {id};
        }
        todo := todo - {id};
      }
    }

    method IssuePair(user: int, t: int) returns (access: Claims, refresh: Claims)
      requires user in users
      modifies this`nextId, this`issued, this`issuedAt
      ensures View(t) == Tokens.IssuePair(old(View(t)), user)
      ensures IsPair(old(nextId), user, (access, refresh)) && {access, refresh} <= issued
    {
      var u := users[user];
      access := Claims(nextId, Access, user, u.role, u.tenant, Truncated(t), Truncated(t + ACCESS_TTL));
      refresh := Claims(nextId + 1, RefreshToken, user, u.role, u.tenant, Truncated(t), Truncated(t + REFRESH_TTL));
      issued := issued + {access} + {refresh};
      issuedAt := issuedAt[access.id := t][refresh.id := t];
      nextId := nextId + 2;
    }

    method HandleLogin(user: int, credentialsOk: bool, t: int) returns (pair: Option<(Claims, Claims)>)
      modifies this
      ensures View(t) == Handle(old(View(t)), Login(user, credentialsOk))
      ensures pair.Some? <==> credentialsOk && user in users && users[user].status == 1
      ensures pair.Some? ==> IsPair(old(nextId), user, pair.value) && {pair.value.0, pair.value.1} <= issued
    {
      if user !in users || users[user].status != 1 || !credentialsOk {
        return None;
      }
      var a, r := IssuePair(user, t);
      pair := Some((a, r));
    }

    /** The old refresh token is revoked before the new pair is issued. */
    method HandleRefresh(c: Claims, genuine: bool, t: int) returns (pair: Option<(Claims, Claims)>)
      requires genuine <==> c in issued
      modifies this
      ensures View(t) == Handle(old(View(t)), Refresh(c))
      ensures pair.Some? <==> RefreshSucceeds(old(View(t)), c)
      ensures pair.Some? ==> IsPair(old(nextId), c.userId, pair.value) && {pair.value.0, pair.value.1} <= issued
    {
      var ok := Parse(c, genuine, t);
      if !ok || c.tokenType != RefreshToken {
        return None;
      }
      if c.userId !in users || users[c.userId].status != 1 {
        return None;
      }
      Revoke(c, t);
      var a, r := IssuePair(c.userId, t);
      pair := Some((a, r));
    }

    method HandleLogout(c: Claims, genuine: bool, other: Option<Claims>, otherGenuine: bool, t: int)
      requires genuine <==> c in issued
      requires other.Some? ==> (otherGenuine <==> other.value in issued)
      modifies this`revoked, this`everRevoked
      ensures View(t) == Handle(old(View(t)), Logout(c, other))
      ensures Accepts(old(View(t)), c) && c.tokenType == Access ==> !Accepts(View(t), c)
      ensures Accepts(old(View(t)), c) && c.tokenType == Access && other.Some? && other.value.userId == c.userId ==>
                !Accepts(View(t), other.value)
      ensures forall d: Claims :: d.id != c.id && (other == None || d.id != other.value.id) ==>
                (Accepts(View(t), d) <==> Accepts(old(View(t)), d))
    {
      var ok := Parse(c, genuine, t);
      if !ok || c.tokenType != Access {
        return;
      }
      Revoke(c, t);
      if other.Some? {
        var ok2 := Parse(other.value, otherGenuine, t);
        if ok2 && other.value.userId == c.userId {
          Revoke(other.value, t);
        }
      }
    }

    /** `id` is what the database assigns: unused, or none when the name is taken. */
    method HandleUsersCreate(actor: Claims, genuine: bool, id: Option<int>, role: string, t: int)
        returns (created: bool)
      requires genuine <==> actor in issued
      requires id.Some? ==> id.value > 0 && id.value !in users
      modifies this`users
      ensures id.None? ==> View(t) == old(View(t))
      ensures id.Some? ==> View(t) == Handle(old(View(t)), CreateUser(actor, id.value, role))
      ensures created <==> id.Some? && IsAdminActor(old(View(t)), actor)
    {
      var ok := Parse(actor, genuine, t);
      if !ok || actor.tokenType != Access || actor.role != "admin" || id.None? {
        return false;
      }
      users := users[id.value := User(if role == "admin" then "admin" else "user", 1, 0)];
      created := true;
    }

    method HandleUsersReset(actor: Claims, genuine: bool, id: int, t: int) returns (reset: bool)
      requires genuine <==> actor in issued
      modifies this`kills, this`lastKill
      ensures View(t) == Handle(old(View(t)), ResetPassword(actor, id))
      ensures reset <==> IsAdminActor(old(View(t)), actor) && id in users
    {
      var ok := Parse(actor, genuine, t);
      if !ok || actor.tokenType != Access || actor.role != "admin" || id !in users {
        return false;
      }
      RevokeUserTokens(id, t);
      reset := true;
    }

    /** Only the token at hand is revoked. */
    method HandleChangePassword(c: Claims, genuine: bool, passwordOk: bool, t: int) returns (changed: bool)
      requires genuine <==> c in issued
      modifies this`revoked, this`everRevoked
      ensures View(t) == Handle(old(View(t)), ChangePassword(c, passwordOk))
      ensures changed ==> passwordOk && Accepts(old(View(t)), c) && !Accepts(View(t), c)
      ensures forall d: Claims :: d.id != c.id ==> (Accepts(View(t), d) <==> Accepts(old(View(t)), d))
    {
      var ok := Parse(c, genuine, t);
      if !ok || c.tokenType != Access || c.userId !in users || !passwordOk {
        return false;
      }
      Revoke(c, t);
      changed := true;
    }

    /** `id` is what the database assigns, or none when the request is refused or the
        name is taken; the new user may fail to be read back. */
    method HandleRegister(id: Option<int>, loaded: bool, t: int) returns (pair: Option<(Claims, Claims)>)
      requires id.Some? ==> id.value > 0 && id.value !in users
      modifies this`users, this`nextId, this`issued, this`issuedAt
      ensures id.None? ==> View(t) == old(View(t))
      ensures id.Some? ==> View(t) == Handle(old(View(t)), Register(id.value, loaded))
      ensures pair.Some? <==> id.Some? && loaded
      ensures pair.Some? ==> IsPair(old(nextId), id.value, pair.value) && {pair.value.0, pair.value.1} <= issued
    {
      if id.None? {
        return None;
      }
      users := users[id.value := User("user", 1, 0)];
      if !loaded {
        return None;
      }
      var a, r := IssuePair(id.value, t);
      pair := Some((a, r));
    }

    /** `allowed` says whether the calling service may do this. */
    method HandleSetPassword(service: Claims, genuine: bool, allowed: bool, id: int, t: int) returns (changed: bool)
      requires genuine <==> service in issued
      modifies this`kills, this`lastKill
      ensures View(t) == Handle(old(View(t)), SetPassword(service, allowed, id))
      ensures changed <==> Accepts(old(View(t)), service) && service.tokenType == Service && allowed && id in users
    {
      var ok := Parse(service, genuine, t);
      if !ok || service.tokenType != Service || !allowed || id !in users {
        return false;
      }
      RevokeUserTokens(id, t);
      changed := true;
    }

    method CountActiveAdmins() returns (n: nat)
      ensures n == |ActiveAdmins(users)|
    {
      n := |set u | u in users && users[u].role == "admin" && users[u].status == 1|;
    }

    /** May this actor make this change, if no statement fails? */
    method CheckUpdate(actor: Claims, genuine: bool, id: int, role: Option<string>, status: Option<int>,
        countFails: bool, t: int)
        returns (outcome: Outcome)
      requires genuine <==> actor in issued
      ensures outcome == UpdateOutcome(View(t), actor, id, role, status, if countFails then CountFails else NoFault)
    {
      var ok := Parse(actor, genuine, t);
      if !ok || actor.tokenType != Access || actor.role != "admin" {
        return Denied;
      }
      if id !in users {
        return Missing;
      }
      var cur := users[id];
      var demoting := role.Some? && role.value != "admin" && cur.role == "admin";
      var disabling := status.Some? && status.value != 1 && cur.status == 1;
      if (demoting || disabling) && id == actor.userId {
        return SelfLock;
      }
      if (demoting || disabling) && cur.role == "admin" {
        var admins := 0;
        if !countFails {
          admins := CountActiveAdmins();
        }
        if admins <= 1 {
          return LastAdmin;
        }
      }
      outcome := Done;
    }

    method HandleUsersUpdate(actor: Claims, genuine: bool, id: int, role: Option<string>, status: Option<int>,
        tenant: Option<int>, fault: Fault, t: int)
        returns (outcome: Outcome)
      requires genuine <==> actor in issued
      modifies this`users, this`kills, this`lastKill, this`torn
      ensures View(t) == Handle(old(View(t)), UpdateUser(actor, id, role, status, tenant, fault))
      ensures outcome == UpdateOutcome(old(View(t)), actor, id, role, status, fault)
    {
      outcome := CheckUpdate(actor, genuine, id, role, status, fault == CountFails, t);
      if outcome == Done {
        var ok := ApplyUpdate(id, role, status, tenant, fault, t);
        if !ok {
          return Failed;
        }
      }
    }

    /** Writes the row in two statements and cuts the user's tokens off when the role or
        the tenant may have changed or the user is not active. An error of either
        statement ends it there, whether or not the statement took effect. */
    method ApplyUpdate(id: int, role: Option<string>, status: Option<int>, tenant: Option<int>, fault: Fault, t: int)
        returns (ok: bool)
      requires id in users
      modifies this`users, this`kills, this`lastKill, this`torn
      ensures ok <==> fault == NoFault || fault == CountFails
      ensures View(t) == if ok then DoUpdate(old(View(t)), id, role, status, tenant)
        else TornUpdate(old(View(t)), id, role, status, tenant, fault)
    {
      if fault == NothingWritten {
        return false;
      }
      var cur := users[id];
      var changed := UpdatedUser(cur, role, status, None);
      WriteRole(id, role, status);
      if fault == RoleWritten || (fault == BothWritten && tenant.None?) {
        torn := if Outdates(cur, changed) then torn[id := t] else torn;
        return false;
      }
      if tenant.Some? {
        changed := changed.(tenant := tenant.value);
        users := users[id := users[id].(tenant := tenant.value)];
        if fault == BothWritten {
          torn := if Outdates(cur, changed) then torn[id := t] else torn;
          assert users == old(users)[id := changed];
          return false;
        }
        RevokeUserTokens(id, t);
      }
      ghost var updated := old(View(t)).(users := old(users)[id := changed]);
      assert users == updated.users;
      assert View(t) == if tenant.Some? then Tokens.RevokeUserTokens(updated, id) else updated;
      CutoffTwice(updated, id);
      if changed.status != 1 || changed.role != cur.role {
        RevokeUserTokens(id, t);
      }
      ok := true;
    }

    method WriteRole(id: int, role: Option<string>, status: Option<int>)
      requires id in users
      modifies this`users
      ensures users == old(users)[id := UpdatedUser(old(users)[id], role, status, None)]
    {
      var newRole := "user";
      if role.None? {
        newRole := users[id].role;
      } else if role.value == "admin" {
        newRole := "admin";
      }
      var newStatus := if status.Some? then status.value else users[id].status;
      users := users[id := User(newRole, newStatus, users[id].tenant)];
    }

    /** Sets the tenant's status and, unless that is the active one, cuts off each of
        its users in turn. The rows of the users may fail to be read, all or some, and
        the request succeeds all the same: `reached` are those that can be. */
    method HandleTenantsUpdate(actor: Claims, genuine: bool, tenant: int, status: Option<int>, reached: set<int>,
        t: int)
        returns (outcome: Outcome)
      requires genuine <==> actor in issued
      requires kills.Keys == lastKill.Keys
      modifies this`tenants, this`kills, this`lastKill
      ensures outcome == if !IsAdminActor(old(View(t)), actor) then Denied else if tenant !in old(tenants) then Missing
        else Done
      ensures var newStatus := if status.Some? then status.value
        else if tenant in old(tenants) then old(tenants)[tenant] else 0;
              && tenants == (if outcome == Done then old(tenants)[tenant := newStatus] else old(tenants))
              && View(t) == if outcome == Done && newStatus != 1
                then Handle(old(View(t)), StopTenant(actor, tenant, reached)) else old(View(t))
    {
      var ok := Parse(actor, genuine, t);
      if !ok || actor.tokenType != Access || actor.role != "admin" {
        return Denied;
      }
      if tenant !in tenants {
        return Missing;
      }
      var newStatus := tenants[tenant];
      if status.Some? {
        newStatus := status.value;
      }
      tenants := tenants[tenant := newStatus];
      if newStatus != 1 {
        CutOffTenant(tenant, reached, t);
      }
      outcome := Done;
    }

    method CutOffTenant(tenant: int, reached: set<int>, t: int)
      requires kills.Keys == lastKill.Keys
      modifies this`kills, this`lastKill
      ensures View(t) == RevokeAll(old(View(t)), reached * Members(users, tenant))
    {
      var members := set u | u in users && users[u].tenant == tenant && u in reached;
      assert members == reached * Members(users, tenant);
      var todo := members;
      RevokeNoneIsNothing(View(t));
      assert members - todo == {};
      while todo != {}
        invariant todo <= members
        invariant View(t) == RevokeAll(old(View(t)), members - todo)
      {
        ghost var some := Pick(todo);
        var u :| u in todo;
        RevokeUserTokens(u, t);
        OneMoreRevoked(old(View(t)), members - todo, u);
        assert members - (todo - {u}) == members - todo + {u};
        todo := todo - {u};
      }
      assert members - todo == members;
    }
  }

  lemma CutoffTwice(s: State, u: int)
    ensures Tokens.RevokeUserTokens(Tokens.RevokeUserTokens(s, u), u) == Tokens.RevokeUserTokens(s, u)
  {}

  lemma OneMoreRevoked(s: State, users: set<int>, u: int)
    requires s.kills.Keys == s.lastKill.Keys
    ensures Tokens.RevokeUserTokens(RevokeAll(s, users), u) == RevokeAll(s, users + {u})
  {
    var a, b := Tokens.RevokeUserTokens(RevokeAll(s, users), u), RevokeAll(s, users + {u});
    assert a.kills == b.kills;
    assert a.lastKill == b.lastKill;
  }
}
