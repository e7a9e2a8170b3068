/**
  The store's methods, statement by statement. A transaction works on a copy `tx` of the tables and
  commits by assigning it; returning before that is the rollback. Generated ids, hashes, timestamps
  and the row order of queries are parameters.
 */
module Store {
  import opened Wrappers
  import opened Records
  import opened Database
  import opened StoreRuns
  import opened Meanings
  import opened PolicyMeanings
  import Timestamps

  /** The roles that one entry of a role list refers to: SELECT id FROM roles WHERE id=? OR name=?. */
  function Picked(roles: map<string, RoleRow>, name: string): set<string> {
    set id | id in roles && Selects(id, roles[id], name)
  }

  lemma SelectionExtend(roles: map<string, RoleRow>, names: seq<string>, i: nat)
    requires i < |names|
    ensures Selection(roles, names[..i + 1]) == Selection(roles, names[..i]) + Picked(roles, names[i])
  {
    forall id | id in roles
      ensures id in Selection(roles, names[..i + 1])
              <==> id in Selection(roles, names[..i]) || id in Picked(roles, names[i])
    {
      if id in Selection(roles, names[..i]) {
        var j :| 0 <= j < i && Selects(id, roles[id], names[..i][j]);
        assert names[..i + 1][j] == names[..i][j];
      }
      if id in Picked(roles, names[i]) { assert names[..i + 1][i] == names[i]; }
      if id in Selection(roles, names[..i + 1]) {
        var j :| 0 <= j < i + 1 && Selects(id, roles[id], names[..i + 1][j]);
        if j < i { assert names[..i][j] == names[..i + 1][j]; }
      }
    }
  }

  /** What the INSERT for entry `i` needs, given that the entries before it went in. */
  ghost predicate CanPick(db: Db, user: string, names: seq<string>, i: nat)
    requires i < |names|
  {
    && user in db.users && Picked(db.roles, names[i]) != {}
    && forall id :: id in Picked(db.roles, names[i]) ==>
         (user, id) !in db.userRoles && id !in Selection(db.roles, names[..i])
  }

  lemma CanAssignExtend(db: Db, user: string, names: seq<string>, i: nat)
    requires i < |names| && CanAssign(db, user, names[..i]) && CanPick(db, user, names, i)
    ensures CanAssign(db, user, names[..i + 1])
  {
    SelectionExtend(db.roles, names, i);
    var m := names[..i + 1];
    forall k | 0 <= k < |m| ensures Known(db.roles, m[k]) {
      if k < i {
        assert m[k] == names[..i][k];
      } else {
        var id :| id in Picked(db.roles, names[i]);
        assert Selects(id, db.roles[id], m[k]);
      }
    }
    forall k, l | 0 <= k < l < |m| ensures !Clash(db.roles, m[k], m[l]) {
      assert m[k] == names[..i][k];
      if l < i {
        assert m[l] == names[..i][l];
      } else {
        forall id | id in db.roles ensures !(Selects(id, db.roles[id], m[k]) && Selects(id, db.roles[id], m[l])) {
          assert Selects(id, db.roles[id], names[..i][k]) ==> id in Selection(db.roles, names[..i]);
          assert Selects(id, db.roles[id], m[l]) ==> id in Picked(db.roles, names[i]);
        }
      }
    }
  }

  /** An entry that cannot be inserted makes the whole list fail. */
  lemma CannotPick(db: Db, user: string, names: seq<string>, i: nat)
    requires i < |names| && CanAssign(db, user, names)
    ensures CanPick(db, user, names, i)
  {
    assert Known(db.roles, names[i]);
    var picked :| picked in db.roles && Selects(picked, db.roles[picked], names[i]);
    assert picked in Picked(db.roles, names[i]);
    forall id | id in Picked(db.roles, names[i])
      ensures (user, id) !in db.userRoles && id !in Selection(db.roles, names[..i])
    {
      assert Selects(id, db.roles[id], names[i]);
      assert id in Selection(db.roles, names);
      forall j | 0 <= j < i ensures !Selects(id, db.roles[id], names[..i][j]) {
        assert names[..i][j] == names[j] && !Clash(db.roles, names[j], names[i]);
      }
    }
  }

  ghost function Pairs(user: string, ids: set<string>): set<(string, string)> {
    set id | id in ids :: (user, id)
  }

  lemma PairsExtend(user: string, a: set<string>, b: set<string>)
    ensures Pairs(user, a + b) == Pairs(user, a) + Pairs(user, b)
  {
  }

  /** The loop of INSERT ... SELECT statements in CreateUser and UpdateUser. */
  method AssignRoles(tx: Db, user: string, names: seq<string>) returns (r: Option<Db>)
    ensures r == if CanAssign(tx, user, names) then Some(Assigned(tx, user, names)) else None
  {
    hide CanAssign;
    var userRoles := tx.userRoles;
    assert Selection(tx.roles, names[..0]) == {};
    NothingToAssign(tx, user, names);
    for i := 0 to |names|
      invariant userRoles == tx.userRoles + Pairs(user, Selection(tx.roles, names[..i]))
      invariant CanAssign(tx, user, names[..i])
    {
      var picked := Picked(tx.roles, names[i]);
      if user !in tx.users || picked == {} || (exists id :: id in picked && (user, id) in userRoles) {
        if CanAssign(tx, user, names) { CannotPick(tx, user, names, i); }
        return None;
      }
      CanAssignExtend(tx, user, names, i);
      SelectionExtend(tx.roles, names, i);
      PairsExtend(user, Selection(tx.roles, names[..i]), picked);
      userRoles := userRoles + set id | id in picked :: (user, id);
    }
    assert names[..|names|] == names;
    r := Some(tx.(userRoles := userRoles));
  }

  lemma NothingToAssign(db: Db, user: string, names: seq<string>)
    ensures CanAssign(db, user, names[..0])
  {
  }

  lemma OneUserNamed(db: Db, username: string, id: string)
    requires Valid(db) && IsUserNamed(db, username, id)
    ensures forall j :: IsUserNamed(db, username, j) ==> j == id
  {
    forall j | IsUserNamed(db, username, j) ensures j == id {
      assert NoCase(db.users[j].username, db.users[id].username);
    }
  }

  class Store {
    var db: Db

    /** Open on a new file: empty tables, then seeding. */
    constructor ()
      ensures db == EMPTY_DB
    {
      db := EMPTY_DB;
    }

    /** Permissions are upserted, roles and their permissions inserted unless present. */
    method Seed(catalog: seq<string>, seeds: seq<SeedRole>) returns (ok: bool)
      modifies this
      ensures var after := AfterSeed(old(db), catalog, seeds);
              ok == after.Some? && db == if ok then after.value else old(db)
      ensures Valid(old(db)) ==> Valid(db)
    {
      var tx := db;
      for i := 0 to |catalog|
        invariant db == old(db) && tx == db.(permissions := db.permissions + set p | p in catalog[..i])
      {
        assert catalog[..i + 1] == catalog[..i] + [catalog[i]];
        tx := tx.(permissions := tx.permissions + {catalog[i]});
      }
      assert catalog[..|catalog|] == catalog;
      ghost var base := tx;
      for i := 0 to |seeds|
        invariant db == old(db) && SeedAll(base, seeds[..i]) == Some(tx)
      {
        assert seeds[..i + 1][..i] == seeds[..i];
        var r := SeedRoleStep(tx, seeds[i]);
        if r.None? {
          SeedAllFails(base, seeds, i + 1);
          return false;
        }
        tx := r.value;
      }
      assert seeds[..|seeds|] == seeds;
      db := tx;
      if Valid(old(db)) { SeedKeepsValid(old(db), catalog, seeds); }
      ok := true;
    }

    static method SeedRoleStep(tx: Db, s: SeedRole) returns (r: Option<Db>)
      ensures r == SeedOne(tx, s)
      ensures r.None? <==> SeedRefused(tx, s)
      ensures r.Some? ==> RoleSeeded(tx, s, r.value)
    {
      SeedOneMeans(tx, s);
      hide SeedRefused, RoleSeeded;
      var roles := tx.roles;
      if s.id !in roles && !NameTaken(roles, s.name, s.id) {
        roles := roles[s.id := RoleRow(s.name, s.description, true)];
      }
      var pairs := tx.rolePermissions;
      for i := 0 to |s.permissions|
        invariant pairs == tx.rolePermissions + set p | p in s.permissions[..i] :: (s.id, p)
        invariant i > 0 ==> s.id in roles
        invariant forall p :: p in s.permissions[..i] ==> p in tx.permissions
      {
        assert s.permissions[..i + 1] == s.permissions[..i] + [s.permissions[i]];
        if s.id !in roles || s.permissions[i] !in tx.permissions {
          return None;
        }
        pairs := pairs + {(s.id, s.permissions[i])};
      }
      assert s.permissions[..|s.permissions|] == s.permissions;
      r := Some(tx.(roles := roles, rolePermissions := pairs));
    }

    method CreateUser(id: string, username: string, hash: Option<string>, names: seq<string>, enabled: bool)
      returns (ok: bool)
      modifies this
      ensures var after := AfterCreateUser(old(db), id, username, hash, names, enabled);
              ok == after.Some? && db == if ok then after.value else old(db)
      ensures UserCreated(old(db), id, username, hash, names, enabled, if ok then Some(db) else None)
      ensures Valid(old(db)) ==> Valid(db)
    {
      CreateUserMeans(db, id, username, hash, names, enabled);
      hide UserCreated;
      if !ValidUsername(username) || hash.None? {
        return false;
      }
      var tx := db;
      if id in tx.users || UsernameTaken(tx.users, username) {
        return false;
      }
      tx := tx.(users := tx.users[id := UserRow(username, hash.value, enabled)]);
      var r := AssignRoles(tx, id, names);
      if r.None? {
        return false;
      }
      db := r.value;
      if Valid(old(db)) { CreateUserKeepsValid(old(db), id, username, hash, names, enabled); }
      ok := true;
    }

    /** The first user, and the only administrator. */
    method BootstrapAdmin(id: string, username: string, hash: Option<string>) returns (ok: bool)
      modifies this
      ensures var after := AfterBootstrap(old(db), id, username, hash);
              ok == after.Some? && db == if ok then after.value else old(db)
      ensures Bootstrapped(old(db), id, username, hash, if ok then Some(db) else None)
      ensures ok ==> forall u :: IsAdmin(db, u) <==> u == id
      ensures Valid(old(db)) ==> Valid(db) && (ok <==> IsUsername(username) && hash.Some? && old(db).users == map[])
    {
      BootstrapMeans(db, id, username, hash);
      UsernameMeans(username);
      if !ValidUsername(username) || hash.None? {
        return false;
      }
      var tx := db;
      if tx.users != map[] {
        return false;
      }
      tx := tx.(users := tx.users[id := UserRow(username, hash.value, true)]);
      if ADMIN_ID !in tx.roles || (id, ADMIN_ID) in tx.userRoles {
        return false;
      }
      db := tx.(userRoles := tx.userRoles + {(id, ADMIN_ID)});
      if Valid(old(db)) { BootstrapKeepsValid(old(db), id, username, hash); }
      ok := true;
    }

    /** The guard counts, then row, password with its sessions, and roles are rewritten in one transaction. */
    method UpdateUser(id: string, enable: Option<bool>, names: Option<seq<string>>, password: Option<Option<string>>)
      returns (out: Outcome)
      modifies this
      ensures out == AfterUpdateUser(old(db), id, enable, names, password)
      ensures db == if out.Done? then out.db else old(db)
      ensures out.LastAdmin? <==> WouldLoseLast(old(db), id, enable, names)
      ensures out.Done? <==> !WouldLoseLast(old(db), id, enable, names) && (password.Some? ==> password.value.Some?)
                             && ListAccepted(old(db), id, names)
      ensures out.Done? ==> UserUpdated(old(db), id, enable, names, password, db)
      ensures Valid(old(db)) ==> Valid(db)
      ensures Valid(old(db)) && HasAdmin(old(db)) ==> HasAdmin(db)
    {
      UpdateUserMeans(db, id, enable, names, password);
      hide WouldLoseLast, ListAccepted, UserUpdated;
      var tx := db;
      var isEnabledAdmin := id in tx.users && tx.users[id].enabled && (id, ADMIN_ID) in tx.userRoles;
      var keepsAdmin := ScanForAdmin(names);
      if isEnabledAdmin && (enable == Some(false) || !keepsAdmin) {
        var count := |EnabledAdmins(tx)|;
        if count <= 1 {
          return LastAdmin;
        }
      }
      if enable.Some? {
        tx := tx.(users := SetEnabled(tx.users, id, enable));
      }
      if password.Some? {
        if password.value.None? {
          return Failed;
        }
        tx := tx.(users := SetHash(tx.users, id, password.value.value));
        tx := tx.(sessions := RevokeAllOf(tx.sessions, id));
      }
      if names.Some? {
        tx := tx.(userRoles := WithoutUser(tx.userRoles, id));
        var r := AssignRoles(tx, id, names.value);
        if r.None? {
          return Failed;
        }
        tx := r.value;
      }
      db := tx;
      out := Done(tx);
      UpdateKeeps(old(db), id, enable, names, password);
    }

    static method ScanForAdmin(names: Option<seq<string>>) returns (keeps: bool)
      ensures keeps <==> KeepsAdmin(names)
      ensures keeps <==> NamesTheAdmin(names)
    {
      KeepsAdminMeans(names);
      hide NamesTheAdmin;
      keeps := names.None?;
      if names.Some? {
        for i := 0 to |names.value|
          invariant keeps <==> exists j :: 0 <= j < i && NamesAdmin(names.value[j])
        {
          if names.value[i] == ADMIN_ID || NoCase(names.value[i], ADMIN_NAME) {
            keeps := true;
          }
        }
      }
    }

    /** Looks the user up by name without regard to case; gives the id of the recovered user. */
    method RecoverPassword(username: string, hash: Option<string>, auditId: string, timestamp: string)
      returns (r: Option<string>)
      modifies this
      ensures r.Some? ==>
                IsUserNamed(old(db), username, r.value)
                && AfterRecover(old(db), r, hash, auditId, timestamp) == Some(db)
      ensures r.None? ==> db == old(db)
      ensures r.Some? ==>
                && r.value in old(db).users && SameText(old(db).users[r.value].username, username)
                && old(db).users[r.value].enabled && hash.Some?
                && Recovered(old(db), r.value, hash.value, auditId, timestamp, db)
      ensures r.None? && Valid(db) && hash.Some? && auditId !in db.audit ==>
                forall u :: u in db.users && SameText(db.users[u].username, username) ==> !db.users[u].enabled
      ensures Valid(old(db)) ==> Valid(db)
      ensures r.None? && Valid(db) ==> forall id :: IsUserNamed(db, username, id) ==>
                AfterRecover(db, Some(id), hash, auditId, timestamp).None?
    {
      RecoverAnyMeans(db, username, hash, auditId, timestamp);
      hide Recovered, SameText;
      if hash.None? || !(exists id :: id in db.users && IsUserNamed(db, username, id)) {
        return None;
      }
      var tx := db;
      var id :| id in tx.users && IsUserNamed(tx, username, id);
      if !tx.users[id].enabled {
        if Valid(db) { OneUserNamed(db, username, id); }
        return None;
      }
      tx := tx.(users := SetHash(tx.users, id, hash.value));
      tx := tx.(sessions := RevokeAllOf(tx.sessions, id));
      if auditId in tx.audit {
        return None;
      }
      db := tx.(audit := tx.audit[auditId := timestamp]);
      r := Some(id);
      if Valid(old(db)) { RecoverKeepsValid(old(db), r, hash, auditId, timestamp); }
    }

    method ActiveAdminCount() returns (n: nat)
      ensures n == |ActiveAdmins(db)|
      ensures Valid(db) ==> n == |EnabledAdmins(db)|
      ensures exists s: set<string> :: n == |s| && forall u :: u in s <==> HoldsARoleNamedAdmin(db, u)
    {
      ActiveAdminsMean(db);
      var s := set u | u in db.users && db.users[u].enabled &&
                       exists r :: r in db.roles && (u, r) in db.userRoles && NoCase(db.roles[r].name, ADMIN_NAME);
      assert s == ActiveAdmins(db);
      if Valid(db) { AdminCountsAgree(db); }
      n := |s|;
    }

    /**
      A bare check, a bare write and then a transaction for the permissions: a failure in the last
      part leaves the new name in place.
     */
    method SaveRole(id: string, name: string, description: string, granted: seq<string>, generated: string)
      returns (ok: bool)
      modifies this
      ensures !RoleAccepted(old(db), id, generated, name) ==> !ok && db == old(db)
      ensures RoleAccepted(old(db), id, generated, name) ==>
                exists db1 :: RoleWritten(old(db), id, generated, name, description, db1)
                              && PermissionsOutcome(db1, if id == "" then generated else id, granted, ok, db)
      ensures Valid(old(db)) ==> Valid(db)
      ensures Valid(old(db)) && HasAdmin(old(db)) ==> HasAdmin(db)
    {
      FirstWriteMeans(db, id, generated, name, description);
      hide RoleAccepted, RoleWritten, PermissionsOutcome;
      if Blank(name) || |name| > 64 {
        return false;
      }
      var rid := id;
      if id == [] {
        rid := generated;
        if rid in db.roles || NameTaken(db.roles, name, rid) {
          return false;
        }
        db := db.(roles := db.roles[rid := RoleRow(name, Truncate(description, 500), false)]);
        RoleStepKeeps(old(db), {}, InsertRole(rid, name, description));
      } else {
        if id !in db.roles || (db.roles[id].builtin && db.roles[id].name != name) {
          return false;
        }
        if NameTaken(db.roles, name, id) {
          return false;
        }
        db := db.(roles := db.roles[id := db.roles[id].(name := name, description := Truncate(description, 500))]);
        RoleStepKeeps(old(db), {(id, name)}, WriteRole(id, name, description));
      }
      ok := SetPermissions(rid, granted);
    }

    method SetPermissions(id: string, granted: seq<string>) returns (ok: bool)
      modifies this
      ensures var after := AfterSetPermissions(old(db), id, granted);
              ok == after.Some? && db == if ok then after.value else old(db)
      ensures PermissionsOutcome(old(db), id, granted, ok, db)
      ensures Valid(old(db)) ==> Valid(db)
      ensures Valid(old(db)) && HasAdmin(old(db)) ==> HasAdmin(db)
    {
      SetPermissionsMeans(db, id, granted);
      hide PermissionsAccepted, PermissionsSet;
      var base := WithoutRole(db.rolePermissions, id);
      var pairs := base;
      for i := 0 to |granted|
        invariant db == old(db)
        invariant pairs == base + set p | p in granted[..i] :: (id, p)
        invariant CanGrant(db, id, granted[..i])
      {
        if id !in db.roles || granted[i] !in db.permissions || (id, granted[i]) in pairs {
          assert !CanGrant(db, id, granted);
          return false;
        }
        assert granted[..i + 1] == granted[..i] + [granted[i]];
        pairs := pairs + {(id, granted[i])};
      }
      assert granted[..|granted|] == granted;
      db := db.(rolePermissions := pairs);
      RoleStepKeeps(old(db), {}, StoreRuns.SetPermissions(id, granted));
      ok := true;
    }

    /** Deleting the role cascades to its permissions, its holders and the rules that name it. */
    method DeleteRole(id: string) returns (ok: bool)
      modifies this
      ensures ok <==> id in old(db).roles && !old(db).roles[id].builtin
      ensures !ok ==> db == old(db)
      ensures ok ==> AfterDeleteRole(old(db), id) == Some(db) && Gone(db, id) && OthersKept(old(db), db, id)
      ensures Valid(old(db)) ==> Valid(db)
      ensures Valid(old(db)) && HasAdmin(old(db)) ==> HasAdmin(db)
    {
      if id !in db.roles || db.roles[id].builtin {
        return false;
      }
      db := db.(roles := db.roles - {id});
      db := db.(rolePermissions := WithoutRole(db.rolePermissions, id));
      db := db.(userRoles := WithoutHolders(db.userRoles, id));
      db := db.(rules := RulesNotNaming(db.rules, id));
      RoleStepKeeps(old(db), {}, StoreRuns.DeleteRole(id));
      DeletedIsGone(old(db), id);
      ok := true;
    }

    /** The new token answers until its expiry while the user is enabled; no other token is affected. */
    method CreateSession(tokenHash: string, userId: string, csrfHash: string, expiresAt: string) returns (ok: bool)
      modifies this
      ensures var after := AfterCreateSession(old(db), tokenHash, userId, csrfHash, expiresAt);
              ok == after.Some? && db == if ok then after.value else old(db)
      ensures ok <==> tokenHash !in old(db).sessions && userId in old(db).users
      ensures ok ==> SessionCreated(old(db), tokenHash, userId, csrfHash, expiresAt, db)
      ensures ok ==> forall now ::
                Resolves(db, tokenHash, now) <==> Timestamps.Less(now, expiresAt) && db.users[userId].enabled
      ensures forall h, now :: h != tokenHash ==> Resolves(db, h, now) == Resolves(old(db), h, now)
      ensures Valid(old(db)) ==> Valid(db)
    {
      ok := tokenHash !in db.sessions && userId in db.users;
      if ok {
        db := db.(sessions := db.sessions[tokenHash := SessionRow(userId, csrfHash, expiresAt, false)]);
        if Valid(old(db)) { SessionOpKeeps(old(db), StoreRuns.CreateSession(tokenHash, userId, csrfHash, expiresAt)); }
      }
    }

    /** The token never answers again at any instant; no other token is affected. */
    method RevokeSession(tokenHash: string)
      modifies this
      ensures db == AfterRevoke(old(db), tokenHash)
      ensures SessionsEnded(old(db), {tokenHash}, db)
      ensures forall h, now :: Resolves(db, h, now) <==> h != tokenHash && Resolves(old(db), h, now)
      ensures Valid(old(db)) ==> Valid(db)
    {
      if tokenHash in db.sessions {
        db := db.(sessions := db.sessions[tokenHash := db.sessions[tokenHash].(revoked := true)]);
      }
      if Valid(old(db)) { SessionOpKeeps(old(db), StoreRuns.RevokeSession(tokenHash)); }
    }

    /** No token of the user answers again at any instant; nobody else's token is affected. */
    method RevokeUserSessions(userId: string)
      modifies this
      ensures db == AfterRevokeUser(old(db), userId)
      ensures SessionsEnded(old(db), SessionsOf(old(db), userId), db)
      ensures forall h, now ::
                Resolves(db, h, now) <==> Resolves(old(db), h, now) && old(db).sessions[h].userId != userId
      ensures Valid(old(db)) ==> Valid(db)
    {
      db := db.(sessions := RevokeAllOf(db.sessions, userId));
      if Valid(old(db)) { SessionOpKeeps(old(db), StoreRuns.RevokeUserSessions(userId)); }
    }

    /**
      Three statements, with other callers in between: the session row as of `first`, the account as of
      `second` and the roles as of `third`. The user is returned only while enabled.
     */
    static method ResolveSession(first: Db, second: Db, third: Db, tokenHash: string, now: string, rows: seq<JoinRow>)
      returns (r: Option<User>)
      requires tokenHash in first.sessions ==> IsJoin(third, first.sessions[tokenHash].userId, rows)
      requires UniqueRoleNames(third.roles)
      ensures r.Some? <==> Live(first, tokenHash, now) && var id := first.sessions[tokenHash].userId;
                                                          id in second.users && second.users[id].enabled
      ensures r.Some? ==> r.value.id == first.sessions[tokenHash].userId && r.value.enabled
      ensures r.Some? ==> AccountSeen(second, r.value) && Holds(third, r.value)
      ensures first == second ==> (r.Some? <==> Resolves(first, tokenHash, now))
    {
      if tokenHash !in first.sessions || first.sessions[tokenHash].revoked
         || !Timestamps.Less(now, first.sessions[tokenHash].expiresAt) {
        return None;
      }
      r := ReadUser(second, third, first.sessions[tokenHash].userId, rows);
      if r.None? || !r.value.enabled {
        return None;
      }
    }

    method GetUser(id: string, rows: seq<JoinRow>) returns (r: Option<User>)
      requires IsJoin(db, id, rows) && UniqueRoleNames(db.roles)
      ensures r.None? <==> id !in db.users
      ensures r.Some? ==> Describes(db, id, r.value)
    {
      r := ReadUser(db, db, id, rows);
    }

    /**
      GetUser's two statements; deduplicates the join rows, in whatever order they come, by role name and by
      permission.
     */
    static method ReadUser(account: Db, joined: Db, id: string, rows: seq<JoinRow>) returns (r: Option<User>)
      requires IsJoin(joined, id, rows) && UniqueRoleNames(joined.roles)
      ensures r.None? <==> id !in account.users
      ensures r.Some? ==> r.value.id == id && AccountSeen(account, r.value) && Holds(joined, r.value)
    {
      if id !in account.users {
        return None;
      }
      var roles, roleIds, permissions := Deduplicate(rows);
      r := Some(User(id, account.users[id].username, account.users[id].enabled, roles, roleIds, permissions));
      JoinHolds(joined, r.value, rows);
    }

    /** Upserts the policy, deletes its rules and inserts the submitted ones with their place as priority. */
    method SavePolicy(p: Policy, newId: string, generated: seq<string>) returns (ok: bool)
      requires |generated| == |p.rules|
      modifies this
      ensures var after := AfterSavePolicy(old(db), p, if p.id == [] then newId else p.id, generated);
              ok == after.Some? && db == if ok then after.value else old(db)
      ensures var id := if p.id == "" then newId else p.id;
              && (ok <==> PolicyAccepted(old(db), p, id, generated))
              && (if ok then PolicySaved(old(db), p, id, generated, db) else db == old(db))
      ensures Valid(old(db)) ==> Valid(db)
    {
      SavePolicyMeans(db, p, if p.id == "" then newId else p.id, generated);
      hide PolicyAccepted, PolicySaved;
      if Blank(p.name) || |p.name| > 100 {
        return false;
      }
      var id := if p.id == [] then newId else p.id;
      if PolicyNameTaken(db.policies, p.name, id) {
        return false;
      }
      var policies := db.policies[id := PolicyRow(p.name, Truncate(p.description, 500), p.enabled)];
      var rules := InsertRules(db, p.rules, id, generated);
      if rules.None? {
        return false;
      }
      db := db.(policies := policies, rules := rules.value);
      if Valid(old(db)) { SavePolicyKeepsValid(old(db), p, id, generated); }
      ok := true;
    }

    static method InsertRules(db: Db, rules: seq<PolicyRule>, id: string, generated: seq<string>)
      returns (r: Option<map<string, PolicyRule>>)
      requires |generated| == |rules|
      ensures var s := StoredRules(rules, id, generated);
              r == if CanStore(db, rules, s, id) then Some(RulesOutside(db.rules, id) + ById(s)) else None
    {
      var stored := RulesOutside(db.rules, id);
      ghost var s := StoredRules(rules, id, generated);
      for i := 0 to |rules|
        invariant stored == RulesOutside(db.rules, id) + ById(s[..i])
        invariant forall j :: 0 <= j < i ==> RuleFits(db, rules, s, id, j)
      {
        hide ValidBody, RulesOutside, RuleFits, Truncate, ById;
        var row := StoredRule(rules[i], i, id, generated[i]);
        FitsIff(db, rules, s, id, i);
        if !ValidBody(rules[i].body) || row.body.action !in db.permissions
           || (row.body.subjectRoleId != [] && row.body.subjectRoleId !in db.roles) || row.id in stored {
          return None;
        }
        ByIdExtend(RulesOutside(db.rules, id), s, i);
        stored := stored[row.id := row];
      }
      assert s[..|rules|] == s;
      r := Some(stored);
    }

    /** Nothing of the policy is left, and every other policy keeps exactly its rules. */
    method DeletePolicy(id: string)
      modifies this
      ensures db == AfterDeletePolicy(old(db), id)
      ensures forall p :: p in db.policies <==> p in old(db).policies && p != id
      ensures forall r :: r in db.rules <==> r in old(db).rules && old(db).rules[r].policyId != id
      ensures forall r :: r in db.rules ==> db.rules[r] == old(db).rules[r]
      ensures Valid(old(db)) ==> Valid(db)
    {
      db := db.(policies := db.policies - {id});
      db := db.(rules := RulesOutside(db.rules, id));
      if Valid(old(db)) { PolicyOpKeeps(old(db), StoreRuns.DeletePolicy(id)); }
    }

    /** The new row is open for its owner until its expiry, and for nobody else; no other row is affected. */
    method CreateTerminal(id: string, userId: string, containerId: string, shell: string, expiresAt: string)
      returns (ok: bool)
      modifies this
      ensures var after := AfterCreateTerminal(old(db), id, userId, containerId, shell, expiresAt);
              ok == after.Some? && db == if ok then after.value else old(db)
      ensures ok <==> id !in old(db).terminals && userId in old(db).users
      ensures ok ==> TerminalCreated(old(db), id, userId, containerId, shell, expiresAt, db)
      ensures ok ==> forall now, u :: Open(db, now, id, u) <==> u == userId && Timestamps.Less(now, expiresAt)
      ensures forall x, now, u :: x != id ==> Open(db, now, x, u) == Open(old(db), now, x, u)
      ensures Valid(old(db)) ==> Valid(db)
    {
      ok := id !in db.terminals && userId in db.users;
      if ok {
        db := db.(terminals := db.terminals[id := TerminalRow(userId, containerId, shell, expiresAt, Created)]);
        if Valid(old(db)) {
          OtherOpKeeps(old(db), StoreRuns.CreateTerminal(id, userId, containerId, shell, expiresAt));
        }
      }
    }

    method GetTerminal(id: string, userId: string, now: string) returns (r: Option<TerminalRow>)
      ensures r.Some? <==> Open(db, now, id, userId)
      ensures r.Some? ==> r.value == db.terminals[id]
    {
      if id !in db.terminals {
        return None;
      }
      var row := db.terminals[id];
      if row.userId != userId || !(row.status == Created || row.status == Attached)
         || !Timestamps.Less(now, row.expiresAt) {
        return None;
      }
      r := Some(row);
    }

    /** An ended row is open for nobody at any instant; any other status leaves owner and expiry to decide. */
    method TouchTerminal(id: string, status: Status)
      modifies this
      ensures db == AfterTouch(old(db), id, status)
      ensures TerminalTouched(old(db), id, status, db)
      ensures forall now, u :: Open(db, now, id, u) <==> status != Ended && OpenButStatus(old(db), now, id, u)
      ensures forall x, now, u :: x != id ==> Open(db, now, x, u) == Open(old(db), now, x, u)
      ensures Valid(old(db)) ==> Valid(db)
    {
      if id in db.terminals {
        db := db.(terminals := db.terminals[id := db.terminals[id].(status := status)]);
      }
      if Valid(old(db)) { OtherOpKeeps(old(db), StoreRuns.TouchTerminal(id, status)); }
    }
  }

  // ----- What single operations keep -----

  /** The row belongs to the user and is unexpired, whatever its status. */
  predicate OpenButStatus(db: Db, now: string, terminal: string, userId: string) {
    && terminal in db.terminals && db.terminals[terminal].userId == userId
    && Timestamps.Less(now, db.terminals[terminal].expiresAt)
  }

  lemma UpdateKeeps(db: Db, id: string, enable: Option<bool>, names: Option<seq<string>>,
                    password: Option<Option<string>>)
    ensures var out := AfterUpdateUser(db, id, enable, names, password);
            && (Valid(db) && out.Done? ==> Valid(out.db))
            && (Valid(db) && HasAdmin(db) && out.Done? ==> HasAdmin(out.db))
  {
    hide Valid, HasAdmin, AfterUpdateUser;
    if Valid(db) && AfterUpdateUser(db, id, enable, names, password).Done? {
      UpdateUserKeepsValid(db, id, enable, names, password);
      if HasAdmin(db) { UpdateUserKeepsAdmin(db, id, enable, names, password); }
    }
  }

  lemma RoleStepKeeps(db: Db, cleared: set<(string, string)>, op: RoleOp)
    requires ClearedKept(cleared, db.roles)
    ensures var db' := ApplyRole(System(db, cleared), op).db;
            (Valid(db) ==> Valid(db')) && (Valid(db) && HasAdmin(db) ==> HasAdmin(db'))
  {
    hide Valid, HasAdmin, ApplyRole;
    if Valid(db) {
      RoleOpKeeps(System(db, cleared), op);
      if HasAdmin(db) { RoleOpKeepsAdmin(System(db, cleared), op); }
    }
  }

  /** Nothing refers to the role any more. */
  ghost predicate Gone(db: Db, role: string) {
    && role !in db.roles && (forall p :: p in db.rolePermissions ==> p.0 != role)
    && (forall p :: p in db.userRoles ==> p.1 != role)
    && (forall r :: r in db.rules ==> db.rules[r].body.subjectRoleId != role)
  }

  /** Whatever does not refer to the role is as before, users, sessions and terminals included. */
  ghost predicate OthersKept(db: Db, db': Db, role: string) {
    && db'
       == db.(roles := db'.roles, rolePermissions := db'.rolePermissions, userRoles := db'.userRoles,
              rules := db'.rules)
    && (forall r :: r in db.roles && r != role ==> r in db'.roles && db'.roles[r] == db.roles[r])
    && (forall p :: p in db.rolePermissions && p.0 != role ==> p in db'.rolePermissions)
    && (forall p :: p in db.userRoles && p.1 != role ==> p in db'.userRoles)
    && (forall r :: r in db.rules && db.rules[r].body.subjectRoleId != role ==>
          r in db'.rules && db'.rules[r] == db.rules[r])
  }

  lemma DeletedIsGone(db: Db, role: string)
    requires AfterDeleteRole(db, role).Some?
    ensures Gone(AfterDeleteRole(db, role).value, role) && OthersKept(db, AfterDeleteRole(db, role).value, role)
  {
  }

  lemma {:induction false} SeedAllFails(db: Db, seeds: seq<SeedRole>, i: nat)
    requires i <= |seeds| && SeedAll(db, seeds[..i]).None?
    ensures SeedAll(db, seeds).None?
  {
    if i < |seeds| {
      assert seeds[..|seeds| - 1][..i] == seeds[..i];
      SeedAllFails(db, seeds[..|seeds| - 1], i);
    } else {
      assert seeds[..i] == seeds;
    }
  }

  lemma ByIdExtend(outside: map<string, PolicyRule>, s: seq<PolicyRule>, i: nat)
    requires i < |s|
    ensures outside + ById(s[..i + 1]) == (outside + ById(s[..i]))[s[i].id := s[i]]
  {
    assert s[..i + 1][..i] == s[..i] && s[..i + 1][i] == s[i];
  }

  /** The rule fits exactly when its INSERT meets no constraint in the table written so far. */
  lemma FitsIff(db: Db, rules: seq<PolicyRule>, s: seq<PolicyRule>, id: string, i: nat)
    requires i < |rules| == |s|
    ensures RuleFits(db, rules, s, id, i) <==>
              && ValidBody(rules[i].body) && s[i].body.action in db.permissions
              && (s[i].body.subjectRoleId == [] || s[i].body.subjectRoleId in db.roles)
              && s[i].id !in RulesOutside(db.rules, id) + ById(s[..i])
  {
    IdsStored(s, i);
  }

  /** The ids taken by the first `i` stored rules. */
  lemma {:induction false} IdsStored(s: seq<PolicyRule>, i: nat)
    requires i < |s|
    ensures s[i].id in ById(s[..i]) <==> exists j :: 0 <= j < i && s[j].id == s[i].id
  {
    KeysOfById(s[..i], s[i].id);
    if exists j :: 0 <= j < i && s[j].id == s[i].id {
      var j :| 0 <= j < i && s[j].id == s[i].id;
      assert s[..i][j].id == s[i].id;
    }
    if s[i].id in ById(s[..i]) {
      var j :| 0 <= j < i && s[..i][j].id == s[i].id;
      assert s[j].id == s[i].id;
    }
  }

  lemma {:induction false} KeysOfById(s: seq<PolicyRule>, r: string)
    ensures r in ById(s) <==> exists j :: 0 <= j < |s| && s[j].id == r
  {
    if s != [] {
      var n := |s| - 1;
      KeysOfById(s[..n], r);
      if r in ById(s[..n]) {
        var j :| 0 <= j < n && s[..n][j].id == r;
        assert s[j].id == r;
      }
      if exists j :: 0 <= j < |s| && s[j].id == r {
        var j :| 0 <= j < |s| && s[j].id == r;
        if j < n { assert s[..n][j].id == r; }
      }
    }
  }

  // ----- The user record from its join rows -----

  /** One row of user_roles joined with roles and, if the role has any, one of its permissions. */
  datatype JoinRow = JoinRow(roleId: string, roleName: string, permission: Option<string>)

  /** The rows the join of GetUser returns for a user, in any order. */
  ghost predicate IsJoin(db: Db, id: string, rows: seq<JoinRow>) {
    && (forall i :: 0 <= i < |rows| ==>
          && (id, rows[i].roleId) in db.userRoles && rows[i].roleId in db.roles
              && rows[i].roleName == db.roles[rows[i].roleId].name
          && (rows[i].permission.Some? ==> (rows[i].roleId, rows[i].permission.value) in db.rolePermissions))
    && (forall r :: (id, r) in db.userRoles && r in db.roles ==> exists i :: 0 <= i < |rows| && rows[i].roleId == r)
    && (forall r, p :: (id, r) in db.userRoles && r in db.roles && (r, p) in db.rolePermissions ==>
          exists i :: 0 <= i < |rows| && rows[i] == JoinRow(r, db.roles[r].name, Some(p)))
  }

  ghost predicate NoDuplicates(s: seq<string>) {
    forall i, j :: 0 <= i < j < |s| ==> s[i] != s[j]
  }

  /** A user record that says exactly what the tables say. */
  ghost predicate Describes(db: Db, id: string, u: User) {
    u.id == id && AccountSeen(db, u) && Holds(db, u)
  }

  ghost predicate Occurs(rows: seq<JoinRow>, name: string, id: string) {
    exists k :: 0 <= k < |rows| && rows[k].roleName == name && rows[k].roleId == id
  }

  /**
    What the loop has collected from the rows so far: each role name once with an id it occurs with, and each
    permission once.
   */
  ghost predicate RolesCollected(rows: seq<JoinRow>, roles: seq<string>, roleIds: seq<string>) {
    && |roles| == |roleIds| && NoDuplicates(roles)
    && (forall i :: 0 <= i < |roles| ==> Occurs(rows, roles[i], roleIds[i]))
    && (forall k :: 0 <= k < |rows| ==> rows[k].roleName in roles)
  }

  ghost predicate PermissionsCollected(rows: seq<JoinRow>, permissions: seq<string>) {
    && NoDuplicates(permissions)
    && (forall p :: p in permissions <==> exists k :: 0 <= k < |rows| && rows[k].permission == Some(p))
  }

  method Deduplicate(rows: seq<JoinRow>) returns (roles: seq<string>, roleIds: seq<string>, permissions: seq<string>)
    ensures RolesCollected(rows, roles, roleIds) && PermissionsCollected(rows, permissions)
  {
    NothingCollected(rows);
    hide RolesCollected, PermissionsCollected;
    roles, roleIds, permissions := [], [], [];
    var seen: set<string>, seenPermission: set<string> := {}, {};
    for i := 0 to |rows|
      invariant RolesCollected(rows[..i], roles, roleIds) && PermissionsCollected(rows[..i], permissions)
      invariant forall r :: r in seen <==> r in roles
      invariant forall p :: p in seenPermission <==> p in permissions
    {
      var row := rows[i];
      CollectRole(rows, i, roles, roleIds);
      CollectPermission(rows, i, permissions);
      if row.roleName !in seen {
        roles := roles + [row.roleName];
        roleIds := roleIds + [row.roleId];
        seen := seen + {row.roleName};
      }
      if row.permission.Some? && row.permission.value !in seenPermission {
        permissions := permissions + [row.permission.value];
        seenPermission := seenPermission + {row.permission.value};
      }
    }
    assert rows[..|rows|] == rows;
  }

  lemma NothingCollected(rows: seq<JoinRow>)
    ensures RolesCollected(rows[..0], [], []) && PermissionsCollected(rows[..0], [])
  {
  }

  lemma CollectRole(rows: seq<JoinRow>, i: nat, roles: seq<string>, ids: seq<string>)
    requires i < |rows| && RolesCollected(rows[..i], roles, ids)
    ensures if rows[i].roleName in roles then RolesCollected(rows[..i + 1], roles, ids)
            else RolesCollected(rows[..i + 1], roles + [rows[i].roleName], ids + [rows[i].roleId])
  {
    var m := rows[..i + 1];
    var unseen := rows[i].roleName !in roles;
    var roles' := if unseen then roles + [rows[i].roleName] else roles;
    var ids' := if unseen then ids + [rows[i].roleId] else ids;
    assert m == rows[..i] + [rows[i]] && m[i] == rows[i];
    forall k | 0 <= k < |roles'| ensures Occurs(m, roles'[k], ids'[k]) {
      if k < |roles| {
        assert Occurs(rows[..i], roles[k], ids[k]);
        var j :| 0 <= j < i && rows[..i][j].roleName == roles[k] && rows[..i][j].roleId == ids[k];
        assert m[j] == rows[..i][j];
      } else {
        assert m[i].roleName == roles'[k] && m[i].roleId == ids'[k];
      }
    }
  }

  lemma CollectPermission(rows: seq<JoinRow>, i: nat, perms: seq<string>)
    requires i < |rows| && PermissionsCollected(rows[..i], perms)
    ensures var q := rows[i].permission;
            PermissionsCollected(rows[..i + 1], if q.Some? && q.value !in perms then perms + [q.value] else perms)
  {
    var m, q := rows[..i + 1], rows[i].permission;
    var perms' := if q.Some? && q.value !in perms then perms + [q.value] else perms;
    assert m == rows[..i] + [rows[i]] && m[i] == rows[i];
    forall p ensures p in perms' <==> exists k :: 0 <= k < |m| && m[k].permission == Some(p) {
      if p in perms {
        var k :| 0 <= k < i && rows[..i][k].permission == Some(p);
        assert m[k] == rows[..i][k];
      }
      if exists k :: 0 <= k < |m| && m[k].permission == Some(p) {
        var k :| 0 <= k < |m| && m[k].permission == Some(p);
        if k < i { assert rows[..i][k].permission == Some(p); }
      }
    }
  }

  lemma JoinRoles(db: Db, id: string, rows: seq<JoinRow>, roles: seq<string>, ids: seq<string>)
    requires UniqueRoleNames(db.roles) && IsJoin(db, id, rows) && RolesCollected(rows, roles, ids)
    ensures NoDuplicates(ids)
    ensures forall i :: 0 <= i < |roles| ==>
              ids[i] in db.roles && roles[i] == db.roles[ids[i]].name && (id, ids[i]) in db.userRoles
    ensures forall r :: (id, r) in db.userRoles && r in db.roles ==> r in ids
  {
    forall i | 0 <= i < |roles|
      ensures ids[i] in db.roles && roles[i] == db.roles[ids[i]].name && (id, ids[i]) in db.userRoles
    {
      assert Occurs(rows, roles[i], ids[i]);
    }
    forall r | (id, r) in db.userRoles && r in db.roles ensures r in ids {
      var k :| 0 <= k < |rows| && rows[k].roleId == r;
      var i :| 0 <= i < |roles| && roles[i] == rows[k].roleName;
      assert NoCase(db.roles[ids[i]].name, db.roles[r].name);
      assert ids[i] == r;
    }
  }

  lemma JoinPermissions(db: Db, id: string, rows: seq<JoinRow>, permissions: seq<string>)
    requires IsJoin(db, id, rows) && PermissionsCollected(rows, permissions)
    ensures forall p :: p in permissions
              <==> exists r :: (id, r) in db.userRoles && r in db.roles && (r, p) in db.rolePermissions
  {
    forall p | exists r :: (id, r) in db.userRoles && r in db.roles && (r, p) in db.rolePermissions
      ensures p in permissions
    {
      var r :| (id, r) in db.userRoles && r in db.roles && (r, p) in db.rolePermissions;
      var i :| 0 <= i < |rows| && rows[i] == JoinRow(r, db.roles[r].name, Some(p));
    }
    forall p | p in permissions
      ensures exists r :: (id, r) in db.userRoles && r in db.roles && (r, p) in db.rolePermissions
    {
      var k :| 0 <= k < |rows| && rows[k].permission == Some(p);
      assert (rows[k].roleId, p) in db.rolePermissions;
    }
  }

  /** The roles and permissions of the user record are those of the tables. */
  ghost predicate Holds(db: Db, u: User) {
    && |u.roles| == |u.roleIds| && NoDuplicates(u.roleIds) && NoDuplicates(u.permissions)
    && (forall r :: r in u.roleIds <==> (u.id, r) in db.userRoles && r in db.roles)
    && (forall i :: 0 <= i < |u.roles| ==> u.roleIds[i] in db.roles && u.roles[i] == db.roles[u.roleIds[i]].name)
    && (forall p :: p in u.permissions <==>
                      exists r :: (u.id, r) in db.userRoles && r in db.roles && (r, p) in db.rolePermissions)
  }

  /** The name and the enabled flag of the user record are those of the tables. */
  predicate AccountSeen(db: Db, u: User) {
    u.id in db.users && u.username == db.users[u.id].username && u.enabled == db.users[u.id].enabled
  }

  lemma JoinHolds(db: Db, u: User, rows: seq<JoinRow>)
    requires UniqueRoleNames(db.roles) && IsJoin(db, u.id, rows)
    requires RolesCollected(rows, u.roles, u.roleIds) && PermissionsCollected(rows, u.permissions)
    ensures Holds(db, u)
  {
    JoinRoles(db, u.id, rows, u.roles, u.roleIds);
    JoinPermissions(db, u.id, rows, u.permissions);
    hide UniqueRoleNames, IsJoin, RolesCollected;
  }

  /**
    Deduplicating by role name is sound because names are unique: the record lists exactly the
    assigned roles, names and ids in step, and the union of their permissions.
   */
  lemma JoinDescribes(db: Db, id: string, rows: seq<JoinRow>, u: User)
    requires Valid(db) && IsJoin(db, id, rows) && id in db.users
    requires u.id == id && u.username == db.users[id].username && u.enabled == db.users[id].enabled
    requires RolesCollected(rows, u.roles, u.roleIds) && PermissionsCollected(rows, u.permissions)
    ensures Describes(db, id, u)
  {
    hide IsJoin, RolesCollected, PermissionsCollected;
    JoinHolds(db, u, rows);
  }

  /** The record for a user is unique up to order: any two row orders give the same sets. */
  lemma SameRecord(db: Db, id: string, u: User, v: User)
    requires Describes(db, id, u) && Describes(db, id, v)
    ensures forall r :: r in u.roleIds <==> r in v.roleIds
    ensures forall r :: r in u.roles <==> r in v.roles
    ensures forall p :: p in u.permissions <==> p in v.permissions
  {
    SameNames(db, id, u, v);
    SameNames(db, id, v, u);
  }

  lemma SameNames(db: Db, id: string, u: User, v: User)
    requires Describes(db, id, u) && Describes(db, id, v)
    ensures forall r :: r in u.roles ==> r in v.roles
  {
    forall r | r in u.roles ensures r in v.roles {
      var i :| 0 <= i < |u.roles| && u.roles[i] == r;
      assert u.roleIds[i] in v.roleIds;
      var j :| 0 <= j < |v.roleIds| && v.roleIds[j] == u.roleIds[i];
      assert v.roles[j] == r;
    }
  }
}
