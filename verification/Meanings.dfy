/**
  What the store's operations mean, row by row: which calls succeed, and what every table holds afterwards.
  The effects in Database are proved to be these.
 */
module Meanings {
  import opened Wrappers
  import opened Records
  import opened Database
  import opened StoreRuns

  // ----- Texts -----

  /** The same letter but for ASCII case. */
  predicate SameLetter(c: char, d: char) {
    || c == d
    || ('A' <= c <= 'Z' && d as int == c as int + 32)
    || ('A' <= d <= 'Z' && c as int == d as int + 32)
  }

  ghost predicate SameText(a: string, b: string) {
    |a| == |b| && forall i :: 0 <= i < |a| ==> SameLetter(a[i], b[i])
  }

  lemma NoCaseMeans(a: string, b: string)
    ensures NoCase(a, b) <==> SameText(a, b)
  {
    if NoCase(a, b) {
      forall i | 0 <= i < |a| ensures SameLetter(a[i], b[i]) {
        assert Fold(a)[i] == Fold(b)[i];
      }
    }
    if SameText(a, b) {
      forall i | 0 <= i < |a| ensures Fold(a)[i] == Fold(b)[i] {}
    }
  }

  /** `r` is `s` cut to at most `n` bytes. */
  predicate IsCut(s: string, n: nat, r: string) {
    r <= s && |r| == if |s| <= n then |s| else n
  }

  ghost predicate HasText(s: string) {
    exists i :: 0 <= i < |s| && s[i] != ' ' && !(9 <= s[i] as int <= 13)
  }

  lemma BlankMeans(s: string)
    ensures !Blank(s) <==> HasText(s)
  {
  }

  /** 3 to 64 letters, digits, '_', '-' and '.', no digit first. */
  ghost predicate IsUsername(s: string) {
    && 3 <= |s| <= 64 && !('0' <= s[0] <= '9')
    && forall i :: 0 <= i < |s| ==>
         || 'a' <= s[i] <= 'z' || 'A' <= s[i] <= 'Z' || '0' <= s[i] <= '9'
         || s[i] == '_' || s[i] == '-' || s[i] == '.'
  }

  lemma UsernameMeans(s: string)
    ensures ValidUsername(s) <==> IsUsername(s)
  {
  }

  // ----- Roles -----

  ghost predicate PermissionsAccepted(db: Db, id: string, granted: seq<string>) {
    && (granted == [] || id in db.roles)
    && (forall i :: 0 <= i < |granted| ==> granted[i] in db.permissions)
    && (forall i, j :: 0 <= i < j < |granted| ==> granted[i] != granted[j])
  }

  /** The role may do exactly what is listed; every other role and table is as before. */
  ghost predicate PermissionsSet(db: Db, id: string, granted: seq<string>, db': Db) {
    && db' == db.(rolePermissions := db'.rolePermissions)
    && forall r, p :: (r, p) in db'.rolePermissions <==> if r == id then p in granted else (r, p) in db.rolePermissions
  }

  lemma SetPermissionsMeans(db: Db, id: string, granted: seq<string>)
    ensures var r := AfterSetPermissions(db, id, granted);
            && (r.Some? <==> PermissionsAccepted(db, id, granted))
            && (r.Some? ==> PermissionsSet(db, id, granted, r.value))
  {
  }

  /** The permissions are replaced as a whole, or nothing changes. */
  ghost predicate PermissionsOutcome(db: Db, id: string, granted: seq<string>, ok: bool, db': Db) {
    && (ok <==> PermissionsAccepted(db, id, granted))
    && (if ok then PermissionsSet(db, id, granted, db') else db' == db)
  }

  /** The first write of SaveRole is let through: a new role, or an existing one that may bear the name. */
  ghost predicate RoleAccepted(db: Db, id: string, generated: string, name: string) {
    && HasText(name) && |name| <= 64
    && (if id == "" then generated !in db.roles
        else id in db.roles && (db.roles[id].builtin ==> db.roles[id].name == name))
    && forall r :: r in db.roles && SameText(db.roles[r].name, name) ==> id != "" && r == id
  }

  /** The role bears the name and the description; a new one is not builtin; no other row changes. */
  ghost predicate RoleWritten(db: Db, id: string, generated: string, name: string, description: string, db': Db) {
    var rid := if id == "" then generated else id;
    && db' == db.(roles := db'.roles)
    && rid in db'.roles && db'.roles[rid].name == name && IsCut(description, 500, db'.roles[rid].description)
    && db'.roles[rid].builtin == (id != "" && id in db.roles && db.roles[id].builtin)
    && forall r :: r != rid ==> (r in db'.roles <==> r in db.roles) && (r in db.roles ==> db'.roles[r] == db.roles[r])
  }

  /** What the first write of SaveRole makes of the tables. */
  ghost function FirstWrite(db: Db, id: string, generated: string, name: string, description: string): Option<Db> {
    if id == [] then AfterInsertRole(db, generated, name, description)
    else if MayWriteRole(db, id, name) then AfterWriteRole(db, id, name, description) else None
  }

  lemma RoleNameTaken(roles: map<string, RoleRow>, name: string, id: string)
    ensures NameTaken(roles, name, id) <==> exists r :: r in roles && r != id && SameText(roles[r].name, name)
  {
    forall r | r in roles ensures NoCase(roles[r].name, name) <==> SameText(roles[r].name, name) {
      NoCaseMeans(roles[r].name, name);
    }
    hide NoCase, SameText;
  }

  lemma FirstWriteMeans(db: Db, id: string, generated: string, name: string, description: string)
    ensures var r := FirstWrite(db, id, generated, name, description);
            && (r.Some? <==> RoleAccepted(db, id, generated, name))
            && (r.Some? ==> RoleWritten(db, id, generated, name, description, r.value))
  {
    BlankMeans(name);
    RoleNameTaken(db.roles, name, if id == "" then generated else id);
    hide NameTaken, NoCase, SameText, Blank, HasText;
  }

  // ----- Users and their roles -----

  /** One entry of a role list, an id or a name in any case, refers to the role. */
  ghost predicate RefersTo(roles: map<string, RoleRow>, role: string, entry: string)
    requires role in roles
  {
    role == entry || SameText(roles[role].name, entry)
  }

  ghost predicate IsNamed(roles: map<string, RoleRow>, role: string, names: seq<string>) {
    role in roles && exists i :: 0 <= i < |names| && RefersTo(roles, role, names[i])
  }

  ghost predicate SomeRole(roles: map<string, RoleRow>, entry: string) {
    exists r :: r in roles && RefersTo(roles, r, entry)
  }

  /** Two entries refer to one role. */
  ghost predicate OneRoleTwice(roles: map<string, RoleRow>, a: string, b: string) {
    exists r :: r in roles && RefersTo(roles, r, a) && RefersTo(roles, r, b)
  }

  /** Every entry refers to some role, no role is meant twice, none is held already. */
  ghost predicate RolesAccepted(db: Db, user: string, names: seq<string>) {
    && (names == [] || user in db.users)
    && (forall i :: 0 <= i < |names| ==> SomeRole(db.roles, names[i]))
    && (forall i, j :: 0 <= i < j < |names| ==> !OneRoleTwice(db.roles, names[i], names[j]))
    && (forall r :: IsNamed(db.roles, r, names) ==> (user, r) !in db.userRoles)
  }

  /** The user holds the named roles in addition; nobody else's roles and no other table change. */
  ghost predicate RolesAdded(db: Db, user: string, names: seq<string>, db': Db) {
    && db' == db.(userRoles := db'.userRoles)
    && forall u, r :: (u, r) in db'.userRoles <==>
                        (u, r) in db.userRoles || (u == user && IsNamed(db.roles, r, names))
  }

  lemma SelectsMeans(roles: map<string, RoleRow>)
    ensures forall r, n :: r in roles ==> (Selects(r, roles[r], n) <==> RefersTo(roles, r, n))
  {
    forall r, n | r in roles ensures Selects(r, roles[r], n) <==> RefersTo(roles, r, n) {
      NoCaseMeans(roles[r].name, n);
    }
  }

  lemma SelectionMeans(roles: map<string, RoleRow>, names: seq<string>)
    ensures forall r :: r in Selection(roles, names) <==> IsNamed(roles, r, names)
  {
    SelectsMeans(roles);
    hide Selects, RefersTo;
  }

  lemma KnownMeans(roles: map<string, RoleRow>, a: string, b: string)
    ensures Known(roles, a) <==> SomeRole(roles, a)
    ensures Clash(roles, a, b) <==> OneRoleTwice(roles, a, b)
  {
    SelectsMeans(roles);
    hide Selects, RefersTo;
  }

  lemma AssignMeans(db: Db, user: string, names: seq<string>)
    ensures CanAssign(db, user, names) <==> RolesAccepted(db, user, names)
    ensures RolesAdded(db, user, names, Assigned(db, user, names))
  {
    SelectionMeans(db.roles, names);
    hide Selects, RefersTo, Selection, IsNamed, Known, SomeRole, Clash, OneRoleTwice;
    forall a ensures Known(db.roles, a) <==> SomeRole(db.roles, a) { KnownMeans(db.roles, a, a); }
    forall a, b ensures Clash(db.roles, a, b) <==> OneRoleTwice(db.roles, a, b) { KnownMeans(db.roles, a, b); }
  }

  // ----- Creating, changing and recovering users -----

  ghost predicate UserAccepted(db: Db, id: string, username: string, hash: Option<string>) {
    && IsUsername(username) && hash.Some? && id !in db.users
    && forall u :: u in db.users ==> !SameText(db.users[u].username, username)
  }

  /** The tables with the new user's row and nothing else new. */
  function WithUser(db: Db, id: string, row: UserRow): Db {
    db.(users := db.users[id := row])
  }

  /** Success, and then one new row with these values and exactly the named roles. */
  ghost predicate UserCreated(db: Db, id: string, username: string, hash: Option<string>, names: seq<string>,
                              enabled: bool, r: Option<Db>) {
    if UserAccepted(db, id, username, hash) then
      var tx := WithUser(db, id, UserRow(username, hash.value, enabled));
      if RolesAccepted(tx, id, names) then r.Some? && RolesAdded(tx, id, names, r.value) else r.None?
    else r.None?
  }

  lemma TakenMeans(db: Db, username: string)
    ensures UsernameTaken(db.users, username) <==>
              exists u :: u in db.users && SameText(db.users[u].username, username)
  {
    forall u | u in db.users
      ensures NoCase(db.users[u].username, username) <==> SameText(db.users[u].username, username)
    {
      NoCaseMeans(db.users[u].username, username);
    }
    hide NoCase, SameText;
  }

  lemma CreateUserMeans(db: Db, id: string, username: string, hash: Option<string>, names: seq<string>, enabled: bool)
    ensures UserCreated(db, id, username, hash, names, enabled, AfterCreateUser(db, id, username, hash, names, enabled))
  {
    UsernameMeans(username);
    TakenMeans(db, username);
    hide ValidUsername, IsUsername, UsernameTaken, SameText, CanAssign, Assigned, RolesAccepted, RolesAdded;
    if hash.Some? {
      AssignMeans(WithUser(db, id, UserRow(username, hash.value, enabled)), id, names);
    }
  }

  /** `u` is an enabled holder of the seeded administrator role. */
  predicate IsAdmin(db: Db, u: string) {
    u in db.users && db.users[u].enabled && (u, "role-admin") in db.userRoles
  }

  /** The list of roles keeps the administrator role: it is nil, or names it by id or by name in any case. */
  ghost predicate NamesTheAdmin(names: Option<seq<string>>) {
    names.Some? ==>
      exists i :: 0 <= i < |names.value| && (names.value[i] == "role-admin" || SameText(names.value[i], "Admin"))
  }

  /** The only enabled administrator would be disabled or lose the role. */
  ghost predicate WouldLoseLast(db: Db, id: string, enable: Option<bool>, names: Option<seq<string>>) {
    && IsAdmin(db, id) && (forall u :: IsAdmin(db, u) ==> u == id)
    && (enable == Some(false) || !NamesTheAdmin(names))
  }

  lemma KeepsAdminMeans(names: Option<seq<string>>)
    ensures KeepsAdmin(names) <==> NamesTheAdmin(names)
  {
    if names.Some? {
      forall i | 0 <= i < |names.value|
        ensures NamesAdmin(names.value[i]) <==> names.value[i] == "role-admin" || SameText(names.value[i], "Admin")
      {
        NoCaseMeans(names.value[i], "Admin");
      }
    }
    hide NamesAdmin, SameText;
  }

  lemma OnlyOne(s: set<string>, x: string)
    requires x in s
    ensures |s| <= 1 <==> forall y :: y in s ==> y == x
  {
    var rest := s - {x};
    assert |rest| == |s| - 1;
    if |s| > 1 {
      var y :| y in rest;
    }
    assert (forall y :: y in s ==> y == x) ==> rest == {};
  }

  lemma LastAdminMeans(db: Db, id: string, enable: Option<bool>, names: Option<seq<string>>)
    ensures LosesLastAdmin(db, id, enable, names) <==> WouldLoseLast(db, id, enable, names)
  {
    KeepsAdminMeans(names);
    hide KeepsAdmin, NamesTheAdmin;
    assert forall u :: u in EnabledAdmins(db) <==> IsAdmin(db, u);
    hide EnabledAdmins, IsAdmin;
    if id in EnabledAdmins(db) { OnlyOne(EnabledAdmins(db), id); }
  }

  /** The row of `id` with the new flag and hash where given; all other rows as before. */
  ghost predicate UsersChanged(db: Db, id: string, enable: Option<bool>, hash: Option<string>,
                               users: map<string, UserRow>) {
    && users.Keys == db.users.Keys
    && (forall u :: u in db.users && u != id ==> users[u] == db.users[u])
    && (id in db.users ==>
          && users[id].username == db.users[id].username
          && users[id].enabled == (if enable.Some? then enable.value else db.users[id].enabled)
          && users[id].passwordHash == (if hash.Some? then hash.value else db.users[id].passwordHash))
  }

  /** With a new password every session of the user is revoked; nothing else about sessions changes. */
  ghost predicate SessionsRevoked(db: Db, id: string, changed: bool, sessions: map<string, SessionRow>) {
    && sessions.Keys == db.sessions.Keys
    && forall h :: h in db.sessions ==>
         sessions[h] == db.sessions[h].(revoked := db.sessions[h].revoked || (changed && db.sessions[h].userId == id))
  }

  /** The roles of `id` are exactly the named ones if a list is given; everybody else's are as before. */
  ghost predicate RolesReplaced(db: Db, id: string, names: Option<seq<string>>, userRoles: set<(string, string)>) {
    forall u, r :: (u, r) in userRoles <==>
                     if u == id && names.Some? then IsNamed(db.roles, r, names.value) else (u, r) in db.userRoles
  }

  ghost predicate UserUpdated(db: Db, id: string, enable: Option<bool>, names: Option<seq<string>>,
                              password: Option<Option<string>>, db': Db) {
    && db' == db.(users := db'.users, sessions := db'.sessions, userRoles := db'.userRoles)
    && UsersChanged(db, id, enable, if password.Some? then password.value else None, db'.users)
    && SessionsRevoked(db, id, password.Some?, db'.sessions)
    && RolesReplaced(db, id, names, db'.userRoles)
  }

  /** The role list is acceptable once the user's own roles are gone. */
  ghost predicate ListAccepted(db: Db, id: string, names: Option<seq<string>>) {
    names.Some? ==> RolesAccepted(db.(userRoles := set p | p in db.userRoles && p.0 != id), id, names.value)
  }

  lemma BeforeRolesMeans(db: Db, id: string, enable: Option<bool>, password: Option<Option<string>>)
    requires password.Some? ==> password.value.Some?
    ensures var tx := BeforeRoles(db, id, enable, password);
            && tx == db.(users := tx.users, sessions := tx.sessions)
            && UsersChanged(db, id, enable, if password.Some? then password.value else None, tx.users)
            && SessionsRevoked(db, id, password.Some?, tx.sessions)
  {
  }

  /** UpdateUser once the guard has let it pass. */
  lemma UpdateMeans(db: Db, id: string, enable: Option<bool>, names: Option<seq<string>>,
                    password: Option<Option<string>>)
    requires !LosesLastAdmin(db, id, enable, names)
    ensures var out := AfterUpdateUser(db, id, enable, names, password);
            && !out.LastAdmin?
            && (out.Done? <==> (password.Some? ==> password.value.Some?) && ListAccepted(db, id, names))
            && (out.Done? ==> UserUpdated(db, id, enable, names, password, out.db))
  {
    hide LosesLastAdmin, CanAssign, Assigned, ListAccepted, RolesReplaced, UsersChanged, SessionsRevoked;
    if password.Some? ==> password.value.Some? {
      BeforeRolesMeans(db, id, enable, password);
      if names.Some? {
        ReplaceMeans(db, id, enable, names.value, password);
      } else {
        NoList(db, id);
        SameRoles(db, id);
      }
    }
  }

  lemma SameRoles(db: Db, id: string)
    ensures RolesReplaced(db, id, None, db.userRoles)
  {
  }

  lemma NoList(db: Db, id: string)
    ensures ListAccepted(db, id, None)
  {
  }

  lemma UpdateUserMeans(db: Db, id: string, enable: Option<bool>, names: Option<seq<string>>,
                        password: Option<Option<string>>)
    ensures var out := AfterUpdateUser(db, id, enable, names, password);
            && (out.LastAdmin? <==> WouldLoseLast(db, id, enable, names))
            && (out.Done? <==> !WouldLoseLast(db, id, enable, names) && (password.Some? ==> password.value.Some?)
                               && ListAccepted(db, id, names))
            && (out.Done? ==> UserUpdated(db, id, enable, names, password, out.db))
  {
    LastAdminMeans(db, id, enable, names);
    Guarded(db, id, enable, names, password);
    hide LosesLastAdmin, WouldLoseLast, ListAccepted, UserUpdated, AfterUpdateUser;
    if !LosesLastAdmin(db, id, enable, names) {
      UpdateMeans(db, id, enable, names, password);
    }
  }

  lemma Guarded(db: Db, id: string, enable: Option<bool>, names: Option<seq<string>>, password: Option<Option<string>>)
    ensures LosesLastAdmin(db, id, enable, names) ==> AfterUpdateUser(db, id, enable, names, password) == LastAdmin
  {
    hide LosesLastAdmin, CanAssign, Assigned;
  }

  /** The tables just before the new roles are inserted. */
  function BeforeRoles(db: Db, id: string, enable: Option<bool>, password: Option<Option<string>>): Db
    requires password.Some? ==> password.value.Some?
  {
    var tx := db.(users := SetEnabled(db.users, id, enable));
    if password.None? then tx
    else tx.(users := SetHash(tx.users, id, password.value.value), sessions := RevokeAllOf(tx.sessions, id))
  }

  lemma ReplaceMeans(db: Db, id: string, enable: Option<bool>, names: seq<string>, password: Option<Option<string>>)
    requires password.Some? ==> password.value.Some?
    ensures var tx := BeforeRoles(db, id, enable, password).(userRoles := WithoutUser(db.userRoles, id));
            && (CanAssign(tx, id, names) <==> ListAccepted(db, id, Some(names)))
            && Assigned(tx, id, names) == tx.(userRoles := Assigned(tx, id, names).userRoles)
            && RolesReplaced(db, id, Some(names), Assigned(tx, id, names).userRoles)
  {
    var tx := BeforeRoles(db, id, enable, password).(userRoles := WithoutUser(db.userRoles, id));
    AssignMeans(tx, id, names);
    hide CanAssign, Assigned;
    assert tx.roles == db.roles && tx.users.Keys == db.users.Keys;
    SameAcceptance(tx, db.(userRoles := WithoutUser(db.userRoles, id)), id, names);
    hide RolesAccepted, IsNamed;
  }

  /** Acceptance depends on the roles, who holds them and which users there are. */
  lemma SameAcceptance(a: Db, b: Db, id: string, names: seq<string>)
    requires a.roles == b.roles && a.userRoles == b.userRoles && a.users.Keys == b.users.Keys
    ensures RolesAccepted(a, id, names) <==> RolesAccepted(b, id, names)
  {
    hide SomeRole, OneRoleTwice, IsNamed;
  }

  /** The enabled user gets the hash, loses every session, and one event is recorded. */
  ghost predicate Recovered(db: Db, id: string, hash: string, auditId: string, timestamp: string, db': Db) {
    && db' == db.(users := db'.users, sessions := db'.sessions, audit := db'.audit)
    && UsersChanged(db, id, None, Some(hash), db'.users) && SessionsRevoked(db, id, true, db'.sessions)
    && auditId !in db.audit && db'.audit == db.audit[auditId := timestamp]
  }

  lemma RecoverMeans(db: Db, id: string, hash: Option<string>, auditId: string, timestamp: string)
    ensures var r := AfterRecover(db, Some(id), hash, auditId, timestamp);
            && (r.Some? <==> hash.Some? && id in db.users && db.users[id].enabled && auditId !in db.audit)
            && (r.Some? ==> Recovered(db, id, hash.value, auditId, timestamp, r.value))
  {
  }

  lemma RecoverAnyMeans(db: Db, username: string, hash: Option<string>, auditId: string, timestamp: string)
    ensures forall id :: IsUserNamed(db, username, id) <==> id in db.users && SameText(db.users[id].username, username)
    ensures forall id :: var r := AfterRecover(db, Some(id), hash, auditId, timestamp);
              && (r.Some? <==> hash.Some? && id in db.users && db.users[id].enabled && auditId !in db.audit)
              && (r.Some? ==> Recovered(db, id, hash.value, auditId, timestamp, r.value))
  {
    forall id ensures IsUserNamed(db, username, id) <==> id in db.users && SameText(db.users[id].username, username) {
      if id in db.users { NoCaseMeans(db.users[id].username, username); }
    }
    forall id
      ensures var r := AfterRecover(db, Some(id), hash, auditId, timestamp);
              && (r.Some? <==> hash.Some? && id in db.users && db.users[id].enabled && auditId !in db.audit)
              && (r.Some? ==> Recovered(db, id, hash.value, auditId, timestamp, r.value))
    {
      RecoverMeans(db, id, hash, auditId, timestamp);
    }
  }

  /** Enabled, and holding a role of that name in any case. */
  ghost predicate HoldsARoleNamedAdmin(db: Db, u: string) {
    && u in db.users && db.users[u].enabled
    && exists r :: r in db.roles && (u, r) in db.userRoles && SameText(db.roles[r].name, "Admin")
  }

  lemma ActiveAdminsMean(db: Db)
    ensures forall u :: u in ActiveAdmins(db) <==> HoldsARoleNamedAdmin(db, u)
  {
    forall r | r in db.roles ensures NoCase(db.roles[r].name, "Admin") <==> SameText(db.roles[r].name, "Admin") {
      NoCaseMeans(db.roles[r].name, "Admin");
    }
    hide NoCase, SameText;
  }

  /** The very first user, holding the administrator role. */
  ghost predicate Bootstrapped(db: Db, id: string, username: string, hash: Option<string>, r: Option<Db>) {
    && (r.Some? <==> IsUsername(username) && hash.Some? && db.users == map[] && "role-admin" in db.roles
                     && (id, "role-admin") !in db.userRoles)
    && (r.Some? ==> r.value == db.(users := r.value.users, userRoles := r.value.userRoles)
                    && r.value.users.Keys == {id} && r.value.users[id].username == username
                    && r.value.users[id].passwordHash == hash.value && r.value.users[id].enabled
                    && r.value.userRoles == db.userRoles + {(id, "role-admin")})
  }

  lemma BootstrapMeans(db: Db, id: string, username: string, hash: Option<string>)
    ensures Bootstrapped(db, id, username, hash, AfterBootstrap(db, id, username, hash))
  {
    UsernameMeans(username);
  }

  // ----- Sessions and terminal rows -----

  /** One new live session with these values. */
  ghost predicate SessionCreated(db: Db, tokenHash: string, userId: string, csrfHash: string, expiresAt: string,
                                 db': Db) {
    && db' == db.(sessions := db'.sessions) && db'.sessions.Keys == db.sessions.Keys + {tokenHash}
    && (var row := db'.sessions[tokenHash];
        row.userId == userId && row.csrfHash == csrfHash && row.expiresAt == expiresAt && !row.revoked)
    && forall h :: h in db.sessions && h != tokenHash ==> db'.sessions[h] == db.sessions[h]
  }

  ghost function SessionsOf(db: Db, userId: string): set<string> {
    set h | h in db.sessions && db.sessions[h].userId == userId
  }

  /** Exactly the sessions chosen are revoked in addition. */
  ghost predicate SessionsEnded(db: Db, chosen: set<string>, db': Db) {
    && db' == db.(sessions := db'.sessions) && db'.sessions.Keys == db.sessions.Keys
    && forall h :: h in db.sessions ==>
         db'.sessions[h] == db.sessions[h].(revoked := db.sessions[h].revoked || h in chosen)
  }

  /** One new terminal row with these values. */
  ghost predicate TerminalCreated(db: Db, id: string, userId: string, containerId: string, shell: string,
                                  expiresAt: string, db': Db) {
    && db' == db.(terminals := db'.terminals) && db'.terminals.Keys == db.terminals.Keys + {id}
    && (var row := db'.terminals[id];
        && row.userId == userId && row.containerId == containerId && row.shell == shell
        && row.expiresAt == expiresAt && row.status == Created)
    && forall x :: x in db.terminals && x != id ==> db'.terminals[x] == db.terminals[x]
  }

  /** The status of that row, and nothing else. */
  ghost predicate TerminalTouched(db: Db, id: string, status: Status, db': Db) {
    && db' == db.(terminals := db'.terminals) && db'.terminals.Keys == db.terminals.Keys
    && forall x :: x in db.terminals ==>
         db'.terminals[x] == db.terminals[x].(status := if x == id then status else db.terminals[x].status)
  }

  // ----- Seeding -----

  /** The role is there, inserted if neither its id nor its name was taken, with the listed permissions in addition. */
  ghost predicate RoleSeeded(db: Db, s: SeedRole, db': Db) {
    && db' == db.(roles := db'.roles, rolePermissions := db'.rolePermissions)
    && (if s.id in db.roles || exists r :: r in db.roles && SameText(db.roles[r].name, s.name)
        then db'.roles == db.roles
        else && db'.roles.Keys == db.roles.Keys + {s.id}
             && (forall r :: r in db.roles ==> db'.roles[r] == db.roles[r])
             && db'.roles[s.id].name == s.name && db'.roles[s.id].description == s.description
                && db'.roles[s.id].builtin)
    && forall r, p :: (r, p) in db'.rolePermissions
         <==> (r, p) in db.rolePermissions || (r == s.id && p in s.permissions)
  }

  /** A permission is unknown, or the role is missing because its name belongs to another. */
  ghost predicate SeedRefused(db: Db, s: SeedRole) {
    && s.permissions != []
    && ((s.id !in db.roles && exists r :: r in db.roles && SameText(db.roles[r].name, s.name))
        || exists p :: p in s.permissions && p !in db.permissions)
  }

  lemma SeedOneMeans(db: Db, s: SeedRole)
    ensures var r := SeedOne(db, s);
            && (r.Some? ==> RoleSeeded(db, s, r.value))
            && (r.None? <==> SeedRefused(db, s))
  {
    RoleNameTaken(db.roles, s.name, s.id);
    hide NameTaken, SameText;
  }

  /** Seeding the three roles, one after the other. */
  ghost predicate SeededWith(db: Db, a: SeedRole, b: SeedRole, c: SeedRole, db3: Db) {
    exists db1, db2 :: RoleSeeded(db, a, db1) && RoleSeeded(db1, b, db2) && RoleSeeded(db2, c, db3)
  }

  lemma {:induction false} SeedAllMeans(db: Db, a: SeedRole, b: SeedRole, c: SeedRole)
    ensures var r := SeedAll(db, [a, b, c]); r.Some? ==> SeededWith(db, a, b, c, r.value)
  {
    hide SeedOne, RoleSeeded;
    var r := SeedAll(db, [a, b, c]);
    assert [a, b, c][..2] == [a, b] && [a, b][..1] == [a] && [a][..0] == [];
    if r.Some? {
      assert SeedAll(db, [a, b]).Some? && SeedAll(db, [a]).Some?;
      assert SeedAll(db, [a]) == SeedOne(db, a);
      var db1 := SeedOne(db, a).value;
      assert SeedAll(db, [a, b]) == SeedOne(db1, b);
      var db2 := SeedOne(db1, b).value;
      SeedOneMeans(db, a);
      SeedOneMeans(db1, b);
      SeedOneMeans(db2, c);
    }
  }

  /** From empty tables that leaves at most the three roles, and exactly their permissions. */
  lemma SeededPairs(db: Db, a: SeedRole, b: SeedRole, c: SeedRole, db3: Db)
    requires db.roles == map[] && db.rolePermissions == {} && SeededWith(db, a, b, c, db3)
    ensures db3.permissions == db.permissions && db3.roles.Keys <= {a.id, b.id, c.id}
    ensures forall r, p :: (r, p) in db3.rolePermissions <==>
              || (r == a.id && p in a.permissions) || (r == b.id && p in b.permissions)
                  || (r == c.id && p in c.permissions)
  {
    hide SameText;
  }

  /** The permissions of the three builtin roles as they are listed. */
  ghost const READING: set<string> := {"container.read", "container.inspect", "container.stats", "container.logs"}

  ghost const EVERYTHING: set<string> := READING +
    {"container.exec", "container.restart", "secret.view", "user.read", "user.manage", "role.read", "role.manage",
     "permission.read", "policy.read", "policy.manage", "audit.read", "settings.read", "settings.manage"}

  lemma SeedsListed()
    ensures |SEEDS| == 3 && forall i :: 0 <= i < 3 ==> SEEDS[i].permissions != []
    ensures SEEDS[0].id == "role-viewer" && SEEDS[0].name == "Viewer"
    ensures SEEDS[1].id == "role-developer" && SEEDS[1].name == "Developer"
    ensures SEEDS[2].id == "role-admin" && SEEDS[2].name == "Admin"
    ensures forall p :: p in SEEDS[0].permissions <==> p in READING
    ensures forall p :: p in SEEDS[1].permissions <==> p in READING || p == "container.exec"
    ensures forall p :: p in SEEDS[2].permissions <==> p in EVERYTHING
    ensures forall p :: p in CATALOG <==> p in EVERYTHING
  {
  }

  /** A freshly seeded store: the three roles, their names, and exactly these permissions. */
  lemma SeededStore()
    ensures var r := AfterSeed(EMPTY_DB, CATALOG, SEEDS);
            r.Some? ==>
              && r.value.permissions == EVERYTHING
              && r.value.roles.Keys <= {"role-viewer", "role-developer", "role-admin"}
              && forall role, p :: (role, p) in r.value.rolePermissions <==>
                   || (role == "role-viewer" && p in READING)
                   || (role == "role-developer" && (p in READING || p == "container.exec"))
                   || (role == "role-admin" && p in EVERYTHING)
  {
    SeedsListed();
    var db0 := EMPTY_DB.(permissions := EMPTY_DB.permissions + set p | p in CATALOG);
    assert db0.permissions == EVERYTHING;
    assert SEEDS == [SEEDS[0], SEEDS[1], SEEDS[2]];
    SeedAllMeans(db0, SEEDS[0], SEEDS[1], SEEDS[2]);
    hide SEEDS, CATALOG, READING, EVERYTHING, SeedAll, SeededWith;
    var r := AfterSeed(EMPTY_DB, CATALOG, SEEDS);
    if r.Some? { SeededPairs(db0, SEEDS[0], SEEDS[1], SEEDS[2], r.value); }
  }
}

/** What saving a policy means, row by row. */
module PolicyMeanings {
  import opened Wrappers
  import opened Records
  import opened Database
  import opened StoreRuns
  import opened Meanings

  /** A rule keeps its own id or gets the generated one. */
  function RuleId(r: PolicyRule, generated: string): string {
    if r.id == "" then generated else r.id
  }

  ghost predicate RuleAccepted(db: Db, p: Policy, id: string, generated: seq<string>, i: nat)
    requires i < |p.rules| == |generated|
  {
    var r, rid := p.rules[i].body, RuleId(p.rules[i], generated[i]);
    && (r.effect == Allow || r.effect == Deny) && (r.matchType == ByName || r.matchType == ByLabel)
    && |r.matchValue| <= 128 && (forall k :: 0 <= k < |r.matchValue| ==> r.matchValue[k] != '[')
    && r.action in db.permissions && (r.subjectRoleId == "" || r.subjectRoleId in db.roles)
    && (rid in db.rules ==> db.rules[rid].policyId == id)
    && forall j :: 0 <= j < i ==> RuleId(p.rules[j], generated[j]) != rid
  }

  ghost predicate PolicyAccepted(db: Db, p: Policy, id: string, generated: seq<string>)
    requires |p.rules| == |generated|
  {
    && HasText(p.name) && |p.name| <= 100
    && (forall q :: q in db.policies && q != id ==> db.policies[q].name != p.name)
    && forall i :: 0 <= i < |p.rules| ==> RuleAccepted(db, p, id, generated, i)
  }

  /** The row of rule number `i`: as submitted, the match key cut to 128 bytes, its place as priority. */
  predicate IsRow(row: PolicyRule, r: PolicyRule, generated: string, policyId: string, i: nat) {
    && row.id == RuleId(r, generated) && row.policyId == policyId && row.priority == i
    && row.body.effect == r.body.effect && row.body.action == r.body.action
    && row.body.subjectRoleId == r.body.subjectRoleId && row.body.matchType == r.body.matchType
    && row.body.matchValue == r.body.matchValue && IsCut(r.body.matchKey, 128, row.body.matchKey)
  }

  ghost predicate IsNew(p: Policy, generated: seq<string>, r: string)
    requires |p.rules| == |generated|
  {
    exists i :: 0 <= i < |p.rules| && RuleId(p.rules[i], generated[i]) == r
  }

  /** The policy with its rules, and nothing else, is as submitted; every other policy keeps exactly its rules. */
  ghost predicate PolicySaved(db: Db, p: Policy, id: string, generated: seq<string>, db': Db)
    requires |p.rules| == |generated|
  {
    && db' == db.(policies := db'.policies, rules := db'.rules)
    && db'.policies.Keys == db.policies.Keys + {id}
    && (forall q :: q in db.policies && q != id ==> db'.policies[q] == db.policies[q])
    && db'.policies[id].name == p.name && db'.policies[id].enabled == p.enabled
    && IsCut(p.description, 500, db'.policies[id].description)
    && RulesSaved(db.rules, p, id, generated, db'.rules)
  }

  /** The rules of other policies stay, those of this one are exactly the submitted ones. */
  ghost predicate RulesSaved(rules: map<string, PolicyRule>, p: Policy, id: string, generated: seq<string>,
                             rules': map<string, PolicyRule>)
    requires |p.rules| == |generated|
  {
    && (forall r :: r in rules' <==> (r in rules && rules[r].policyId != id) || IsNew(p, generated, r))
    && (forall r :: r in rules && rules[r].policyId != id ==> rules'[r] == rules[r])
    && forall i :: 0 <= i < |p.rules| ==>
         IsRow(rules'[RuleId(p.rules[i], generated[i])], p.rules[i], generated[i], id, i)
  }

  lemma FitsMeans(db: Db, p: Policy, id: string, generated: seq<string>, i: nat)
    requires i < |p.rules| == |generated|
    ensures RuleFits(db, p.rules, StoredRules(p.rules, id, generated), id, i) <==> RuleAccepted(db, p, id, generated, i)
  {
    var s := StoredRules(p.rules, id, generated);
    forall j | 0 <= j <= i ensures s[j].id == RuleId(p.rules[j], generated[j]) {}
    BracketMeans(p.rules[i].body.matchValue);
    hide Truncate, StoredRules;
  }

  lemma BracketMeans(s: string)
    ensures '[' !in s <==> forall k :: 0 <= k < |s| ==> s[k] != '['
  {
  }

  lemma AcceptedMeans(db: Db, p: Policy, id: string, generated: seq<string>)
    requires |p.rules| == |generated|
    ensures AfterSavePolicy(db, p, id, generated).Some? <==> PolicyAccepted(db, p, id, generated)
  {
    BlankMeans(p.name);
    hide RuleFits, RuleAccepted, HasText, Blank, StoredRules, RulesOutside, ById;
    forall i | 0 <= i < |p.rules|
      ensures RuleFits(db, p.rules, StoredRules(p.rules, id, generated), id, i)
              <==> RuleAccepted(db, p, id, generated, i)
    {
      FitsMeans(db, p, id, generated, i);
    }
  }

  lemma NewKeys(p: Policy, id: string, generated: seq<string>, r: string)
    requires |p.rules| == |generated| && DistinctIds(StoredRules(p.rules, id, generated))
    ensures r in ById(StoredRules(p.rules, id, generated)) <==> IsNew(p, generated, r)
  {
    var s := StoredRules(p.rules, id, generated);
    if r in ById(s) {
      var i := ByIdOnly(s, r);
    }
    if IsNew(p, generated, r) {
      var i :| 0 <= i < |p.rules| && RuleId(p.rules[i], generated[i]) == r;
      ByIdFinds(s, i);
    }
  }

  lemma RowAt(p: Policy, id: string, generated: seq<string>, i: nat)
    requires i < |p.rules| == |generated| && DistinctIds(StoredRules(p.rules, id, generated))
    ensures var s := StoredRules(p.rules, id, generated); var r := RuleId(p.rules[i], generated[i]);
            r in ById(s) && IsRow(ById(s)[r], p.rules[i], generated[i], id, i)
  {
    ByIdFinds(StoredRules(p.rules, id, generated), i);
  }

  /** New rows never take the place of another policy's rule. */
  lemma NoneReplaced(db: Db, p: Policy, id: string, generated: seq<string>, r: string)
    requires |p.rules| == |generated| && CanStore(db, p.rules, StoredRules(p.rules, id, generated), id)
    ensures r in ById(StoredRules(p.rules, id, generated)) ==> r !in RulesOutside(db.rules, id)
  {
    var s := StoredRules(p.rules, id, generated);
    if r in ById(s) {
      var i := ByIdOnly(s, r);
      assert RuleFits(db, p.rules, s, id, i);
    }
  }

  lemma RulesMean(db: Db, p: Policy, id: string, generated: seq<string>)
    requires |p.rules| == |generated| && CanStore(db, p.rules, StoredRules(p.rules, id, generated), id)
    ensures RulesSaved(db.rules, p, id, generated,
                       RulesOutside(db.rules, id) + ById(StoredRules(p.rules, id, generated)))
  {
    var s := StoredRules(p.rules, id, generated);
    assert DistinctIds(s) by {
      forall i, j | 0 <= i < j < |s| ensures s[i].id != s[j].id { assert RuleFits(db, p.rules, s, id, j); }
    }
    hide CanStore, StoredRules, ById, IsNew, IsRow, RuleId;
    forall r ensures r in ById(s) <==> IsNew(p, generated, r) { NewKeys(p, id, generated, r); }
    forall r ensures r in ById(s) ==> r !in RulesOutside(db.rules, id) { NoneReplaced(db, p, id, generated, r); }
    forall i | 0 <= i < |p.rules|
      ensures var r := RuleId(p.rules[i], generated[i]);
              r in ById(s) && IsRow(ById(s)[r], p.rules[i], generated[i], id, i)
    {
      RowAt(p, id, generated, i);
    }
  }

  lemma SavedMeans(db: Db, p: Policy, id: string, generated: seq<string>)
    requires |p.rules| == |generated| && AfterSavePolicy(db, p, id, generated).Some?
    ensures PolicySaved(db, p, id, generated, AfterSavePolicy(db, p, id, generated).value)
  {
    hide RulesSaved, CanStore, StoredRules, ById, RulesOutside, Blank, RuleFits;
    RulesMean(db, p, id, generated);
  }

  lemma SavePolicyMeans(db: Db, p: Policy, id: string, generated: seq<string>)
    requires |p.rules| == |generated|
    ensures var r := AfterSavePolicy(db, p, id, generated);
            && (r.Some? <==> PolicyAccepted(db, p, id, generated))
            && (r.Some? ==> PolicySaved(db, p, id, generated, r.value))
  {
    AcceptedMeans(db, p, id, generated);
    hide AfterSavePolicy, PolicyAccepted, PolicySaved;
    if AfterSavePolicy(db, p, id, generated).Some? { SavedMeans(db, p, id, generated); }
  }
}
