/**
  Every run of the store: any sequence of its transactions and bare statements, by any mix of
  callers. SaveRole on an existing role is three steps, with other callers in between; a passed
  check waits in `cleared` until its write.
 */
module StoreRuns {
  import opened Wrappers
  import opened Records
  import opened Database
  import Timestamps

  datatype System = System(db: Db, cleared: set<(string, string)>)

  datatype UserOp =
    | Seed
    | CreateUser(id: string, username: string, hash: Option<string>, names: seq<string>, enabled: bool)
    | Bootstrap(id: string, username: string, hash: Option<string>)
    | UpdateUser(id: string, enable: Option<bool>, assign: Option<seq<string>>, password: Option<Option<string>>)
    | Recover(found: Option<string>, hash: Option<string>, auditId: string, timestamp: string)

  datatype SessionOp =
    | CreateSession(tokenHash: string, userId: string, csrfHash: string, expiresAt: string)
    | RevokeSession(tokenHash: string)
    | RevokeUserSessions(userId: string)

  datatype RoleOp =
    | InsertRole(id: string, name: string, description: string)
    | CheckRole(id: string, name: string)
    | WriteRole(id: string, name: string, description: string)
    | SetPermissions(id: string, granted: seq<string>)
    | DeleteRole(id: string)

  datatype PolicyOp =
    | SavePolicy(policy: Policy, id: string, generated: seq<string>)
    | DeletePolicy(id: string)

  datatype OtherOp =
    | InsertAudit(auditId: string, timestamp: string)
    | PruneAudit(kept: set<string>)
    | CreateTerminal(id: string, userId: string, containerId: string, shell: string, expiresAt: string)
    | TouchTerminal(id: string, status: Status)

  datatype Op =
    | OnUsers(u: UserOp)
    | OnSessions(s: SessionOp)
    | OnRoles(r: RoleOp)
    | OnPolicies(p: PolicyOp)
    | OnOthers(o: OtherOp)

  ghost function Commit(db: Db, after: Option<Db>): Db {
    if after.Some? then after.value else db
  }

  ghost function ApplyUser(db: Db, op: UserOp): Db {
    match op
    case Seed => Commit(db, AfterSeed(db, CATALOG, SEEDS))
    case CreateUser(id, n, h, rs, e) => Commit(db, AfterCreateUser(db, id, n, h, rs, e))
    case Bootstrap(id, n, h) => Commit(db, AfterBootstrap(db, id, n, h))
    case UpdateUser(id, e, rs, p) => (match AfterUpdateUser(db, id, e, rs, p) case Done(d) => d case _ => db)
    case Recover(f, h, a, t) => Commit(db, AfterRecover(db, f, h, a, t))
  }

  ghost function ApplySession(db: Db, op: SessionOp): Db {
    match op
    case CreateSession(h, u, c, e) => Commit(db, AfterCreateSession(db, h, u, c, e))
    case RevokeSession(h) => AfterRevoke(db, h)
    case RevokeUserSessions(u) => AfterRevokeUser(db, u)
  }

  /** A role write happens only after its own check passed, in this state or an earlier one. */
  ghost function ApplyRole(s: System, op: RoleOp): System {
    match op
    case InsertRole(id, n, d) => s.(db := Commit(s.db, AfterInsertRole(s.db, id, n, d)))
    case CheckRole(id, n) => if MayWriteRole(s.db, id, n) then s.(cleared := s.cleared + {(id, n)}) else s
    case WriteRole(id, n, d) =>
      if (id, n) in s.cleared then s.(db := Commit(s.db, AfterWriteRole(s.db, id, n, d))) else s
    case SetPermissions(id, ps) => s.(db := Commit(s.db, AfterSetPermissions(s.db, id, ps)))
    case DeleteRole(id) => s.(db := Commit(s.db, AfterDeleteRole(s.db, id)))
  }

  ghost function ApplyPolicy(db: Db, op: PolicyOp): Db {
    match op
    case SavePolicy(p, id, gs) => if |gs| == |p.rules| then Commit(db, AfterSavePolicy(db, p, id, gs)) else db
    case DeletePolicy(id) => AfterDeletePolicy(db, id)
  }

  ghost function ApplyOther(db: Db, op: OtherOp): Db {
    match op
    case InsertAudit(a, t) => if a in db.audit then db else db.(audit := db.audit[a := t])
    case PruneAudit(kept) => db.(audit := map a | a in db.audit && a in kept :: db.audit[a])
    case CreateTerminal(id, u, c, s, e) => Commit(db, AfterCreateTerminal(db, id, u, c, s, e))
    case TouchTerminal(id, st) => AfterTouch(db, id, st)
  }

  ghost function Apply(s: System, op: Op): System {
    match op
    case OnUsers(u) => s.(db := ApplyUser(s.db, u))
    case OnSessions(x) => s.(db := ApplySession(s.db, x))
    case OnRoles(r) => ApplyRole(s, r)
    case OnPolicies(p) => s.(db := ApplyPolicy(s.db, p))
    case OnOthers(o) => s.(db := ApplyOther(s.db, o))
  }

  ghost function Run(s: System, ops: seq<Op>): System {
    if ops == [] then s else Apply(Run(s, ops[..|ops| - 1]), ops[|ops| - 1])
  }

  // ----- The schema constraints hold in every state -----

  ghost predicate ClearedKept(cleared: set<(string, string)>, roles: map<string, RoleRow>) {
    forall c :: c in cleared && c.0 in roles && roles[c.0].builtin ==> roles[c.0].name == c.1
  }

  ghost predicate Inv(s: System) {
    Valid(s.db) && ClearedKept(s.cleared, s.db.roles)
  }

  lemma RoleNamesDiffer()
    ensures VIEWER_ID != DEVELOPER_ID && VIEWER_ID != ADMIN_ID && DEVELOPER_ID != ADMIN_ID
    ensures !NoCase(VIEWER_NAME, DEVELOPER_NAME) && !NoCase(VIEWER_NAME, ADMIN_NAME)
    ensures !NoCase(DEVELOPER_NAME, ADMIN_NAME)
  {
    assert |VIEWER_ID| == 11 && |DEVELOPER_ID| == 14 && |ADMIN_ID| == 10;
    assert |Fold(VIEWER_NAME)| == 6 && |Fold(DEVELOPER_NAME)| == 9 && |Fold(ADMIN_NAME)| == 5;
  }

  /** What one seeding step does, whatever the tables hold: only new roles and new permissions of the seeded role. */
  ghost predicate SeedKeeps(db: Db, db': Db) {
    && db' == db.(roles := db'.roles, rolePermissions := db'.rolePermissions)
    && UniqueRoleNames(db'.roles) && RolePermissionsKeyed(db'.rolePermissions, db'.roles, db'.permissions)
    && (forall r :: r in db.roles ==> r in db'.roles && db'.roles[r] == db.roles[r])
  }

  lemma SeedOneKeeps(db: Db, s: SeedRole)
    requires UniqueRoleNames(db.roles) && RolePermissionsKeyed(db.rolePermissions, db.roles, db.permissions)
    requires SeedOne(db, s).Some?
    ensures SeedKeeps(db, SeedOne(db, s).value)
  {
  }

  lemma {:induction false} SeedAllKeeps(db: Db, seeds: seq<SeedRole>)
    requires UniqueRoleNames(db.roles) && RolePermissionsKeyed(db.rolePermissions, db.roles, db.permissions)
    requires SeedAll(db, seeds).Some?
    ensures SeedKeeps(db, SeedAll(db, seeds).value)
  {
    if seeds != [] {
      var before := SeedAll(db, seeds[..|seeds| - 1]);
      SeedAllKeeps(db, seeds[..|seeds| - 1]);
      SeedOneKeeps(before.value, seeds[|seeds| - 1]);
    }
  }

  lemma SeedKeepsValid(db: Db, catalog: seq<string>, seeds: seq<SeedRole>)
    requires Valid(db) && AfterSeed(db, catalog, seeds).Some?
    ensures Valid(AfterSeed(db, catalog, seeds).value)
    ensures AfterSeed(db, catalog, seeds).value.users == db.users
    ensures AfterSeed(db, catalog, seeds).value.userRoles == db.userRoles
    ensures AfterSeed(db, catalog, seeds).value.sessions == db.sessions
    ensures AfterSeed(db, catalog, seeds).value.terminals == db.terminals
    ensures forall r :: r in db.roles ==>
              r in AfterSeed(db, catalog, seeds).value.roles
              && AfterSeed(db, catalog, seeds).value.roles[r] == db.roles[r]
  {
    SeedAllKeeps(db.(permissions := db.permissions + set p | p in catalog), seeds);
  }

  lemma {:induction false} AssignedKeepsValid(db: Db, user: string, names: seq<string>)
    requires Valid(db) && CanAssign(db, user, names)
    ensures Valid(Assigned(db, user, names))
  {
    forall p | p in Assigned(db, user, names).userRoles ensures p.0 in db.users && p.1 in db.roles {
      if p !in db.userRoles {
        assert p.1 in Selection(db.roles, names) && names != [];
      }
    }
  }

  lemma CreateUserKeepsValid(db: Db, id: string, username: string, hash: Option<string>, names: seq<string>,
                             enabled: bool)
    requires Valid(db) && AfterCreateUser(db, id, username, hash, names, enabled).Some?
    ensures Valid(AfterCreateUser(db, id, username, hash, names, enabled).value)
    ensures var d := AfterCreateUser(db, id, username, hash, names, enabled).value;
            d == db.(users := d.users, userRoles := d.userRoles)
    ensures var d := AfterCreateUser(db, id, username, hash, names, enabled).value;
            db.userRoles <= d.userRoles && forall u :: u in db.users ==> u in d.users && d.users[u] == db.users[u]
  {
    var tx := db.(users := db.users[id := UserRow(username, hash.value, enabled)]);
    assert Valid(tx);
    AssignedKeepsValid(tx, id, names);
  }

  lemma BootstrapKeepsValid(db: Db, id: string, username: string, hash: Option<string>)
    requires Valid(db) && AfterBootstrap(db, id, username, hash).Some?
    ensures Valid(AfterBootstrap(db, id, username, hash).value)
    ensures var d := AfterBootstrap(db, id, username, hash).value;
            d == db.(users := d.users, userRoles := d.userRoles) && db.users.Keys <= d.users.Keys
  {
  }

  lemma SetEnabledKeeps(db: Db, id: string, enable: Option<bool>)
    requires Valid(db)
    ensures Valid(db.(users := SetEnabled(db.users, id, enable)))
  {
  }

  lemma SetHashKeeps(db: Db, id: string, hash: string)
    requires Valid(db)
    ensures Valid(db.(users := SetHash(db.users, id, hash), sessions := RevokeAllOf(db.sessions, id)))
  {
  }

  lemma UpdateUserKeepsValid(db: Db, id: string, enable: Option<bool>, names: Option<seq<string>>,
                             password: Option<Option<string>>)
    requires Valid(db) && AfterUpdateUser(db, id, enable, names, password).Done?
    ensures Valid(AfterUpdateUser(db, id, enable, names, password).db)
  {
    hide CanAssign, LosesLastAdmin;
    var tx := db.(users := SetEnabled(db.users, id, enable));
    SetEnabledKeeps(db, id, enable);
    var tx1 := if password.None? then tx
               else tx.(users := SetHash(tx.users, id, password.value.value), sessions := RevokeAllOf(tx.sessions, id));
    if password.Some? { SetHashKeeps(tx, id, password.value.value); }
    if names.Some? {
      var tx2 := tx1.(userRoles := WithoutUser(tx1.userRoles, id));
      assert Valid(tx2);
      AssignedKeepsValid(tx2, id, names.value);
    }
  }

  /** Foreign keys into the roles only need the old ids to stay. */
  lemma RolesGrow(db: Db, roles: map<string, RoleRow>)
    requires Valid(db) && db.roles.Keys <= roles.Keys && UniqueRoleNames(roles) && BuiltinsKept(roles)
    ensures Valid(db.(roles := roles))
  {
  }

  lemma RenameKeeps(roles: map<string, RoleRow>, id: string, row: RoleRow)
    requires UniqueRoleNames(roles) && BuiltinsKept(roles) && id in roles && !NameTaken(roles, row.name, id)
    requires row.builtin == roles[id].builtin && (row.builtin ==> row.name == roles[id].name)
    ensures UniqueRoleNames(roles[id := row]) && BuiltinsKept(roles[id := row])
  {
    StillBuiltin(roles, id, row, VIEWER_ID, VIEWER_NAME);
    StillBuiltin(roles, id, row, DEVELOPER_ID, DEVELOPER_NAME);
    StillBuiltin(roles, id, row, ADMIN_ID, ADMIN_NAME);
  }

  lemma StillBuiltin(roles: map<string, RoleRow>, id: string, row: RoleRow, seeded: string, name: string)
    requires Builtin(roles, seeded, name)
    requires id in roles ==> row.builtin == roles[id].builtin && (row.builtin ==> row.name == roles[id].name)
    ensures Builtin(roles[id := row], seeded, name)
  {
  }

  /** A write whose check passed earlier leaves every builtin name alone, also with other writes in between. */
  lemma WriteRoleKeeps(db: Db, cleared: set<(string, string)>, id: string, name: string, description: string)
    requires Valid(db) && ClearedKept(cleared, db.roles) && (id, name) in cleared
    requires AfterWriteRole(db, id, name, description).Some?
    ensures Valid(AfterWriteRole(db, id, name, description).value)
    ensures ClearedKept(cleared, AfterWriteRole(db, id, name, description).value.roles)
  {
    if id in db.roles {
      var row := db.roles[id].(name := name, description := Truncate(description, 500));
      assert (id, name).0 == id && (id, name).1 == name;
      RenameKeeps(db.roles, id, row);
      RolesGrow(db, db.roles[id := row]);
    }
  }

  lemma InsertRoleKeeps(db: Db, cleared: set<(string, string)>, id: string, name: string, description: string)
    requires Valid(db) && ClearedKept(cleared, db.roles) && AfterInsertRole(db, id, name, description).Some?
    ensures Valid(AfterInsertRole(db, id, name, description).value)
    ensures ClearedKept(cleared, AfterInsertRole(db, id, name, description).value.roles)
  {
    var row := RoleRow(name, Truncate(description, 500), false);
    StillBuiltin(db.roles, id, row, VIEWER_ID, VIEWER_NAME);
    StillBuiltin(db.roles, id, row, DEVELOPER_ID, DEVELOPER_NAME);
    StillBuiltin(db.roles, id, row, ADMIN_ID, ADMIN_NAME);
    RolesGrow(db, db.roles[id := row]);
  }

  lemma DeleteRoleKeeps(db: Db, cleared: set<(string, string)>, id: string)
    requires Valid(db) && ClearedKept(cleared, db.roles) && AfterDeleteRole(db, id).Some?
    ensures Valid(AfterDeleteRole(db, id).value) && ClearedKept(cleared, AfterDeleteRole(db, id).value.roles)
  {
    var roles := db.roles - {id};
    assert UniqueRoleNames(roles);
    assert Builtin(roles, VIEWER_ID, VIEWER_NAME);
    assert Builtin(roles, DEVELOPER_ID, DEVELOPER_NAME);
    assert Builtin(roles, ADMIN_ID, ADMIN_NAME);
  }

  ghost predicate DistinctIds(s: seq<PolicyRule>) {
    forall i, j :: 0 <= i < j < |s| ==> s[i].id != s[j].id
  }

  /** Each listed rule is found under its id. */
  lemma {:induction false} ByIdFinds(s: seq<PolicyRule>, i: nat)
    requires DistinctIds(s) && i < |s|
    ensures s[i].id in ById(s) && ById(s)[s[i].id] == s[i]
  {
    var n := |s| - 1;
    if i < n {
      assert s[..n][i] == s[i];
      ByIdFinds(s[..n], i);
    }
  }

  /** Nothing else is. */
  lemma {:induction false} ByIdOnly(s: seq<PolicyRule>, r: string) returns (i: nat)
    requires r in ById(s)
    ensures i < |s| && s[i].id == r && ById(s)[r] == s[i]
  {
    var n := |s| - 1;
    if r == s[n].id {
      i := n;
    } else {
      i := ByIdOnly(s[..n], r);
    }
  }

  /** A rule after saving is an untouched one of another policy or one of the stored list. */
  lemma RuleOrigin(rules: map<string, PolicyRule>, s: seq<PolicyRule>, id: string, r: string) returns (i: int)
    requires r in RulesOutside(rules, id) + ById(s)
    ensures var rules' := RulesOutside(rules, id) + ById(s);
            if i < 0 then r in rules && rules'[r] == rules[r] && rules[r].policyId != id
            else i < |s| && s[i].id == r && rules'[r] == s[i]
  {
    if r in ById(s) {
      i := ByIdOnly(s, r);
    } else {
      i := -1;
    }
  }

  lemma {:induction false} SavedPriorities(rules: map<string, PolicyRule>, s: seq<PolicyRule>, id: string)
    requires PrioritiesDistinct(rules)
    requires forall i :: 0 <= i < |s| ==> s[i].policyId == id && s[i].priority == i
    ensures PrioritiesDistinct(RulesOutside(rules, id) + ById(s))
  {
    var rules' := RulesOutside(rules, id) + ById(s);
    forall q, r | q in rules' && r in rules' && SamePlace(rules'[q], rules'[r])
      ensures q == r
    {
      var i := RuleOrigin(rules, s, id, q);
      var j := RuleOrigin(rules, s, id, r);
    }
  }

  lemma SavePolicyKeepsValid(db: Db, p: Policy, id: string, generated: seq<string>)
    requires |generated| == |p.rules| && Valid(db) && AfterSavePolicy(db, p, id, generated).Some?
    ensures Valid(AfterSavePolicy(db, p, id, generated).value)
  {
    var s := StoredRules(p.rules, id, generated);
    var db' := AfterSavePolicy(db, p, id, generated).value;
    SavedPriorities(db.rules, s, id);
    forall r | r in db'.rules
      ensures db'.rules[r].id == r && db'.rules[r].policyId in db'.policies
      ensures db'.rules[r].body.action in db'.permissions
      ensures db'.rules[r].body.subjectRoleId == [] || db'.rules[r].body.subjectRoleId in db'.roles
    {
      var i := RuleOrigin(db.rules, s, id, r);
      if i >= 0 { assert RuleFits(db, p.rules, s, id, i); }
    }
    assert UniquePolicyNames(db'.policies);
  }

  lemma SeedAddsNoRole(db: Db)
    requires Valid(db) && AfterSeed(db, CATALOG, SEEDS).Some?
    ensures AfterSeed(db, CATALOG, SEEDS).value.roles == db.roles
  {
    assert forall i :: 0 <= i < |SEEDS| ==>
             SEEDS[i].id == VIEWER_ID || SEEDS[i].id == DEVELOPER_ID || SEEDS[i].id == ADMIN_ID;
    ReseedKeepsRoles(db.(permissions := db.permissions + set p | p in CATALOG), SEEDS);
  }

  /** Seeding again adds no role. */
  lemma {:induction false} ReseedKeepsRoles(db: Db, seeds: seq<SeedRole>)
    requires forall i :: 0 <= i < |seeds| ==> seeds[i].id in db.roles
    requires SeedAll(db, seeds).Some?
    ensures SeedAll(db, seeds).value.roles == db.roles
  {
    if seeds != [] { ReseedKeepsRoles(db, seeds[..|seeds| - 1]); }
  }

  lemma UserOpKeeps(db: Db, op: UserOp)
    requires Valid(db)
    ensures Valid(ApplyUser(db, op)) && ApplyUser(db, op).roles == db.roles
  {
    hide Valid, AfterSeed, AfterCreateUser, AfterBootstrap, AfterUpdateUser, AfterRecover;
    match op
    case Seed => if AfterSeed(db, CATALOG, SEEDS).Some? { SeedKeepsValid(db, CATALOG, SEEDS); SeedAddsNoRole(db); }
    case CreateUser(id, n, h, rs, e) =>
      if AfterCreateUser(db, id, n, h, rs, e).Some? { CreateUserKeepsValid(db, id, n, h, rs, e); }
    case Bootstrap(id, n, h) => if AfterBootstrap(db, id, n, h).Some? { BootstrapKeepsValid(db, id, n, h); }
    case UpdateUser(id, e, rs, p) =>
      if AfterUpdateUser(db, id, e, rs, p).Done? {
        UpdateUserKeepsValid(db, id, e, rs, p);
        UpdateUserEffects(db, id, e, rs, p);
      }
    case Recover(f, h, a, t) => if AfterRecover(db, f, h, a, t).Some? { RecoverKeepsValid(db, f, h, a, t); }
  }

  lemma RecoverKeepsValid(db: Db, found: Option<string>, hash: Option<string>, auditId: string, timestamp: string)
    requires Valid(db) && AfterRecover(db, found, hash, auditId, timestamp).Some?
    ensures var d := AfterRecover(db, found, hash, auditId, timestamp).value;
            && Valid(d) && d.roles == db.roles && d.users.Keys == db.users.Keys && d.userRoles == db.userRoles
            && d.sessions == RevokeAllOf(db.sessions, found.value)
            && (forall u :: u in db.users ==> d.users[u].enabled == db.users[u].enabled)
  {
    SetHashKeeps(db, found.value, hash.value);
  }

  /** What a successful UpdateUser can change outside the user's own row and roles: it ends the user's sessions. */
  lemma UpdateUserEffects(db: Db, id: string, enable: Option<bool>, names: Option<seq<string>>,
                          password: Option<Option<string>>)
    requires AfterUpdateUser(db, id, enable, names, password).Done?
    ensures var d := AfterUpdateUser(db, id, enable, names, password).db;
            && d.roles == db.roles && d.users.Keys == db.users.Keys
            && d.sessions == (if password.Some? then RevokeAllOf(db.sessions, id) else db.sessions)
            && (forall u :: u in db.users && u != id ==> d.users[u] == db.users[u])
  {
    hide CanAssign, LosesLastAdmin, Selection, WithoutUser, RevokeAllOf;
  }

  lemma UpdateUserRoles(db: Db, id: string, enable: Option<bool>, names: Option<seq<string>>,
                        password: Option<Option<string>>)
    requires AfterUpdateUser(db, id, enable, names, password).Done?
    ensures var d := AfterUpdateUser(db, id, enable, names, password).db;
            && !LosesLastAdmin(db, id, enable, names)
            && (id in db.users ==> d.users[id].enabled == if enable.Some? then enable.value else db.users[id].enabled)
            && d.userRoles == (if names.None? then db.userRoles
                               else WithoutUser(db.userRoles, id) + set r | r in Selection(db.roles, names.value) ::
                                      (id, r))
  {
    hide CanAssign, LosesLastAdmin, Selection, WithoutUser, RevokeAllOf;
  }

  lemma SessionOpKeeps(db: Db, op: SessionOp)
    requires Valid(db)
    ensures Valid(ApplySession(db, op)) && ApplySession(db, op) == db.(sessions := ApplySession(db, op).sessions)
  {
  }

  /** Role steps leave users and sessions alone. */
  lemma RoleOpFrame(s: System, op: RoleOp)
    ensures ApplyRole(s, op).db.users == s.db.users && ApplyRole(s, op).db.sessions == s.db.sessions
  {
    hide NameTaken, CanGrant, WithoutRole, WithoutHolders, RulesNotNaming, ValidRoleName, Truncate;
  }

  lemma RoleOpKeeps(s: System, op: RoleOp)
    requires Inv(s)
    ensures Inv(ApplyRole(s, op))
  {
    hide AfterInsertRole, AfterWriteRole, AfterDeleteRole;
    match op
    case InsertRole(id, n, d) =>
      if AfterInsertRole(s.db, id, n, d).Some? { InsertRoleKeeps(s.db, s.cleared, id, n, d); }
    case CheckRole(id, n) =>
    case WriteRole(id, n, d) =>
      if (id, n) in s.cleared && AfterWriteRole(s.db, id, n, d).Some? { WriteRoleKeeps(s.db, s.cleared, id, n, d); }
    case SetPermissions(id, ps) =>
    case DeleteRole(id) => if AfterDeleteRole(s.db, id).Some? { DeleteRoleKeeps(s.db, s.cleared, id); }
  }

  lemma PolicyOpKeeps(db: Db, op: PolicyOp)
    requires Valid(db)
    ensures Valid(ApplyPolicy(db, op))
    ensures ApplyPolicy(db, op) == db.(policies := ApplyPolicy(db, op).policies, rules := ApplyPolicy(db, op).rules)
  {
    match op
    case SavePolicy(p, id, gs) =>
      if |gs| == |p.rules| && AfterSavePolicy(db, p, id, gs).Some? { SavePolicyKeepsValid(db, p, id, gs); }
    case DeletePolicy(id) =>
  }

  lemma OtherOpKeeps(db: Db, op: OtherOp)
    requires Valid(db)
    ensures Valid(ApplyOther(db, op))
    ensures ApplyOther(db, op) == db.(audit := ApplyOther(db, op).audit, terminals := ApplyOther(db, op).terminals)
  {
  }

  lemma ApplyKeepsInv(s: System, op: Op)
    requires Inv(s)
    ensures Inv(Apply(s, op))
  {
    hide Valid, ClearedKept, ApplyUser, ApplySession, ApplyRole, ApplyPolicy, ApplyOther;
    match op
    case OnUsers(u) => UserOpKeeps(s.db, u);
    case OnSessions(x) => SessionOpKeeps(s.db, x);
    case OnRoles(r) => RoleOpKeeps(s, r);
    case OnPolicies(p) => PolicyOpKeeps(s.db, p);
    case OnOthers(o) => OtherOpKeeps(s.db, o);
  }

  /**
    Every state of every run satisfies the schema: keys, unique names, and the builtin roles under their
    seeded names.
   */
  lemma {:induction false} RunKeepsInv(s: System, ops: seq<Op>)
    requires Inv(s)
    ensures Inv(Run(s, ops))
  {
    if ops != [] {
      RunKeepsInv(s, ops[..|ops| - 1]);
      ApplyKeepsInv(Run(s, ops[..|ops| - 1]), ops[|ops| - 1]);
    }
  }

  /** Seeding three roles into empty tables. */
  lemma {:induction false} SeedThree(db: Db, v: SeedRole, d: SeedRole, a: SeedRole)
    requires db.roles == map[] && db.rolePermissions == {}
    requires v.id != d.id && v.id != a.id && d.id != a.id
    requires !NoCase(v.name, d.name) && !NoCase(v.name, a.name) && !NoCase(d.name, a.name)
    requires forall p :: p in v.permissions || p in d.permissions || p in a.permissions ==> p in db.permissions
    ensures var r := SeedAll(db, [v, d, a]);
            && r.Some? && SeedKeeps(db, r.value)
            && Builtin(r.value.roles, v.id, v.name) && Builtin(r.value.roles, d.id, d.name)
               && Builtin(r.value.roles, a.id, a.name)
  {
    hide SeedOne;
    assert [v, d, a][..2] == [v, d] && [v, d][..1] == [v] && [v][..0] == [];
    var rv, rd := RoleRow(v.name, v.description, true), RoleRow(d.name, d.description, true);
    SeedOneWorks(db, v);
    var db1 := SeedOne(db, v).value;
    assert SeedAll(db, [v]) == Some(db1) && db1.roles == map[v.id := rv];
    assert db1.roles[v.id] == rv;
    SeedOneWorks(db1, d);
    var db2 := SeedOne(db1, d).value;
    assert SeedAll(db, [v, d]) == Some(db2) && db2.roles == map[v.id := rv, d.id := rd];
    assert db2.roles[v.id] == rv && db2.roles[d.id] == rd;
    SeedOneWorks(db2, a);
    assert SeedAll(db, [v, d, a]) == SeedOne(db2, a);
  }

  lemma SeedOneWorks(db: Db, s: SeedRole)
    requires UniqueRoleNames(db.roles) && RolePermissionsKeyed(db.rolePermissions, db.roles, db.permissions)
    requires s.id !in db.roles && !NameTaken(db.roles, s.name, s.id)
    requires forall p :: p in s.permissions ==> p in db.permissions
    ensures SeedOne(db, s).Some? && SeedKeeps(db, SeedOne(db, s).value)
    ensures SeedOne(db, s).value.roles == db.roles[s.id := RoleRow(s.name, s.description, true)]
  {
  }

  /** Seeding the empty tables succeeds and starts a run. */
  lemma FreshStoreIsValid()
    ensures AfterSeed(EMPTY_DB, CATALOG, SEEDS).Some? && Inv(System(AfterSeed(EMPTY_DB, CATALOG, SEEDS).value, {}))
  {
    RoleNamesDiffer();
    SeedPermissionsKnown();
    SeedThree(EMPTY_DB.(permissions := EMPTY_DB.permissions + set p | p in CATALOG), SEEDS[0], SEEDS[1], SEEDS[2]);
    assert SEEDS == [SEEDS[0], SEEDS[1], SEEDS[2]];
  }

  lemma SeedPermissionsKnown()
    ensures forall i, p :: 0 <= i < |SEEDS| && p in SEEDS[i].permissions ==> p in CATALOG
  {
    assert forall p :: p in READ_PERMISSIONS ==> p in CATALOG;
    assert CATALOG[4] == "container.exec";
  }

  // ----- The last administrator -----

  ghost predicate HasAdmin(db: Db) {
    EnabledAdmins(db) != {}
  }

  /** The guard's text test decides exactly whether the roles about to be inserted contain the administrator role. */
  lemma KeepsAdminExactly(db: Db, names: seq<string>)
    requires Valid(db)
    ensures KeepsAdmin(Some(names)) <==> ADMIN_ID in Selection(db.roles, names)
  {
    var row := db.roles[ADMIN_ID];
    assert Builtin(db.roles, ADMIN_ID, ADMIN_NAME);
    if KeepsAdmin(Some(names)) {
      var i :| 0 <= i < |names| && NamesAdmin(names[i]);
      assert Selects(ADMIN_ID, row, names[i]);
    }
    if ADMIN_ID in Selection(db.roles, names) {
      var i :| 0 <= i < |names| && Selects(ADMIN_ID, row, names[i]);
    }
  }

  ghost predicate HoldsAdmin(db: Db, u: string) {
    exists r :: (u, r) in db.userRoles && r in db.roles && NoCase(db.roles[r].name, ADMIN_NAME)
  }

  /** The count by role name that ActiveAdminCount reports. */
  ghost function ActiveAdmins(db: Db): set<string> {
    set u | u in db.users && db.users[u].enabled && HoldsAdmin(db, u)
  }

  lemma AdminCountsAgree(db: Db)
    requires Valid(db)
    ensures ActiveAdmins(db) == EnabledAdmins(db)
  {
    assert Builtin(db.roles, ADMIN_ID, ADMIN_NAME);
    forall u, r | (u, r) in db.userRoles && r in db.roles && NoCase(db.roles[r].name, ADMIN_NAME)
      ensures r == ADMIN_ID
    {
    }
  }

  lemma UpdateUserKeepsAdmin(db: Db, id: string, enable: Option<bool>, names: Option<seq<string>>,
                             password: Option<Option<string>>)
    requires Valid(db) && HasAdmin(db) && AfterUpdateUser(db, id, enable, names, password).Done?
    ensures HasAdmin(AfterUpdateUser(db, id, enable, names, password).db)
  {
    var db' := AfterUpdateUser(db, id, enable, names, password).db;
    UpdateUserEffects(db, id, enable, names, password);
    UpdateUserRoles(db, id, enable, names, password);
    hide AfterUpdateUser, Valid;
    if exists u :: u in EnabledAdmins(db) && u != id {
      var u :| u in EnabledAdmins(db) && u != id;
      assert u in EnabledAdmins(db');
    } else {
      var u :| u in EnabledAdmins(db);
      assert EnabledAdmins(db) == {id};
      assert enable != Some(false) && KeepsAdmin(names);
      if names.Some? { KeepsAdminExactly(db, names.value); }
      assert id in EnabledAdmins(db');
    }
  }

  lemma UserOpKeepsAdmin(db: Db, op: UserOp)
    requires Valid(db) && HasAdmin(db)
    ensures HasAdmin(ApplyUser(db, op))
  {
    hide Valid, AfterSeed, AfterCreateUser, AfterBootstrap, AfterUpdateUser, AfterRecover;
    var u :| u in EnabledAdmins(db);
    match op
    case Seed =>
      if AfterSeed(db, CATALOG, SEEDS).Some? {
        SeedKeepsValid(db, CATALOG, SEEDS);
        assert u in EnabledAdmins(ApplyUser(db, op));
      }
    case UpdateUser(id, e, rs, p) =>
      if AfterUpdateUser(db, id, e, rs, p).Done? { UpdateUserKeepsAdmin(db, id, e, rs, p); }
    case CreateUser(id, n, h, rs, e) =>
      if AfterCreateUser(db, id, n, h, rs, e).Some? {
        CreateUserKeepsValid(db, id, n, h, rs, e);
        assert u in EnabledAdmins(ApplyUser(db, op));
      }
    case Bootstrap(id, n, h) => BootstrapNeedsNoUsers(db, id, n, h);
    case Recover(f, h, a, t) =>
      if AfterRecover(db, f, h, a, t).Some? {
        RecoverKeepsValid(db, f, h, a, t);
        assert u in EnabledAdmins(ApplyUser(db, op));
      }
  }

  lemma BootstrapNeedsNoUsers(db: Db, id: string, username: string, hash: Option<string>)
    ensures db.users != map[] ==> AfterBootstrap(db, id, username, hash).None?
  {
  }

  lemma RoleOpKeepsAdmin(s: System, op: RoleOp)
    requires Inv(s) && HasAdmin(s.db)
    ensures HasAdmin(ApplyRole(s, op).db)
  {
    var u :| u in EnabledAdmins(s.db);
    assert Builtin(s.db.roles, ADMIN_ID, ADMIN_NAME);
    assert u in EnabledAdmins(ApplyRole(s, op).db);
  }

  lemma ApplyKeepsAdmin(s: System, op: Op)
    requires Inv(s) && HasAdmin(s.db)
    ensures HasAdmin(Apply(s, op).db)
  {
    hide Valid, ClearedKept, ApplyUser, ApplySession, ApplyRole, ApplyPolicy, ApplyOther;
    match op
    case OnUsers(u) => UserOpKeepsAdmin(s.db, u);
    case OnRoles(r) => RoleOpKeepsAdmin(s, r);
    case OnSessions(x) => SessionOpKeeps(s.db, x); assert EnabledAdmins(Apply(s, op).db) == EnabledAdmins(s.db);
    case OnPolicies(p) => PolicyOpKeeps(s.db, p); assert EnabledAdmins(Apply(s, op).db) == EnabledAdmins(s.db);
    case OnOthers(o) => OtherOpKeeps(s.db, o); assert EnabledAdmins(Apply(s, op).db) == EnabledAdmins(s.db);
  }

  /** Once an enabled administrator exists, every later state of every run has one, and it counts them correctly. */
  lemma {:induction false} AdminSurvives(s: System, ops: seq<Op>)
    requires Inv(s) && HasAdmin(s.db)
    ensures HasAdmin(Run(s, ops).db) && ActiveAdmins(Run(s, ops).db) == EnabledAdmins(Run(s, ops).db)
  {
    if ops != [] {
      AdminSurvives(s, ops[..|ops| - 1]);
      RunKeepsInv(s, ops[..|ops| - 1]);
      ApplyKeepsAdmin(Run(s, ops[..|ops| - 1]), ops[|ops| - 1]);
    }
    RunKeepsInv(s, ops);
    AdminCountsAgree(Run(s, ops).db);
  }

  // ----- Sessions -----

  /** The session row answers at the textual instant `now`. */
  predicate Live(db: Db, tokenHash: string, now: string) {
    && tokenHash in db.sessions && !db.sessions[tokenHash].revoked
    && Timestamps.Less(now, db.sessions[tokenHash].expiresAt)
  }

  /** ResolveSession answers at the textual instant `now`. */
  predicate Resolves(db: Db, tokenHash: string, now: string) {
    && Live(db, tokenHash, now)
    && db.sessions[tokenHash].userId in db.users && db.users[db.sessions[tokenHash].userId].enabled
  }

  /** GetTerminal finds the row: owned, not ended, not expired. */
  predicate Open(db: Db, now: string, terminal: string, userId: string) {
    && terminal in db.terminals && db.terminals[terminal].userId == userId && db.terminals[terminal].status != Ended
    && Timestamps.Less(now, db.terminals[terminal].expiresAt)
  }

  /** Rows stay, nothing but revocation changes, and revocation is final. */
  ghost predicate SessionsOnlyEnd(before: map<string, SessionRow>, after: map<string, SessionRow>) {
    forall h :: h in before ==> h in after && (after[h] == before[h] || after[h] == before[h].(revoked := true))
  }

  lemma UserOpOnlyEndsSessions(db: Db, op: UserOp)
    requires Valid(db)
    ensures SessionsOnlyEnd(db.sessions, ApplyUser(db, op).sessions) && db.users.Keys <= ApplyUser(db, op).users.Keys
  {
    hide Valid, AfterSeed, AfterCreateUser, AfterBootstrap, AfterUpdateUser, AfterRecover;
    match op
    case Seed => if AfterSeed(db, CATALOG, SEEDS).Some? { SeedKeepsValid(db, CATALOG, SEEDS); }
    case CreateUser(id, n, h, rs, e) =>
      if AfterCreateUser(db, id, n, h, rs, e).Some? { CreateUserKeepsValid(db, id, n, h, rs, e); }
    case Bootstrap(id, n, h) => if AfterBootstrap(db, id, n, h).Some? { BootstrapKeepsValid(db, id, n, h); }
    case UpdateUser(id, e, rs, p) => if AfterUpdateUser(db, id, e, rs, p).Done? { UpdateUserEffects(db, id, e, rs, p); }
    case Recover(f, h, a, t) => if AfterRecover(db, f, h, a, t).Some? { RecoverKeepsValid(db, f, h, a, t); }
  }

  lemma SessionOpOnlyEndsSessions(db: Db, op: SessionOp)
    ensures SessionsOnlyEnd(db.sessions, ApplySession(db, op).sessions) && ApplySession(db, op).users == db.users
  {
  }

  lemma ApplyOnlyEndsSessions(s: System, op: Op)
    requires Inv(s)
    ensures SessionsOnlyEnd(s.db.sessions, Apply(s, op).db.sessions) && s.db.users.Keys <= Apply(s, op).db.users.Keys
  {
    hide Valid, ClearedKept, ApplyUser, ApplySession, ApplyRole, ApplyPolicy, ApplyOther;
    match op
    case OnUsers(u) => UserOpOnlyEndsSessions(s.db, u);
    case OnSessions(x) => SessionOpOnlyEndsSessions(s.db, x);
    case OnRoles(r) => RoleOpFrame(s, r);
    case OnPolicies(p) => PolicyOpKeeps(s.db, p);
    case OnOthers(o) => OtherOpKeeps(s.db, o);
  }

  lemma {:induction false} RunOnlyEndsSessions(s: System, ops: seq<Op>)
    requires Inv(s)
    ensures SessionsOnlyEnd(s.db.sessions, Run(s, ops).db.sessions) && s.db.users.Keys <= Run(s, ops).db.users.Keys
  {
    if ops != [] {
      RunOnlyEndsSessions(s, ops[..|ops| - 1]);
      RunKeepsInv(s, ops[..|ops| - 1]);
      ApplyOnlyEndsSessions(Run(s, ops[..|ops| - 1]), ops[|ops| - 1]);
    }
  }

  /** A revoked session never resolves again, and no continuation changes whose it is or when it expires. */
  lemma {:induction false} RevokedForever(s: System, ops: seq<Op>, h: string, now: string)
    requires Inv(s) && h in s.db.sessions
    ensures s.db.sessions[h].revoked ==> !Resolves(Run(s, ops).db, h, now)
    ensures Resolves(Run(s, ops).db, h, now) ==> Timestamps.Less(now, s.db.sessions[h].expiresAt)
  {
    RunOnlyEndsSessions(s, ops);
  }

  /** Does `op`, carried out on `db`, set a new password for `user`? */
  ghost predicate ChangesPassword(db: Db, op: UserOp, user: string) {
    || (op.UpdateUser? && op.id == user && op.password.Some?
        && AfterUpdateUser(db, op.id, op.enable, op.assign, op.password).Done?)
    || (op.Recover? && op.found == Some(user) && AfterRecover(db, op.found, op.hash, op.auditId, op.timestamp).Some?)
  }

  lemma PasswordChangeRevokes(db: Db, op: UserOp, user: string, h: string)
    requires ChangesPassword(db, op, user) && h in db.sessions && db.sessions[h].userId == user
    ensures h in ApplyUser(db, op).sessions && ApplyUser(db, op).sessions[h].revoked
  {
    hide CanAssign, Selection, LosesLastAdmin, WithoutUser;
    assert RevokeAllOf(db.sessions, user)[h].revoked;
  }

  /** After a successful password change or recovery, no token created earlier for that user ever resolves. */
  lemma {:induction false} PasswordChangeEndsSessions(s: System, op: UserOp, user: string, ops: seq<Op>, h: string,
                                                      now: string)
    requires Inv(s) && ChangesPassword(s.db, op, user)
    requires h in s.db.sessions && s.db.sessions[h].userId == user
    ensures !Resolves(Run(Apply(s, OnUsers(op)), ops).db, h, now)
  {
    ApplyKeepsInv(s, OnUsers(op));
    PasswordChangeRevokes(s.db, op, user, h);
    RevokedForever(Apply(s, OnUsers(op)), ops, h, now);
  }

  /** Live but for the clock: not revoked, and the user is enabled now. */
  predicate Standing(db: Db, h: string) {
    h in db.sessions && !db.sessions[h].revoked && db.sessions[h].userId in db.users
    && db.users[db.sessions[h].userId].enabled
  }

  /**
    Lifetime in real time: a session created to expire at instant `e` never resolves a second or more
    later in any continuation, and while a second or more remains it resolves exactly when it is standing.
   */
  lemma {:induction false} SessionLifetime(s: System, ops: seq<Op>, h: string, e: int, now: int)
    requires Inv(s) && h in s.db.sessions
    requires Timestamps.InRange(e) && Timestamps.InRange(now) && s.db.sessions[h].expiresAt == Timestamps.Format(e)
    ensures Resolves(Run(s, ops).db, h, Timestamps.Format(now)) ==>
              Standing(Run(s, ops).db, h) && now < e + Timestamps.NANOS
    ensures now + Timestamps.NANOS <= e ==>
              (Resolves(Run(s, ops).db, h, Timestamps.Format(now)) <==> Standing(Run(s, ops).db, h))
  {
    RunOnlyEndsSessions(s, ops);
    LifetimeAt(Run(s, ops).db, h, e, now);
  }

  lemma LifetimeAt(db: Db, h: string, e: int, now: int)
    requires h in db.sessions
    requires Timestamps.InRange(e) && Timestamps.InRange(now) && db.sessions[h].expiresAt == Timestamps.Format(e)
    ensures Resolves(db, h, Timestamps.Format(now)) ==> Standing(db, h) && now < e + Timestamps.NANOS
    ensures now + Timestamps.NANOS <= e ==> (Resolves(db, h, Timestamps.Format(now)) <==> Standing(db, h))
  {
    Timestamps.ExpiryWithinASecond(e, now);
  }

  /** Once any user exists, bootstrapping fails in every later state. */
  lemma {:induction false} BootstrapOnlyOnce(s: System, ops: seq<Op>, id: string, username: string,
                                             hash: Option<string>)
    requires Inv(s) && s.db.users != map[]
    ensures AfterBootstrap(Run(s, ops).db, id, username, hash).None?
  {
    RunOnlyEndsSessions(s, ops);
    var u :| u in s.db.users;
    assert u in Run(s, ops).db.users;
  }
}
