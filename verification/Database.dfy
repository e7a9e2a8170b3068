/**
  The tables of the store and the effect of every transaction on them. Texts are byte strings.
  A failed transaction leaves the tables as they were (one connection, rollback on error), so an
  effect is an optional new state.
 */
module Database {
  import opened Wrappers
  import opened Records

  datatype UserRow = UserRow(username: string, passwordHash: string, enabled: bool)
  datatype RoleRow = RoleRow(name: string, description: string, builtin: bool)
  /** `revoked` stands for "revoked_at IS NOT NULL". */
  datatype SessionRow = SessionRow(userId: string, csrfHash: string, expiresAt: string, revoked: bool)
  datatype PolicyRow = PolicyRow(name: string, description: string, enabled: bool)
  datatype Status = Created | Attached | Ended
  datatype TerminalRow =
    TerminalRow(userId: string, containerId: string, shell: string, expiresAt: string, status: Status)

  datatype Db = Db(
    users: map<string, UserRow>,
    roles: map<string, RoleRow>,
    permissions: set<string>,
    rolePermissions: set<(string, string)>,
    userRoles: set<(string, string)>,
    sessions: map<string, SessionRow>,
    policies: map<string, PolicyRow>,
    rules: map<string, PolicyRule>,
    audit: map<string, string>,
    terminals: map<string, TerminalRow>)

  const EMPTY_DB := Db(map[], map[], {}, {}, {}, map[], map[], map[], map[], map[])

  // ----- Texts -----

  function FoldChar(c: char): char {
    if 'A' <= c <= 'Z' then c + 32 as char else c
  }

  function Fold(s: string): (r: string)
    ensures |r| == |s|
  {
    seq(|s|, i requires 0 <= i < |s| => FoldChar(s[i]))
  }

  /**
    SQLite's NOCASE collation. strings.EqualFold(s, "Admin") is the same relation, because no letter
    outside ASCII folds to one of a, d, m, i, n.
   */
  predicate NoCase(a: string, b: string) {
    Fold(a) == Fold(b)
  }

  function Truncate(s: string, n: nat): (r: string)
    ensures |s| <= n ==> r == s
  {
    if |s| > n then s[..n] else s
  }

  predicate Blank(s: string) {
    forall i :: 0 <= i < |s| ==> s[i] == ' ' || '\t' <= s[i] <= '\r'
  }

  predicate UsernameChar(c: char, first: bool) {
    'a' <= c <= 'z' || 'A' <= c <= 'Z' || ('0' <= c <= '9' && !first) || c == '_' || c == '-' || c == '.'
  }

  predicate ValidUsername(s: string) {
    3 <= |s| <= 64 && forall i :: 0 <= i < |s| ==> UsernameChar(s[i], i == 0)
  }

  // ----- Constraints -----

  const VIEWER_ID := "role-viewer"
  const VIEWER_NAME := "Viewer"
  const DEVELOPER_ID := "role-developer"
  const DEVELOPER_NAME := "Developer"
  const ADMIN_ID := "role-admin"
  const ADMIN_NAME := "Admin"

  ghost predicate UniqueUsernames(users: map<string, UserRow>) {
    forall i, j :: i in users && j in users && NoCase(users[i].username, users[j].username) ==> i == j
  }

  ghost predicate UniqueRoleNames(roles: map<string, RoleRow>) {
    forall i, j :: i in roles && j in roles && NoCase(roles[i].name, roles[j].name) ==> i == j
  }

  ghost predicate UniquePolicyNames(policies: map<string, PolicyRow>) {
    forall i, j :: i in policies && j in policies && policies[i].name == policies[j].name ==> i == j
  }

  predicate Builtin(roles: map<string, RoleRow>, id: string, name: string) {
    id in roles && roles[id].builtin && roles[id].name == name
  }

  predicate BuiltinsKept(roles: map<string, RoleRow>) {
    Builtin(roles, VIEWER_ID, VIEWER_NAME) && Builtin(roles, DEVELOPER_ID, DEVELOPER_NAME)
    && Builtin(roles, ADMIN_ID, ADMIN_NAME)
  }

  ghost predicate UserRolesKeyed(userRoles: set<(string, string)>, users: map<string, UserRow>,
                                 roles: map<string, RoleRow>) {
    forall p :: p in userRoles ==> p.0 in users && p.1 in roles
  }

  ghost predicate RolePermissionsKeyed(rolePermissions: set<(string, string)>, roles: map<string, RoleRow>,
                                       permissions: set<string>) {
    forall p :: p in rolePermissions ==> p.0 in roles && p.1 in permissions
  }

  ghost predicate SessionsKeyed(sessions: map<string, SessionRow>, users: map<string, UserRow>) {
    forall h :: h in sessions ==> sessions[h].userId in users
  }

  ghost predicate TerminalsKeyed(terminals: map<string, TerminalRow>, users: map<string, UserRow>) {
    forall t :: t in terminals ==> terminals[t].userId in users
  }

  /** Rules sit under their own id and name an existing policy, permission and role. */
  ghost predicate RulesKeyed(rules: map<string, PolicyRule>, policies: map<string, PolicyRow>, permissions: set<string>,
                             roles: map<string, RoleRow>) {
    forall r :: r in rules ==>
      && rules[r].id == r && rules[r].policyId in policies && rules[r].body.action in permissions
      && (rules[r].body.subjectRoleId == [] || rules[r].body.subjectRoleId in roles)
  }

  predicate SamePlace(a: PolicyRule, b: PolicyRule) {
    a.policyId == b.policyId && a.priority == b.priority
  }

  /** Inside one policy no two rules share a priority. */
  ghost predicate PrioritiesDistinct(rules: map<string, PolicyRule>) {
    forall r, s :: r in rules && s in rules && SamePlace(rules[r], rules[s]) ==> r == s
  }

  ghost predicate Valid(db: Db) {
    && UniqueUsernames(db.users) && UniqueRoleNames(db.roles) && UniquePolicyNames(db.policies)
    && BuiltinsKept(db.roles)
    && UserRolesKeyed(db.userRoles, db.users, db.roles)
    && RolePermissionsKeyed(db.rolePermissions, db.roles, db.permissions)
    && SessionsKeyed(db.sessions, db.users) && TerminalsKeyed(db.terminals, db.users)
    && RulesKeyed(db.rules, db.policies, db.permissions, db.roles) && PrioritiesDistinct(db.rules)
  }

  // ----- Seeding -----

  datatype SeedRole = SeedRole(id: string, name: string, description: string, permissions: seq<string>)

  /** INSERT OR IGNORE: skipped when the id or the name is taken. */
  ghost function InsertRoleOrIgnore(roles: map<string, RoleRow>, s: SeedRole): map<string, RoleRow> {
    if s.id in roles || NameTaken(roles, s.name, s.id) then roles
    else roles[s.id := RoleRow(s.name, s.description, true)]
  }

  predicate NameTaken(roles: map<string, RoleRow>, name: string, id: string) {
    exists j :: j in roles && j != id && NoCase(roles[j].name, name)
  }

  ghost function SeedOne(db: Db, s: SeedRole): Option<Db> {
    var roles := InsertRoleOrIgnore(db.roles, s);
    if s.permissions != [] && (s.id !in roles || exists p :: p in s.permissions && p !in db.permissions) then None
    else Some(db.(roles := roles, rolePermissions := db.rolePermissions + set p | p in s.permissions :: (s.id, p)))
  }

  ghost function SeedAll(db: Db, seeds: seq<SeedRole>): Option<Db> {
    if seeds == [] then Some(db) else
      var before := SeedAll(db, seeds[..|seeds| - 1]);
      if before.None? then None else SeedOne(before.value, seeds[|seeds| - 1])
  }

  ghost function AfterSeed(db: Db, catalog: seq<string>, seeds: seq<SeedRole>): Option<Db> {
    SeedAll(db.(permissions := db.permissions + set p | p in catalog), seeds)
  }

  const READ_PERMISSIONS: seq<string> := ["container.read", "container.inspect", "container.stats", "container.logs"]

  const CATALOG: seq<string> :=
    READ_PERMISSIONS +
    ["container.exec", "container.restart", "secret.view", "user.read", "user.manage", "role.read", "role.manage",
     "permission.read", "policy.read", "policy.manage", "audit.read", "settings.read", "settings.manage"]

  const SEEDS: seq<SeedRole> :=
    [SeedRole(VIEWER_ID, VIEWER_NAME, "Read-only container troubleshooting", READ_PERMISSIONS),
     SeedRole(DEVELOPER_ID, DEVELOPER_NAME, "Viewer plus privileged terminal access",
              READ_PERMISSIONS + ["container.exec"]),
     SeedRole(ADMIN_ID, ADMIN_NAME, "Full administrative access", CATALOG)]

  // ----- Users -----

  predicate Selects(id: string, row: RoleRow, role: string) {
    id == role || NoCase(row.name, role)
  }

  /** The role ids that a list of ids or names refers to. */
  ghost function Selection(roles: map<string, RoleRow>, names: seq<string>): set<string> {
    set id | id in roles && exists i :: 0 <= i < |names| && Selects(id, roles[id], names[i])
  }

  ghost predicate Known(roles: map<string, RoleRow>, name: string) {
    exists id :: id in roles && Selects(id, roles[id], name)
  }

  ghost predicate Clash(roles: map<string, RoleRow>, a: string, b: string) {
    exists id :: id in roles && Selects(id, roles[id], a) && Selects(id, roles[id], b)
  }

  /** Every name refers to some role, no role is meant twice, none is assigned already. */
  ghost predicate CanAssign(db: Db, user: string, names: seq<string>) {
    && (names != [] ==> user in db.users)
    && (forall i :: 0 <= i < |names| ==> Known(db.roles, names[i]))
    && (forall i, j :: 0 <= i < j < |names| ==> !Clash(db.roles, names[i], names[j]))
    && (forall id :: id in Selection(db.roles, names) ==> (user, id) !in db.userRoles)
  }

  ghost function Assigned(db: Db, user: string, names: seq<string>): Db {
    db.(userRoles := db.userRoles + set id | id in Selection(db.roles, names) :: (user, id))
  }

  predicate UsernameTaken(users: map<string, UserRow>, username: string) {
    exists u :: u in users && NoCase(users[u].username, username)
  }

  /** `hash` is the outcome of HashPassword. */
  ghost function AfterCreateUser(db: Db, id: string, username: string, hash: Option<string>, names: seq<string>,
                                 enabled: bool): Option<Db> {
    if !ValidUsername(username) || hash.None? || id in db.users || UsernameTaken(db.users, username) then None else
      var tx := db.(users := db.users[id := UserRow(username, hash.value, enabled)]);
      if CanAssign(tx, id, names) then Some(Assigned(tx, id, names)) else None
  }

  ghost function AfterBootstrap(db: Db, id: string, username: string, hash: Option<string>): Option<Db> {
    if !ValidUsername(username) || hash.None? || db.users != map[] || ADMIN_ID !in db.roles
       || (id, ADMIN_ID) in db.userRoles then None
    else Some(db.(users := map[id := UserRow(username, hash.value, true)],
                  userRoles := db.userRoles + {(id, ADMIN_ID)}))
  }

  /** The users the guard counts: enabled holders of the seeded administrator role. */
  function EnabledAdmins(db: Db): set<string> {
    set u | u in db.users && db.users[u].enabled && (u, ADMIN_ID) in db.userRoles
  }

  predicate NamesAdmin(name: string) {
    name == ADMIN_ID || NoCase(name, ADMIN_NAME)
  }

  ghost predicate KeepsAdmin(names: Option<seq<string>>) {
    names.None? || exists i :: 0 <= i < |names.value| && NamesAdmin(names.value[i])
  }

  function RevokeAllOf(sessions: map<string, SessionRow>, user: string): map<string, SessionRow> {
    map h | h in sessions :: if sessions[h].userId == user then sessions[h].(revoked := true) else sessions[h]
  }

  datatype Outcome = Done(db: Db) | LastAdmin | Failed

  ghost predicate LosesLastAdmin(db: Db, id: string, enable: Option<bool>, names: Option<seq<string>>) {
    id in EnabledAdmins(db) && (enable == Some(false) || !KeepsAdmin(names)) && |EnabledAdmins(db)| <= 1
  }

  function SetEnabled(users: map<string, UserRow>, id: string, enable: Option<bool>): map<string, UserRow> {
    if enable.Some? && id in users then users[id := users[id].(enabled := enable.value)] else users
  }

  function SetHash(users: map<string, UserRow>, id: string, hash: string): map<string, UserRow> {
    if id in users then users[id := users[id].(passwordHash := hash)] else users
  }

  function WithoutUser(userRoles: set<(string, string)>, user: string): set<(string, string)> {
    set p | p in userRoles && p.0 != user
  }

  /**
    `password` is None when no new password is given, else the outcome of hashing it; `names` is None for a
    nil slice.
   */
  ghost function AfterUpdateUser(db: Db, id: string, enable: Option<bool>, names: Option<seq<string>>,
                                 password: Option<Option<string>>): Outcome {
    if LosesLastAdmin(db, id, enable, names) then LastAdmin
    else if password.Some? && password.value.None? then Failed
    else
      var tx := db.(users := SetEnabled(db.users, id, enable));
      var tx1 := if password.None? then tx
                 else tx.(users := SetHash(tx.users, id, password.value.value),
                          sessions := RevokeAllOf(tx.sessions, id));
      if names.None? then Done(tx1) else
        var tx2 := tx1.(userRoles := WithoutUser(tx1.userRoles, id));
        if CanAssign(tx2, id, names.value) then Done(Assigned(tx2, id, names.value)) else Failed
  }

  predicate IsUserNamed(db: Db, username: string, id: string) {
    id in db.users && NoCase(db.users[id].username, username)
  }

  /** `id` is the user the name lookup found, None when there is none. */
  ghost function AfterRecover(db: Db, id: Option<string>, hash: Option<string>, auditId: string,
                              timestamp: string): Option<Db> {
    if hash.None? || id.None? || id.value !in db.users || !db.users[id.value].enabled || auditId in db.audit then None
    else Some(db.(users := SetHash(db.users, id.value, hash.value), sessions := RevokeAllOf(db.sessions, id.value),
                  audit := db.audit[auditId := timestamp]))
  }

  // ----- Sessions -----

  function AfterCreateSession(db: Db, tokenHash: string, userId: string, csrfHash: string,
                              expiresAt: string): Option<Db> {
    if tokenHash in db.sessions || userId !in db.users then None
    else Some(db.(sessions := db.sessions[tokenHash := SessionRow(userId, csrfHash, expiresAt, false)]))
  }

  function AfterRevoke(db: Db, tokenHash: string): Db {
    if tokenHash in db.sessions
    then db.(sessions := db.sessions[tokenHash := db.sessions[tokenHash].(revoked := true)]) else db
  }

  function AfterRevokeUser(db: Db, user: string): Db {
    db.(sessions := RevokeAllOf(db.sessions, user))
  }

  // ----- Roles: SaveRole is a check, a bare write and a transaction -----

  predicate ValidRoleName(name: string) {
    !Blank(name) && |name| <= 64
  }

  ghost function AfterInsertRole(db: Db, id: string, name: string, description: string): Option<Db> {
    if !ValidRoleName(name) || id in db.roles || NameTaken(db.roles, name, id) then None
    else Some(db.(roles := db.roles[id := RoleRow(name, Truncate(description, 500), false)]))
  }

  /** The SELECT before the UPDATE: the role exists and a builtin one keeps its name. */
  predicate MayWriteRole(db: Db, id: string, name: string) {
    ValidRoleName(name) && id in db.roles && !(db.roles[id].builtin && db.roles[id].name != name)
  }

  ghost function AfterWriteRole(db: Db, id: string, name: string, description: string): Option<Db> {
    if id !in db.roles then Some(db)
    else if NameTaken(db.roles, name, id) then None
    else Some(db.(roles := db.roles[id := db.roles[id].(name := name, description := Truncate(description, 500))]))
  }

  function WithoutRole(pairs: set<(string, string)>, id: string): set<(string, string)> {
    set p | p in pairs && p.0 != id
  }

  /** Every permission known, none listed twice, and the role exists if there is anything to insert. */
  ghost predicate CanGrant(db: Db, id: string, granted: seq<string>) {
    && (granted != [] ==> id in db.roles)
    && (forall i :: 0 <= i < |granted| ==> granted[i] in db.permissions)
    && (forall i, j :: 0 <= i < j < |granted| ==> granted[i] != granted[j])
  }

  ghost function AfterSetPermissions(db: Db, id: string, granted: seq<string>): Option<Db> {
    if CanGrant(db, id, granted)
    then Some(db.(rolePermissions := WithoutRole(db.rolePermissions, id) + set p | p in granted :: (id, p)))
    else None
  }

  function WithoutHolders(userRoles: set<(string, string)>, role: string): set<(string, string)> {
    set p | p in userRoles && p.1 != role
  }

  function RulesNotNaming(rules: map<string, PolicyRule>, role: string): map<string, PolicyRule> {
    map r | r in rules && rules[r].body.subjectRoleId != role :: rules[r]
  }

  /** Deleting a custom role cascades to its permissions, its holders and the rules that name it. */
  function AfterDeleteRole(db: Db, id: string): Option<Db> {
    if id !in db.roles || db.roles[id].builtin then None
    else Some(db.(roles := db.roles - {id},
                  rolePermissions := WithoutRole(db.rolePermissions, id),
                  userRoles := WithoutHolders(db.userRoles, id),
                  rules := RulesNotNaming(db.rules, id)))
  }

  // ----- Policies -----

  predicate ValidBody(b: RuleBody) {
    (b.effect.Allow? || b.effect.Deny?) && (b.matchType.ByName? || b.matchType.ByLabel?) && |b.matchValue| <= 128
    && '[' !in b.matchValue
  }

  /** The row written for rule number `i`; an empty id is replaced by a generated one. */
  function StoredRule(r: PolicyRule, i: nat, policyId: string, generated: string): PolicyRule {
    PolicyRule(if r.id == [] then generated else r.id, policyId, r.body.(matchKey := Truncate(r.body.matchKey, 128)), i)
  }

  function StoredRules(rules: seq<PolicyRule>, policyId: string, generated: seq<string>): (s: seq<PolicyRule>)
    requires |generated| == |rules|
    ensures |s| == |rules|
  {
    seq(|rules|, i requires 0 <= i < |rules| => StoredRule(rules[i], i, policyId, generated[i]))
  }

  function RulesOutside(rules: map<string, PolicyRule>, policyId: string): map<string, PolicyRule> {
    map r | r in rules && rules[r].policyId != policyId :: rules[r]
  }

  /** What the INSERT of rule number `i` needs, given that the rules before it went in. */
  predicate RuleFits(db: Db, rules: seq<PolicyRule>, s: seq<PolicyRule>, policyId: string, i: nat)
    requires i < |rules| == |s|
  {
    && ValidBody(rules[i].body) && s[i].body.action in db.permissions
    && (s[i].body.subjectRoleId == [] || s[i].body.subjectRoleId in db.roles)
    && s[i].id !in RulesOutside(db.rules, policyId)
    && forall j :: 0 <= j < i ==> s[j].id != s[i].id
  }

  ghost predicate CanStore(db: Db, rules: seq<PolicyRule>, s: seq<PolicyRule>, policyId: string)
    requires |s| == |rules|
  {
    forall i :: 0 <= i < |rules| ==> RuleFits(db, rules, s, policyId, i)
  }

  predicate PolicyNameTaken(policies: map<string, PolicyRow>, name: string, id: string) {
    exists j :: j in policies && j != id && policies[j].name == name
  }

  function ById(s: seq<PolicyRule>): map<string, PolicyRule> {
    if s == [] then map[] else ById(s[..|s| - 1])[s[|s| - 1].id := s[|s| - 1]]
  }

  /** `id` is the policy's own id or the generated one, `generated` the ids drawn for rules without one. */
  ghost function AfterSavePolicy(db: Db, p: Policy, id: string, generated: seq<string>): Option<Db>
    requires |generated| == |p.rules|
  {
    var s := StoredRules(p.rules, id, generated);
    if Blank(p.name) || |p.name| > 100 || PolicyNameTaken(db.policies, p.name, id) || !CanStore(db, p.rules, s, id)
    then None
    else Some(db.(policies := db.policies[id := PolicyRow(p.name, Truncate(p.description, 500), p.enabled)],
                  rules := RulesOutside(db.rules, id) + ById(s)))
  }

  function AfterDeletePolicy(db: Db, id: string): Db {
    db.(policies := db.policies - {id}, rules := RulesOutside(db.rules, id))
  }

  // ----- Terminals -----

  function AfterCreateTerminal(db: Db, id: string, userId: string, containerId: string, shell: string,
                               expiresAt: string): Option<Db> {
    if id in db.terminals || userId !in db.users then None
    else Some(db.(terminals := db.terminals[id := TerminalRow(userId, containerId, shell, expiresAt, Created)]))
  }

  function AfterTouch(db: Db, id: string, status: Status): Db {
    if id in db.terminals then db.(terminals := db.terminals[id := db.terminals[id].(status := status)]) else db
  }
}
