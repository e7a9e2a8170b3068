/** Records shared by the store and the policy evaluator. */
module Records {
  datatype User = User(id: string, username: string, enabled: bool,
                       roles: seq<string>, roleIds: seq<string>, permissions: seq<string>)
  /** The texts "allow" and "deny", and whatever else a caller may submit. */
  datatype Effect = Allow | Deny | OtherEffect(text: string)
  /** The texts "name" and "label", and whatever else a caller may submit. */
  datatype MatchType = ByName | ByLabel | OtherMatch(text: string)
  /** The part of a rule that evaluation reads; `subjectRoleId` is empty for "everyone". */
  datatype RuleBody = RuleBody(effect: Effect, action: string, subjectRoleId: string,
                               matchType: MatchType, matchKey: string, matchValue: string)
  datatype PolicyRule = PolicyRule(id: string, policyId: string, body: RuleBody, priority: int)
  datatype Policy = Policy(id: string, name: string, description: string, enabled: bool, rules: seq<PolicyRule>)
}

/**
  Policy evaluation: immutable labels first, then explicit denies, then role permissions.
  `Glob` stands for path.Match with its error read as "no match".
 */
module Policies {
  import opened Wrappers
  import opened Records

  type Glob = (string, string) -> bool

  datatype Resource = Resource(name: string, labels: map<string, string>, system: bool, isProtected: bool)
  datatype Reason = SystemImmutable | ProtectedImmutable | PolicyDeny(policy: string) | MissingPermission
                  | PolicyAllow | RolePermission
  datatype Decision = Decision(allowed: bool, reason: Reason)

  const EXEC := "container.exec"
  const RESTART := "container.restart"

  predicate Mutating(action: string) {
    action == EXEC || action == RESTART
  }

  predicate Immutable(res: Resource, action: string) {
    (res.system || res.isProtected) && Mutating(action)
  }

  /** A missing label reads as the empty text. */
  predicate Matches(rule: RuleBody, res: Resource, glob: Glob) {
    if rule.matchType.ByLabel? then
      (if rule.matchKey in res.labels then res.labels[rule.matchKey] else "") == rule.matchValue
    else
      rule.matchType.ByName? && '/' !in rule.matchValue && glob(rule.matchValue, res.name)
  }

  predicate Applies(rule: RuleBody, user: User, action: string, res: Resource, glob: Glob) {
    && rule.action == action
    && (rule.subjectRoleId == [] || rule.subjectRoleId in user.roles || rule.subjectRoleId in user.roleIds)
    && Matches(rule, res, glob)
  }

  // ----- What a decision means, without order -----

  ghost function Bodies(rules: seq<PolicyRule>): set<RuleBody> {
    set r | r in rules :: r.body
  }

  /** An enabled policy with an applicable rule of the given effect. */
  ghost predicate Has(p: Policy, effect: Effect, user: User, action: string, res: Resource, glob: Glob) {
    p.enabled && exists b :: b in Bodies(p.rules) && b.effect == effect && Applies(b, user, action, res, glob)
  }

  /** The first policy in the list that denies. */
  ghost function FirstDenier(all: seq<Policy>, user: User, action: string, res: Resource, glob: Glob): Option<string> {
    if all == [] then None
    else if Has(all[0], Deny, user, action, res, glob) then Some(all[0].name)
    else FirstDenier(all[1..], user, action, res, glob)
  }

  ghost predicate SomeAllow(all: seq<Policy>, user: User, action: string, res: Resource, glob: Glob) {
    exists i :: 0 <= i < |all| && Has(all[i], Allow, user, action, res, glob)
  }

  ghost function Decide(user: User, action: string, res: Resource, all: seq<Policy>, glob: Glob): Decision {
    var denier := FirstDenier(all, user, action, res, glob);
    if res.system && Immutable(res, action) then Decision(false, SystemImmutable)
    else if Immutable(res, action) then Decision(false, ProtectedImmutable)
    else if denier.Some? then Decision(false, PolicyDeny(denier.value))
    else if action !in user.permissions then Decision(false, MissingPermission)
    else if SomeAllow(all, user, action, res, glob) then Decision(true, PolicyAllow)
    else Decision(true, RolePermission)
  }

  /** The inner loop: stops at the first applicable deny, and otherwise reports whether an allow applied. */
  method ScanRules(rules: seq<PolicyRule>, roles: set<string>, user: User, action: string, res: Resource, glob: Glob)
    returns (denied: bool, allow: bool)
    requires forall r :: r in roles <==> r in user.roles || r in user.roleIds
    ensures denied <==> exists b :: b in Bodies(rules) && b.effect == Deny && Applies(b, user, action, res, glob)
    ensures !denied ==>
              (allow <==> exists b :: b in Bodies(rules) && b.effect == Allow && Applies(b, user, action, res, glob))
  {
    allow := false;
    for j := 0 to |rules|
      invariant forall b :: b in Bodies(rules[..j]) ==> !(b.effect == Deny && Applies(b, user, action, res, glob))
      invariant allow
                <==> exists b :: b in Bodies(rules[..j]) && b.effect == Allow && Applies(b, user, action, res, glob)
    {
      var rule := rules[j].body;
      BodiesExtend(rules, j);
      if rule.action != action || (rule.subjectRoleId != [] && rule.subjectRoleId !in roles)
         || !Matches(rule, res, glob) {
        continue;
      }
      if rule.effect == Deny {
        return true, false;
      }
      if rule.effect == Allow {
        allow := true;
      }
    }
    assert rules[..|rules|] == rules;
    denied := false;
  }

  // ----- What a decision means, in terms of the rules as they are written -----

  /** The rule binds this caller, action and container. */
  ghost predicate Binds(b: RuleBody, user: User, action: string, res: Resource, glob: Glob) {
    && b.action == action
    && (b.subjectRoleId == "" || b.subjectRoleId in user.roles || b.subjectRoleId in user.roleIds)
    && match b.matchType
       case ByLabel => if b.matchKey in res.labels then res.labels[b.matchKey] == b.matchValue else b.matchValue == ""
       case ByName => (forall i :: 0 <= i < |b.matchValue| ==> b.matchValue[i] != '/') && glob(b.matchValue, res.name)
       case OtherMatch(_) => false
  }

  /** An enabled policy with a rule of that effect that binds. */
  ghost predicate BoundBy(p: Policy, effect: Effect, user: User, action: string, res: Resource, glob: Glob) {
    p.enabled && exists j :: 0 <= j < |p.rules| && p.rules[j].body.effect == effect
                             && Binds(p.rules[j].body, user, action, res, glob)
  }

  ghost predicate SomeBinds(all: seq<Policy>, effect: Effect, user: User, action: string, res: Resource, glob: Glob) {
    exists i :: 0 <= i < |all| && BoundBy(all[i], effect, user, action, res, glob)
  }

  /** The name is that of the first policy in the list that denies. */
  ghost predicate FirstToDeny(all: seq<Policy>, name: string, user: User, action: string, res: Resource, glob: Glob) {
    exists i :: 0 <= i < |all| && all[i].name == name && BoundBy(all[i], Deny, user, action, res, glob)
                && forall j :: 0 <= j < i ==> !BoundBy(all[j], Deny, user, action, res, glob)
  }

  ghost predicate ExecOrRestart(action: string) {
    action == "container.exec" || action == "container.restart"
  }

  lemma BindsApplies(b: RuleBody, user: User, action: string, res: Resource, glob: Glob)
    ensures Binds(b, user, action, res, glob) <==> Applies(b, user, action, res, glob)
  {
    if exists i :: 0 <= i < |b.matchValue| && b.matchValue[i] == '/' { assert '/' in b.matchValue; }
  }

  lemma BoundHas(p: Policy, effect: Effect, user: User, action: string, res: Resource, glob: Glob)
    ensures BoundBy(p, effect, user, action, res, glob) <==> Has(p, effect, user, action, res, glob)
  {
    forall b { BindsApplies(b, user, action, res, glob); }
    hide Binds, Applies;
    if BoundBy(p, effect, user, action, res, glob) {
      var j :| 0 <= j < |p.rules| && p.rules[j].body.effect == effect
      && Binds(p.rules[j].body, user, action, res, glob);
      assert p.rules[j] in p.rules && p.rules[j].body in Bodies(p.rules);
    }
    if Has(p, effect, user, action, res, glob) {
      var b :| b in Bodies(p.rules) && b.effect == effect && Applies(b, user, action, res, glob);
      var r :| r in p.rules && r.body == b;
      var j :| 0 <= j < |p.rules| && p.rules[j] == r;
    }
  }

  lemma {:induction false} FirstDenierMeans(all: seq<Policy>, user: User, action: string, res: Resource, glob: Glob)
    ensures FirstDenier(all, user, action, res, glob).None? <==> !SomeBinds(all, Deny, user, action, res, glob)
    ensures FirstDenier(all, user, action, res, glob).Some? ==>
              FirstToDeny(all, FirstDenier(all, user, action, res, glob).value, user, action, res, glob)
  {
    hide BoundBy, Has;
    if all != [] {
      BoundHas(all[0], Deny, user, action, res, glob);
      FirstDenierMeans(all[1..], user, action, res, glob);
      forall i | 0 <= i < |all| - 1 ensures all[1..][i] == all[i + 1] {}
      if BoundBy(all[0], Deny, user, action, res, glob) {
      } else if SomeBinds(all[1..], Deny, user, action, res, glob) {
        var name := FirstDenier(all[1..], user, action, res, glob).value;
        var i :| 0 <= i < |all| - 1 && all[1..][i].name == name && BoundBy(all[1..][i], Deny, user, action, res, glob)
                 && forall j :: 0 <= j < i ==> !BoundBy(all[1..][j], Deny, user, action, res, glob);
        forall j | 0 <= j < i + 1 ensures !BoundBy(all[j], Deny, user, action, res, glob) {
          if j > 0 { assert all[j] == all[1..][j - 1]; }
        }
        assert all[i + 1] == all[1..][i];
      } else {
        forall i | 0 <= i < |all| ensures !BoundBy(all[i], Deny, user, action, res, glob) {
          if i > 0 { assert all[i] == all[1..][i - 1]; }
        }
      }
    }
  }

  lemma SomeAllowMeans(all: seq<Policy>, user: User, action: string, res: Resource, glob: Glob)
    ensures SomeAllow(all, user, action, res, glob) <==> SomeBinds(all, Allow, user, action, res, glob)
  {
    hide BoundBy, Has;
    forall i | 0 <= i < |all|
      ensures BoundBy(all[i], Allow, user, action, res, glob) == Has(all[i], Allow, user, action, res, glob)
    {
      BoundHas(all[i], Allow, user, action, res, glob);
    }
  }

  /** The verdict and its reason, branch by branch. */
  ghost predicate Means(d: Decision, user: User, action: string, res: Resource, all: seq<Policy>, glob: Glob) {
    var immutable := (res.system || res.isProtected) && ExecOrRestart(action);
    var denied, permitted := SomeBinds(all, Deny, user, action, res, glob), action in user.permissions;
    && (d.allowed <==> !immutable && !denied && permitted)
    && match d.reason
       case SystemImmutable => res.system && immutable
       case ProtectedImmutable => !res.system && immutable
       case PolicyDeny(name) => !immutable && FirstToDeny(all, name, user, action, res, glob)
       case MissingPermission => !immutable && !denied && !permitted
       case PolicyAllow => d.allowed && SomeBinds(all, Allow, user, action, res, glob)
       case RolePermission => d.allowed && !SomeBinds(all, Allow, user, action, res, glob)
  }

  lemma DecideMeans(user: User, action: string, res: Resource, all: seq<Policy>, glob: Glob)
    ensures Means(Decide(user, action, res, all, glob), user, action, res, all, glob)
  {
    hide SomeBinds, FirstToDeny, SomeAllow, FirstDenier;
    FirstDenierMeans(all, user, action, res, glob);
    SomeAllowMeans(all, user, action, res, glob);
  }

  /** The nested loops with their early return compute the decision. */
  method Evaluate(user: User, action: string, res: Resource, all: seq<Policy>, glob: Glob) returns (d: Decision)
    ensures d == Decide(user, action, res, all, glob)
    ensures Means(d, user, action, res, all, glob)
  {
    DecideMeans(user, action, res, all, glob);
    hide Means;
    if res.system && Mutating(action) {
      return Decision(false, SystemImmutable);
    }
    if res.isProtected && Mutating(action) {
      return Decision(false, ProtectedImmutable);
    }
    var hasPermission := Allowed(user, action);
    var explicitAllow := false;
    var roles := set r | r in user.roles;
    roles := roles + set r | r in user.roleIds;
    var i := 0;
    while i < |all|
      invariant i <= |all|
      invariant FirstDenier(all, user, action, res, glob) == FirstDenier(all[i..], user, action, res, glob)
      invariant explicitAllow <==> SomeAllow(all[..i], user, action, res, glob)
    {
      var p := all[i];
      ghost var before := explicitAllow;
      if p.enabled {
        var denied, allow := ScanRules(p.rules, roles, user, action, res, glob);
        if denied {
          return Decision(false, PolicyDeny(p.name));
        }
        explicitAllow := explicitAllow || allow;
      }
      assert explicitAllow <==> before || Has(p, Allow, user, action, res, glob);
      AllowExtend(all, i, user, action, res, glob);
      i := i + 1;
    }
    assert all[..i] == all;
    if !hasPermission {
      return Decision(false, MissingPermission);
    }
    if explicitAllow {
      return Decision(true, PolicyAllow);
    }
    d := Decision(true, RolePermission);
  }

  lemma AllowExtend(all: seq<Policy>, i: nat, user: User, action: string, res: Resource, glob: Glob)
    requires i < |all|
    ensures SomeAllow(all[..i + 1], user, action, res, glob)
            <==> SomeAllow(all[..i], user, action, res, glob) || Has(all[i], Allow, user, action, res, glob)
  {
    assert all[..i + 1][i] == all[i];
    if SomeAllow(all[..i], user, action, res, glob) {
      var j :| 0 <= j < i && Has(all[..i][j], Allow, user, action, res, glob);
      assert all[..i + 1][j] == all[..i][j];
    }
    if SomeAllow(all[..i + 1], user, action, res, glob) {
      var j :| 0 <= j < i + 1 && Has(all[..i + 1][j], Allow, user, action, res, glob);
      if j < i { assert all[..i][j] == all[..i + 1][j]; }
    }
  }

  lemma BodiesExtend(rules: seq<PolicyRule>, j: nat)
    requires j < |rules|
    ensures Bodies(rules[..j + 1]) == Bodies(rules[..j]) + {rules[j].body}
    ensures rules[j].body in Bodies(rules)
  {
    assert rules[..j + 1] == rules[..j] + [rules[j]];
    assert rules[j] in rules;
  }

  /** rbac.Allowed: a linear scan of the user's permissions. */
  method Allowed(user: User, permission: string) returns (ok: bool)
    ensures ok <==> permission in user.permissions
  {
    for i := 0 to |user.permissions|
      invariant permission !in user.permissions[..i]
    {
      if user.permissions[i] == permission {
        return true;
      }
    }
    ok := false;
  }

  // ----- Laws -----

  lemma {:induction false} NoDenier(all: seq<Policy>, user: User, action: string, res: Resource, glob: Glob)
    ensures FirstDenier(all, user, action, res, glob).None?
            <==> forall p :: p in all ==> !Has(p, Deny, user, action, res, glob)
  {
    if all != [] {
      NoDenier(all[1..], user, action, res, glob);
      assert all == [all[0]] + all[1..];
    }
  }

  /** Deny overrides: allowed exactly when no immutable label, the permission, and no enabled applicable deny. */
  lemma DenyOverrides(user: User, action: string, res: Resource, all: seq<Policy>, glob: Glob)
    ensures Decide(user, action, res, all, glob).allowed
            <==> && !Immutable(res, action)
                 && action in user.permissions
                 && forall p :: p in all ==> !Has(p, Deny, user, action, res, glob)
  {
    NoDenier(all, user, action, res, glob);
  }

  /** The verdict does not depend on the order of the policies. */
  lemma PolicyOrderIrrelevant(user: User, action: string, res: Resource, all: seq<Policy>, all': seq<Policy>,
                              glob: Glob)
    requires multiset(all) == multiset(all')
    ensures Decide(user, action, res, all, glob).allowed == Decide(user, action, res, all', glob).allowed
  {
    DenyOverrides(user, action, res, all, glob);
    DenyOverrides(user, action, res, all', glob);
    assert forall p :: p in all <==> p in multiset(all);
    assert forall p :: p in all' <==> p in multiset(all');
  }

  /** Equal names and switches, and the same rule bodies in any order and number. */
  ghost predicate SameMeaning(p: Policy, q: Policy) {
    p.name == q.name && p.enabled == q.enabled && Bodies(p.rules) == Bodies(q.rules)
  }

  ghost predicate SameMeanings(all: seq<Policy>, all': seq<Policy>) {
    |all| == |all'| && forall i :: 0 <= i < |all| ==> SameMeaning(all[i], all'[i])
  }

  /**
    Two callers and two lists that evaluation cannot tell apart: the same names, and at each place the same
    applicable effects.
   */
  ghost predicate Alike(user: User, all: seq<Policy>, user': User, all': seq<Policy>, action: string, res: Resource,
                        glob: Glob) {
    && |all| == |all'|
    && (action in user.permissions <==> action in user'.permissions)
    && forall i :: 0 <= i < |all| ==>
         && all[i].name == all'[i].name
         && Has(all[i], Deny, user, action, res, glob) == Has(all'[i], Deny, user', action, res, glob)
         && Has(all[i], Allow, user, action, res, glob) == Has(all'[i], Allow, user', action, res, glob)
  }

  lemma {:induction false} AlikeDenier(user: User, all: seq<Policy>, user': User, all': seq<Policy>, action: string,
                                       res: Resource, glob: Glob)
    requires Alike(user, all, user', all', action, res, glob)
    ensures FirstDenier(all, user, action, res, glob) == FirstDenier(all', user', action, res, glob)
  {
    if all != [] {
      forall i | 0 <= i < |all| - 1 ensures all[1..][i] == all[i + 1] && all'[1..][i] == all'[i + 1] {}
      AlikeDenier(user, all[1..], user', all'[1..], action, res, glob);
    }
  }

  lemma AlikeAllow(user: User, all: seq<Policy>, user': User, all': seq<Policy>, action: string, res: Resource,
                   glob: Glob)
    requires Alike(user, all, user', all', action, res, glob)
    ensures SomeAllow(all, user, action, res, glob) == SomeAllow(all', user', action, res, glob)
  {
    if SomeAllow(all, user, action, res, glob) {
      var i :| 0 <= i < |all| && Has(all[i], Allow, user, action, res, glob);
      assert Has(all'[i], Allow, user', action, res, glob);
    }
  }

  lemma AlikeDecides(user: User, all: seq<Policy>, user': User, all': seq<Policy>, action: string, res: Resource,
                     glob: Glob)
    requires Alike(user, all, user', all', action, res, glob)
    ensures Decide(user, action, res, all, glob) == Decide(user', action, res, all', glob)
  {
    AlikeDenier(user, all, user', all', action, res, glob);
    AlikeAllow(user, all, user', all', action, res, glob);
  }

  /** The whole decision depends on each policy's rules only as an unordered collection. */
  lemma MeaningDecides(user: User, action: string, res: Resource, all: seq<Policy>, all': seq<Policy>, glob: Glob)
    requires SameMeanings(all, all')
    ensures Decide(user, action, res, all, glob) == Decide(user, action, res, all', glob)
  {
    forall i | 0 <= i < |all|
      ensures forall e :: Has(all[i], e, user, action, res, glob) == Has(all'[i], e, user, action, res, glob)
    {
      assert SameMeaning(all[i], all'[i]);
    }
    AlikeDecides(user, all, user, all', action, res, glob);
  }

  /** Permuting the rules inside each policy changes nothing, not even the reason. */
  lemma RuleOrderIrrelevant(user: User, action: string, res: Resource, all: seq<Policy>, all': seq<Policy>, glob: Glob)
    requires |all| == |all'|
    requires forall i :: 0 <= i < |all| ==>
               all'[i] == all[i].(rules := all'[i].rules) && multiset(all'[i].rules) == multiset(all[i].rules)
    ensures Decide(user, action, res, all, glob) == Decide(user, action, res, all', glob)
  {
    forall i | 0 <= i < |all| ensures SameMeaning(all[i], all'[i]) {
      var p, q := all[i], all'[i];
      assert forall r :: r in p.rules <==> r in multiset(p.rules);
      assert forall r :: r in q.rules <==> r in multiset(q.rules);
    }
    MeaningDecides(user, action, res, all, all', glob);
  }

  function DropAllows(rules: seq<PolicyRule>): seq<PolicyRule> {
    if rules == [] then []
    else (if rules[0].body.effect == Allow then [] else [rules[0]]) + DropAllows(rules[1..])
  }

  lemma {:induction false} DropAllowsKeepsRest(rules: seq<PolicyRule>, r: PolicyRule)
    ensures r in DropAllows(rules) <==> r in rules && r.body.effect != Allow
  {
    if rules != [] {
      DropAllowsKeepsRest(rules[1..], r);
      assert rules == [rules[0]] + rules[1..];
    }
  }

  /** Allow rules never change the verdict: removing all of them leaves `allowed` as it was. */
  lemma AllowsNeverGrant(user: User, action: string, res: Resource, all: seq<Policy>, all': seq<Policy>, glob: Glob)
    requires |all| == |all'| && forall i :: 0 <= i < |all| ==> all'[i] == all[i].(rules := DropAllows(all[i].rules))
    ensures Decide(user, action, res, all, glob).allowed == Decide(user, action, res, all', glob).allowed
  {
    DenyOverrides(user, action, res, all, glob);
    DenyOverrides(user, action, res, all', glob);
    forall i | 0 <= i < |all|
      ensures Has(all[i], Deny, user, action, res, glob) == Has(all'[i], Deny, user, action, res, glob)
    {
      DenyBodiesKept(all[i].rules);
    }
  }

  lemma {:induction false} DenyBodiesKept(rules: seq<PolicyRule>)
    ensures forall b: RuleBody :: b.effect == Deny ==> (b in Bodies(rules) <==> b in Bodies(DropAllows(rules)))
  {
    forall r { DropAllowsKeepsRest(rules, r); }
    forall b: RuleBody | b.effect == Deny ensures b in Bodies(rules) <==> b in Bodies(DropAllows(rules)) {
      if b in Bodies(rules) {
        var r :| r in rules && r.body == b;
        assert r in DropAllows(rules);
      }
    }
  }
}
