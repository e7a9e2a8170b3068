/**
  Listings exist: whatever a valid store holds, its policies and rules can be put in the order the two
  queries ask for. And what storing a label key of more than 128 bytes does to decisions.
 */
module Listings {
  import opened Wrappers
  import opened Records
  import opened Database
  import opened StoreRuns
  import opened Policies
  import opened PolicyStorage
  import Timestamps

  lemma {:induction false} LowestPriority(s: set<PolicyRule>) returns (m: PolicyRule)
    requires s != {}
    ensures m in s && forall r :: r in s ==> m.priority <= r.priority
    decreases |s|
  {
    m :| m in s;
    var rest := s - {m};
    assert s == rest + {m};
    if rest != {} {
      var l := LowestPriority(rest);
      if l.priority < m.priority {
        m := l;
      }
    }
  }

  /** No two places hold the same rule, and priorities do not rise. */
  ghost predicate Falling(out: seq<PolicyRule>) {
    forall i, j :: 0 <= i < j < |out| ==> out[i] != out[j] && out[i].priority >= out[j].priority
  }

  lemma {:induction false} RulesInOrder(s: set<PolicyRule>) returns (out: seq<PolicyRule>)
    ensures Falling(out) && forall r :: r in out <==> r in s
    decreases |s|
  {
    if s == {} {
      out := [];
    } else {
      var m := LowestPriority(s);
      var rest := RulesInOrder(s - {m});
      out := rest + [m];
      forall i | 0 <= i < |rest| ensures rest[i] != m && rest[i].priority >= m.priority {
        assert rest[i] in rest;
      }
    }
  }

  ghost function RulesOf(rules: map<string, PolicyRule>, policyId: string): set<PolicyRule> {
    set k | k in rules && rules[k].policyId == policyId && rules[k].id == k :: rules[k]
  }

  lemma RulesCanBeListed(rules: map<string, PolicyRule>, policyId: string) returns (out: seq<PolicyRule>)
    ensures RulesListed(rules, policyId, out)
  {
    out := RulesInOrder(RulesOf(rules, policyId));
    forall r ensures r in out <==> r.id in rules && rules[r.id] == r && r.policyId == policyId {}
  }

  lemma {:induction false} LessThrough(a: string, b: string, c: string)
    requires Timestamps.Less(a, b) && Timestamps.Less(b, c)
    ensures Timestamps.Less(a, c)
  {
    Timestamps.LessTotal(a, b);
    Timestamps.LessTotal(b, c);
    Timestamps.LessTotal(a, c);
    Timestamps.LessTransitive(a, b, c);
  }

  lemma {:induction false} LastName(policies: map<string, PolicyRow>, s: set<string>) returns (m: string)
    requires UniquePolicyNames(policies) && s != {} && s <= policies.Keys
    ensures m in s && forall id :: id in s && id != m ==> Timestamps.Less(policies[id].name, policies[m].name)
    decreases |s|
  {
    m :| m in s;
    var rest := s - {m};
    assert s == rest + {m};
    if rest != {} {
      var l := LastName(policies, rest);
      Timestamps.LessTotal(policies[l].name, policies[m].name);
      if Timestamps.Less(policies[m].name, policies[l].name) {
        m := l;
      } else {
        forall id | id in s && id != m ensures Timestamps.Less(policies[id].name, policies[m].name) {
          if id != l { LessThrough(policies[id].name, policies[l].name, policies[m].name); }
        }
      }
    }
  }

  /** A listing of some of the policies. */
  ghost predicate ListedPart(db: Db, s: set<string>, out: seq<Policy>) {
    && (forall i :: 0 <= i < |out| ==>
          out[i].id in s && out[i].id in db.policies && db.policies[out[i].id] == Head(out[i]))
    && (forall i :: 0 <= i < |out| ==> RulesListed(db.rules, out[i].id, out[i].rules))
    && (forall id :: id in s ==> exists i :: 0 <= i < |out| && out[i].id == id)
    && (forall i, j :: 0 <= i < j < |out| ==> Timestamps.Less(out[i].name, out[j].name))
  }

  lemma OneMoreListed(db: Db, s: set<string>, m: string, rest: seq<Policy>, p: Policy)
    requires m in s && s <= db.policies.Keys && ListedPart(db, s - {m}, rest)
    requires forall id :: id in s && id != m ==> Timestamps.Less(db.policies[id].name, db.policies[m].name)
    requires p.id == m && Head(p) == db.policies[m] && RulesListed(db.rules, m, p.rules)
    ensures ListedPart(db, s, rest + [p])
  {
    hide RulesListed, Timestamps.Less;
    var out := rest + [p];
    forall id | id in s ensures exists i :: 0 <= i < |out| && out[i].id == id {
      if id == m {
        assert out[|rest|].id == id;
      } else {
        assert id in s - {m};
        var i :| 0 <= i < |rest| && rest[i].id == id;
        assert out[i].id == id;
      }
    }
  }

  lemma {:induction false} PartCanBeListed(db: Db, s: set<string>) returns (out: seq<Policy>)
    requires UniquePolicyNames(db.policies) && s <= db.policies.Keys
    ensures ListedPart(db, s, out)
    decreases |s|
  {
    if s == {} {
      out := [];
    } else {
      hide ListedPart, RulesListed;
      var m := LastName(db.policies, s);
      var rest := PartCanBeListed(db, s - {m});
      var rules := RulesCanBeListed(db.rules, m);
      var row := db.policies[m];
      var p := Policy(m, row.name, row.description, row.enabled, rules);
      OneMoreListed(db, s, m, rest, p);
      out := rest + [p];
    }
  }

  /** Every valid store has a listing. */
  lemma ListingExists(db: Db) returns (out: seq<Policy>)
    requires Valid(db)
    ensures Listed(db, out)
  {
    hide RulesListed;
    out := PartCanBeListed(db, db.policies.Keys);
  }

  // ----- Cut keys -----

  /** A container with the rule's own label, and another value under the cut key. */
  function CutAway(b: RuleBody): Resource {
    Resource("", map[Truncate(b.matchKey, 128) := b.matchValue + "x", b.matchKey := b.matchValue], false, false)
  }

  /** A user in the rule's role who has the permission. */
  function Concerned(b: RuleBody): User {
    User("", "", true, [b.subjectRoleId], [], [b.action])
  }

  lemma CutKeyIsRead(r: PolicyRule, i: nat, id: string, generated: string, glob: Glob)
    requires r.body.matchType.ByLabel? && |r.body.matchKey| > 128
    ensures var u, res := Concerned(r.body), CutAway(r.body);
            && Applies(r.body, u, r.body.action, res, glob)
            && !Applies(StoredRule(r, i, id, generated).body, u, r.body.action, res, glob)
  {
    var b, res := r.body, CutAway(r.body);
    var cut := Truncate(b.matchKey, 128);
    assert cut != b.matchKey && |b.matchValue + "x"| != |b.matchValue|;
    assert res.labels[b.matchKey] == b.matchValue && res.labels[cut] == b.matchValue + "x";
    assert b.subjectRoleId in Concerned(b).roles;
  }

  lemma OneRuleDecides(p: Policy, rule: PolicyRule, u: User, res: Resource, glob: Glob)
    requires p.rules == [rule] && p.enabled && rule.body.action in u.permissions && !res.system && !res.isProtected
    ensures var d := Decide(u, rule.body.action, res, [p], glob);
            if !Applies(rule.body, u, rule.body.action, res, glob) then d == Decision(true, RolePermission)
            else if rule.body.effect == Deny then d == Decision(false, PolicyDeny(p.name))
            else if rule.body.effect == Allow then d == Decision(true, PolicyAllow)
            else d == Decision(true, RolePermission)
  {
    hide Applies;
    assert rule in p.rules && Bodies(p.rules) == {rule.body};
    var action := rule.body.action;
    var applies := Applies(rule.body, u, action, res, glob);
    assert forall e :: Has(p, e, u, action, res, glob) <==> rule.body.effect == e && applies;
    assert [p][0] == p && [p][1..] == [];
    assert FirstDenier([p], u, action, res, glob) == if Has(p, Deny, u, action, res, glob) then Some(p.name) else None;
    assert SomeAllow([p], u, action, res, glob) == Has(p, Allow, u, action, res, glob);
  }

  /**
    Reloading does change decisions when a label key was cut: for every matcher, a saved enabled policy with a
    single rule that matches by a key of more than 128 bytes, alone in its store, decides differently.
   */
  lemma ReloadMatters(db: Db, p: Policy, id: string, generated: seq<string>, after: seq<Policy>, glob: Glob)
    returns (u: User, res: Resource)
    requires |generated| == |p.rules| == 1 && Valid(db) && AfterSavePolicy(db, p, id, generated).Some?
    requires Listed(AfterSavePolicy(db, p, id, generated).value, after) && db.policies.Keys <= {id}
    requires p.enabled && p.rules[0].body.matchType.ByLabel? && |p.rules[0].body.matchKey| > 128
    ensures var action := p.rules[0].body.action;
            Decide(u, action, res, after, glob) != Decide(u, action, res, Submitted(after, p, id), glob)
  {
    var r := p.rules[0];
    var stored := StoredRule(r, 0, id, generated[0]);
    u, res := Concerned(r.body), CutAway(r.body);
    ValidEffect(db, p, id, generated);
    AloneListed(db, p, id, generated, after);
    hide AfterSavePolicy, Valid, Listed, Decide, Concerned, CutAway;
    CutKeyIsRead(r, 0, id, generated[0], glob);
    ConcernedMay(r.body);
    assert p.rules == [r] && after == [after[0]];
    OneRuleDecides(after[0], stored, u, res, glob);
    OneRuleDecides(p, r, u, res, glob);
  }

  lemma ConcernedMay(b: RuleBody)
    ensures b.action in Concerned(b).permissions && !CutAway(b).system && !CutAway(b).isProtected
  {
  }

  lemma ValidEffect(db: Db, p: Policy, id: string, generated: seq<string>)
    requires |generated| == |p.rules| == 1 && AfterSavePolicy(db, p, id, generated).Some?
    ensures p.rules[0].body.effect == Deny || p.rules[0].body.effect == Allow
  {
    assert RuleFits(db, p.rules, StoredRules(p.rules, id, generated), id, 0);
  }

  /** A policy that is alone in its store is listed alone. */
  lemma AloneListed(db: Db, p: Policy, id: string, generated: seq<string>, after: seq<Policy>)
    requires |generated| == |p.rules| == 1 && Valid(db) && AfterSavePolicy(db, p, id, generated).Some?
    requires Listed(AfterSavePolicy(db, p, id, generated).value, after) && db.policies.Keys <= {id}
    ensures |after| == 1 && after[0].rules == [StoredRule(p.rules[0], 0, id, generated[0])]
    ensures after[0].enabled == p.enabled && Submitted(after, p, id) == [p]
  {
    var db' := AfterSavePolicy(db, p, id, generated).value;
    SavedPolicies(db, p, id, generated);
    OneReversed(p, id, generated);
    hide AfterSavePolicy, Valid, Reversed, Listed;
    var i := SavedPolicyReversed(db, p, id, generated, after);
    ListedSays(db', after, after[0]);
    ListedSays(db', after, after[|after| - 1]);
  }

  lemma OneReversed(p: Policy, id: string, generated: seq<string>)
    requires |generated| == |p.rules| == 1
    ensures Reversed(StoredRules(p.rules, id, generated)) == [StoredRule(p.rules[0], 0, id, generated[0])]
  {
    var s := StoredRules(p.rules, id, generated);
    assert s[..0] == [];
  }
}
