/**
  Policies across storage: what ListPolicies returns after SavePolicy and after DeleteRole, and
  that evaluation cannot tell. A listing is any result the two ORDER BY queries may give.
 */
module PolicyStorage {
  import opened Wrappers
  import opened Records
  import opened Database
  import opened StoreRuns
  import opened Policies
  import opened Store
  import Timestamps

  /** SELECT ... FROM policy_rules WHERE policy_id=? ORDER BY priority DESC. */
  ghost predicate RulesListed(rules: map<string, PolicyRule>, policyId: string, out: seq<PolicyRule>) {
    && (forall r :: r in out <==> r.id in rules && rules[r.id] == r && r.policyId == policyId)
    && (forall i, j :: 0 <= i < j < |out| ==> out[i] != out[j] && out[i].priority >= out[j].priority)
  }

  /** SELECT ... FROM policies ORDER BY name; the rules are of no concern here. */
  ghost predicate PoliciesListed(policies: map<string, PolicyRow>, rows: seq<Policy>) {
    && (forall i :: 0 <= i < |rows| ==> rows[i].id in policies && policies[rows[i].id] == Head(rows[i]))
    && (forall id :: id in policies ==> exists i :: 0 <= i < |rows| && rows[i].id == id)
    && (forall i, j :: 0 <= i < j < |rows| ==> Timestamps.Less(rows[i].name, rows[j].name))
  }

  function Head(p: Policy): PolicyRow {
    PolicyRow(p.name, p.description, p.enabled)
  }

  /** ListPolicies: policies by name, each with its rules. */
  ghost predicate Listed(db: Db, out: seq<Policy>) {
    PoliciesListed(db.policies, out) && forall i :: 0 <= i < |out| ==> RulesListed(db.rules, out[i].id, out[i].rules)
  }

  /** The two loops of ListPolicies over the rows their queries return: first the policies, then the rules of each. */
  method ListPolicies(db: Db, rows: seq<Policy>, rulesOf: seq<seq<PolicyRule>>) returns (out: seq<Policy>)
    requires PoliciesListed(db.policies, rows) && |rulesOf| == |rows|
    requires forall i :: 0 <= i < |rows| ==> rows[i].rules == [] && RulesListed(db.rules, rows[i].id, rulesOf[i])
    ensures |out| == |rows| && Listed(db, out)
  {
    hide PoliciesListed, RulesListed, Listed;
    out := [];
    for i := 0 to |rows|
      invariant out == rows[..i]
    {
      out := out + [rows[i]];
    }
    for i := 0 to |out|
      invariant |out| == |rows|
      invariant forall j :: 0 <= j < |out| ==> out[j] == if j < i then rows[j].(rules := rulesOf[j]) else rows[j]
    {
      var p := AppendRules(out[i], rulesOf[i]);
      out := out[i := p];
    }
    AllListed(db, rows, rulesOf, out);
  }

  method AppendRules(p: Policy, rows: seq<PolicyRule>) returns (q: Policy)
    ensures q == p.(rules := p.rules + rows)
  {
    q := p;
    for k := 0 to |rows|
      invariant q == p.(rules := p.rules + rows[..k])
    {
      assert rows[..k + 1] == rows[..k] + [rows[k]];
      q := q.(rules := q.rules + [rows[k]]);
    }
    assert rows[..|rows|] == rows;
  }

  lemma AllListed(db: Db, rows: seq<Policy>, rulesOf: seq<seq<PolicyRule>>, out: seq<Policy>)
    requires PoliciesListed(db.policies, rows) && |rulesOf| == |rows| == |out|
    requires forall i :: 0 <= i < |rows| ==> RulesListed(db.rules, rows[i].id, rulesOf[i])
    requires forall j :: 0 <= j < |out| ==> out[j] == rows[j].(rules := rulesOf[j])
    ensures Listed(db, out)
  {
    hide RulesListed;
    forall id | id in db.policies ensures exists i :: 0 <= i < |out| && out[i].id == id {
      var i :| 0 <= i < |rows| && rows[i].id == id;
      assert out[i].id == id;
    }
  }

  ghost predicate Descending(out: seq<PolicyRule>) {
    forall i, j :: 0 <= i < j < |out| ==> out[i].priority > out[j].priority
  }

  /** With distinct priorities the order of the rules is determined. */
  lemma ListedDescending(rules: map<string, PolicyRule>, policyId: string, out: seq<PolicyRule>)
    requires PrioritiesDistinct(rules) && RulesListed(rules, policyId, out)
    ensures Descending(out)
  {
    forall i, j | 0 <= i < j < |out| ensures out[i].priority > out[j].priority {
      assert out[i] in out && out[j] in out;
    }
  }

  lemma {:induction false} DescendingUnique(a: seq<PolicyRule>, b: seq<PolicyRule>)
    requires Descending(a) && Descending(b) && forall r :: r in a <==> r in b
    ensures a == b
  {
    assert a != [] ==> a[0] in a;
    assert b != [] ==> b[0] in b;
    if a != [] && b != [] {
      assert a[0] == b[0];
      forall r ensures r in a[1..] <==> r in b[1..] { TailOf(a, r); TailOf(b, r); }
      DescendingUnique(a[1..], b[1..]);
    }
  }

  lemma TailOf(a: seq<PolicyRule>, r: PolicyRule)
    requires a != [] && Descending(a)
    ensures r in a[1..] <==> r in a && r != a[0]
  {
    assert a == [a[0]] + a[1..];
    if r in a[1..] {
      var i :| 0 <= i < |a[1..]| && a[1..][i] == r;
      assert a[i + 1] == r && a[0].priority > a[i + 1].priority;
    }
  }

  function Reversed(s: seq<PolicyRule>): seq<PolicyRule> {
    if s == [] then [] else [s[|s| - 1]] + Reversed(s[..|s| - 1])
  }

  lemma {:induction false} ReversedHolds(s: seq<PolicyRule>)
    requires forall i :: 0 <= i < |s| ==> s[i].priority == i
    ensures Descending(Reversed(s)) && |Reversed(s)| == |s|
    ensures forall r :: r in Reversed(s) <==> r in s
  {
    if s != [] {
      var n := |s| - 1;
      ReversedHolds(s[..n]);
      assert s == s[..n] + [s[n]];
      var t := Reversed(s[..n]);
      forall i, j | 0 <= i < j < |Reversed(s)| ensures Reversed(s)[i].priority > Reversed(s)[j].priority {
        if i == 0 {
          assert t[j - 1] in s[..n];
        }
      }
    }
  }

  /** The stored rules of the saved policy are found by their ids, and only they. */
  lemma SavedRows(db: Db, p: Policy, id: string, generated: seq<string>, r: PolicyRule)
    requires |generated| == |p.rules| && AfterSavePolicy(db, p, id, generated).Some?
    ensures var rules := AfterSavePolicy(db, p, id, generated).value.rules;
            r.id in rules && rules[r.id] == r && r.policyId == id <==> r in StoredRules(p.rules, id, generated)
  {
    var s := StoredRules(p.rules, id, generated);
    var rules := AfterSavePolicy(db, p, id, generated).value.rules;
    assert DistinctIds(s) by {
      forall i, j | 0 <= i < j < |s| ensures s[i].id != s[j].id { assert RuleFits(db, p.rules, s, id, j); }
    }
    if r in s {
      var i :| 0 <= i < |s| && s[i] == r;
      ByIdFinds(s, i);
    }
    if r.id in rules && rules[r.id] == r && r.policyId == id {
      var i := RuleOrigin(db.rules, s, id, r.id);
    }
  }

  lemma SavedPolicies(db: Db, p: Policy, id: string, generated: seq<string>)
    requires |generated| == |p.rules| && AfterSavePolicy(db, p, id, generated).Some?
    ensures AfterSavePolicy(db, p, id, generated).value.policies
            == db.policies[id := PolicyRow(p.name, Truncate(p.description, 500), p.enabled)]
  {
  }

  /** A listing has every policy, and nothing but what the tables say. */
  lemma ListedAt(db: Db, out: seq<Policy>, id: string) returns (i: nat)
    requires Listed(db, out) && id in db.policies
    ensures i < |out| && out[i].id == id && Head(out[i]) == db.policies[id] && RulesListed(db.rules, id, out[i].rules)
  {
    hide RulesListed;
    i :| 0 <= i < |out| && out[i].id == id;
  }

  lemma ListedSays(db: Db, out: seq<Policy>, q: Policy)
    requires Listed(db, out) && q in out
    ensures q.id in db.policies && Head(q) == db.policies[q.id] && RulesListed(db.rules, q.id, q.rules)
  {
    hide RulesListed;
    var i :| 0 <= i < |out| && out[i] == q;
  }

  /** No policy is listed twice. */
  lemma ListedOnce(policies: map<string, PolicyRow>, rows: seq<Policy>, i: nat, j: nat)
    requires PoliciesListed(policies, rows) && i < |rows| && j < |rows| && rows[i].id == rows[j].id
    ensures i == j
  {
    Timestamps.LessTotal(rows[i].name, rows[j].name);
  }

  lemma SavedRulesReversed(db: Db, p: Policy, id: string, generated: seq<string>, rules: seq<PolicyRule>)
    requires |generated| == |p.rules| && Valid(db) && AfterSavePolicy(db, p, id, generated).Some?
    requires RulesListed(AfterSavePolicy(db, p, id, generated).value.rules, id, rules)
    ensures rules == Reversed(StoredRules(p.rules, id, generated))
  {
    var db', s := AfterSavePolicy(db, p, id, generated).value, StoredRules(p.rules, id, generated);
    SavePolicyKeepsValid(db, p, id, generated);
    hide AfterSavePolicy;
    ListedDescending(db'.rules, id, rules);
    ReversedHolds(s);
    forall r ensures r in rules <==> r in Reversed(s) { SavedRows(db, p, id, generated, r); }
    DescendingUnique(rules, Reversed(s));
  }

  /** The saved policy as it is listed: its stored rules in exactly reversed order. */
  function SavedAs(p: Policy, id: string, generated: seq<string>): Policy
    requires |generated| == |p.rules|
  {
    Policy(id, p.name, Truncate(p.description, 500), p.enabled, Reversed(StoredRules(p.rules, id, generated)))
  }

  /** However the rows come back, the saved policy is listed exactly once, with its stored rules reversed. */
  lemma SavedPolicyReversed(db: Db, p: Policy, id: string, generated: seq<string>, after: seq<Policy>) returns (i: nat)
    requires |generated| == |p.rules| && Valid(db) && AfterSavePolicy(db, p, id, generated).Some?
    requires Listed(AfterSavePolicy(db, p, id, generated).value, after)
    ensures i < |after| && after[i] == SavedAs(p, id, generated)
    ensures forall j :: 0 <= j < |after| && after[j].id == id ==> j == i
  {
    var db' := AfterSavePolicy(db, p, id, generated).value;
    SavedPolicies(db, p, id, generated);
    hide AfterSavePolicy, Valid, RulesListed, Reversed;
    i := ListedAt(db', after, id);
    SavedRulesReversed(db, p, id, generated, after[i].rules);
    forall j | 0 <= j < |after| && after[j].id == id ensures j == i { ListedOnce(db'.policies, after, j, i); }
  }

  lemma OtherPolicyKept(db: Db, p: Policy, id: string, generated: seq<string>, q: Policy, q': Policy)
    requires |generated| == |p.rules| && Valid(db) && AfterSavePolicy(db, p, id, generated).Some?
    requires q.id == q'.id != id && Head(q) == Head(q') && RulesListed(db.rules, q.id, q.rules)
    requires RulesListed(AfterSavePolicy(db, p, id, generated).value.rules, q.id, q'.rules)
    ensures q == q'
  {
    var db' := AfterSavePolicy(db, p, id, generated).value;
    SavePolicyKeepsValid(db, p, id, generated);
    OtherRulesKept(db, p, id, generated, q.id);
    hide AfterSavePolicy;
    ListedDescending(db'.rules, q.id, q'.rules);
    ListedDescending(db.rules, q.id, q.rules);
    DescendingUnique(q.rules, q'.rules);
  }

  /** Every other policy is listed after the save if and only if it was listed before, and exactly as it was. */
  lemma OtherPoliciesUnchanged(db: Db, p: Policy, id: string, generated: seq<string>,
                               before: seq<Policy>, after: seq<Policy>, q: Policy)
    requires |generated| == |p.rules| && Valid(db) && AfterSavePolicy(db, p, id, generated).Some?
    requires Listed(db, before) && Listed(AfterSavePolicy(db, p, id, generated).value, after)
    requires q.id != id
    ensures q in before <==> q in after
  {
    var db' := AfterSavePolicy(db, p, id, generated).value;
    SavedPolicies(db, p, id, generated);
    hide AfterSavePolicy, Valid, RulesListed, Listed;
    if q in before {
      ListedSays(db, before, q);
      var i := ListedAt(db', after, q.id);
      OtherPolicyKept(db, p, id, generated, q, after[i]);
    }
    if q in after {
      ListedSays(db', after, q);
      var j := ListedAt(db, before, q.id);
      OtherPolicyKept(db, p, id, generated, before[j], q);
    }
  }

  lemma OtherRulesKept(db: Db, p: Policy, id: string, generated: seq<string>, other: string)
    requires |generated| == |p.rules| && Valid(db) && AfterSavePolicy(db, p, id, generated).Some? && other != id
    ensures var rules := AfterSavePolicy(db, p, id, generated).value.rules;
            forall r: PolicyRule :: r.policyId == other ==>
              (r.id in db.rules && db.rules[r.id] == r <==> r.id in rules && rules[r.id] == r)
  {
    var s := StoredRules(p.rules, id, generated);
    var rules := AfterSavePolicy(db, p, id, generated).value.rules;
    forall r: PolicyRule | r.policyId == other
      ensures r.id in db.rules && db.rules[r.id] == r <==> r.id in rules && rules[r.id] == r
    {
      if r.id in ById(s) {
        var i := ByIdOnly(s, r.id);
        assert RuleFits(db, p.rules, s, id, i);
      }
    }
  }

  // ----- Evaluation cannot tell -----

  /** A stored rule concerns the same callers and containers unless a key that is read was cut. */
  lemma StoredApplies(r: PolicyRule, i: nat, id: string, generated: string, user: User, action: string, res: Resource,
                      glob: Glob)
    requires r.body.matchType.ByLabel? ==> |r.body.matchKey| <= 128
    ensures var b := StoredRule(r, i, id, generated).body;
            b.effect == r.body.effect && Applies(b, user, action, res, glob) == Applies(r.body, user, action, res, glob)
  {
  }

  /** Rules that correspond place by place, in any order: if one collection has an applicable rule, so has the other. */
  lemma CorrespondingHas(a: seq<PolicyRule>, b: seq<PolicyRule>, p: Policy, q: Policy, effect: Effect,
                         user: User, action: string, res: Resource, glob: Glob)
    requires |a| == |b| && p.enabled == q.enabled
    requires (forall r :: r in p.rules <==> r in a) && (forall r :: r in q.rules <==> r in b)
    requires forall i :: 0 <= i < |a| ==> a[i].body.effect == b[i].body.effect
    requires forall i :: 0 <= i < |a| ==>
               Applies(a[i].body, user, action, res, glob) == Applies(b[i].body, user, action, res, glob)
    ensures Has(p, effect, user, action, res, glob) ==> Has(q, effect, user, action, res, glob)
  {
    hide Applies;
    if Has(p, effect, user, action, res, glob) {
      var c :| c in Bodies(p.rules) && c.effect == effect && Applies(c, user, action, res, glob);
      var r :| r in p.rules && r.body == c;
      var i :| 0 <= i < |a| && a[i] == r;
      assert b[i] in q.rules && b[i].body in Bodies(q.rules);
    }
  }

  lemma SavedHas(p: Policy, id: string, generated: seq<string>, effect: Effect,
                 user: User, action: string, res: Resource, glob: Glob)
    requires |generated| == |p.rules|
    requires forall i :: 0 <= i < |p.rules| && p.rules[i].body.matchType.ByLabel? ==> |p.rules[i].body.matchKey| <= 128
    ensures Has(SavedAs(p, id, generated), effect, user, action, res, glob) == Has(p, effect, user, action, res, glob)
  {
    var s, q := StoredRules(p.rules, id, generated), SavedAs(p, id, generated);
    ReversedHolds(s);
    forall i | 0 <= i < |s|
      ensures s[i].body.effect == p.rules[i].body.effect
      ensures Applies(s[i].body, user, action, res, glob) == Applies(p.rules[i].body, user, action, res, glob)
    {
      StoredApplies(p.rules[i], i, id, generated[i], user, action, res, glob);
    }
    hide Applies, Has, StoredRules, Reversed;
    CorrespondingHas(s, p.rules, q, p, effect, user, action, res, glob);
    CorrespondingHas(p.rules, s, p, q, effect, user, action, res, glob);
  }

  /** The submitted policies in the order of the listing: the saved one as submitted, all others as stored. */
  function Submitted(after: seq<Policy>, p: Policy, id: string): seq<Policy> {
    seq(|after|, i requires 0 <= i < |after| => if after[i].id == id then p else after[i])
  }

  /** If no key that is read was cut, reloading changes no decision for anybody. */
  lemma ReloadedDecides(db: Db, p: Policy, id: string, generated: seq<string>, after: seq<Policy>,
                        user: User, action: string, res: Resource, glob: Glob)
    requires |generated| == |p.rules| && Valid(db) && AfterSavePolicy(db, p, id, generated).Some?
    requires Listed(AfterSavePolicy(db, p, id, generated).value, after)
    requires forall i :: 0 <= i < |p.rules| && p.rules[i].body.matchType.ByLabel? ==> |p.rules[i].body.matchKey| <= 128
    ensures Decide(user, action, res, after, glob) == Decide(user, action, res, Submitted(after, p, id), glob)
  {
    hide AfterSavePolicy, Valid, Listed, Decide, Has, Reversed;
    var at := SavedPolicyReversed(db, p, id, generated, after);
    SavedHas(p, id, generated, Deny, user, action, res, glob);
    SavedHas(p, id, generated, Allow, user, action, res, glob);
    AlikeDecides(user, after, user, Submitted(after, p, id), action, res, glob);
  }

  /** Truncating the match key is invisible to every resource exactly when it truncates nothing or is never read. */
  lemma TruncationInvisible(r: PolicyRule, i: nat, id: string, generated: string, glob: Glob)
    ensures (forall res :: Matches(StoredRule(r, i, id, generated).body, res, glob) == Matches(r.body, res, glob))
            <==> !r.body.matchType.ByLabel? || |r.body.matchKey| <= 128
  {
    if r.body.matchType.ByLabel? && |r.body.matchKey| > 128 {
      var key, value := r.body.matchKey, r.body.matchValue;
      var res := Resource("", map[key[..128] := value + "x", key := value], false, false);
      assert |value + "x"| != |value|;
      assert res.labels[key] == value && res.labels[key[..128]] == value + "x";
      assert Matches(r.body, res, glob) && !Matches(StoredRule(r, i, id, generated).body, res, glob);
    }
  }

  // ----- Deleting a role -----

  function Names(all: seq<Policy>): (ns: seq<string>)
    ensures |ns| == |all|
  {
    seq(|all|, i requires 0 <= i < |all| => all[i].name)
  }

  ghost predicate Ascending(ns: seq<string>) {
    forall i, j :: 0 <= i < j < |ns| ==> Timestamps.Less(ns[i], ns[j])
  }

  lemma AscendingTail(a: seq<string>, x: string)
    requires a != [] && Ascending(a)
    ensures x in a[1..] <==> x in a && x != a[0]
  {
    assert a == [a[0]] + a[1..];
    if x in a[1..] {
      var i :| 0 <= i < |a[1..]| && a[1..][i] == x;
      assert a[i + 1] == x && Timestamps.Less(a[0], a[i + 1]);
      Timestamps.LessTotal(a[0], a[0]);
    }
  }

  lemma AscendingHead(a: seq<string>, b: seq<string>)
    requires a != [] && b != [] && Ascending(a) && Ascending(b) && a[0] in b && b[0] in a
    ensures a[0] == b[0]
  {
    var j :| 0 <= j < |b| && b[j] == a[0];
    var i :| 0 <= i < |a| && a[i] == b[0];
    Timestamps.LessTotal(a[0], b[0]);
  }

  /** Strictly ascending lists of the same texts are equal. */
  lemma {:induction false} AscendingUnique(a: seq<string>, b: seq<string>)
    requires Ascending(a) && Ascending(b) && forall x :: x in a <==> x in b
    ensures a == b
  {
    assert a != [] ==> a[0] in a;
    assert b != [] ==> b[0] in b;
    if a != [] && b != [] {
      AscendingHead(a, b);
      forall x ensures x in a[1..] <==> x in b[1..] { AscendingTail(a, x); AscendingTail(b, x); }
      AscendingUnique(a[1..], b[1..]);
    }
  }

  lemma NamesListed(db: Db, all: seq<Policy>, x: string)
    requires Listed(db, all)
    ensures x in Names(all) <==> exists id :: id in db.policies && db.policies[id].name == x
  {
    if x in Names(all) {
      var i :| 0 <= i < |all| && Names(all)[i] == x;
      assert db.policies[all[i].id].name == x;
    }
    if exists id :: id in db.policies && db.policies[id].name == x {
      var id :| id in db.policies && db.policies[id].name == x;
      var i :| 0 <= i < |all| && all[i].id == id;
      assert Names(all)[i] == x;
    }
  }

  /** Two listings of the same policies line up. */
  lemma ListingsAlign(db: Db, db': Db, a: seq<Policy>, b: seq<Policy>)
    requires Listed(db, a) && Listed(db', b) && db.policies == db'.policies && UniquePolicyNames(db.policies)
    ensures |a| == |b|
    ensures forall i :: 0 <= i < |a| ==> a[i].id == b[i].id && a[i].name == b[i].name && a[i].enabled == b[i].enabled
  {
    forall x ensures x in Names(a) <==> x in Names(b) { NamesListed(db, a, x); NamesListed(db', b, x); }
    AscendingUnique(Names(a), Names(b));
    forall i | 0 <= i < |a| ensures a[i].id == b[i].id && a[i].name == b[i].name {
      assert Names(a)[i] == Names(b)[i];
      assert db.policies[a[i].id].name == db.policies[b[i].id].name;
    }
  }

  /** A rule that names the deleted role concerns only those who hold it, by id or by a name of that text. */
  lemma CascadeHarmless(db: Db, role: string, before: Policy, after: Policy, effect: Effect, u: User, v: User,
                        action: string, res: Resource, glob: Glob)
    requires role != [] && before.id == after.id && before.enabled == after.enabled
    requires RulesListed(db.rules, before.id, before.rules)
    requires RulesListed(RulesNotNaming(db.rules, role), after.id, after.rules)
    requires role !in u.roles && role !in u.roleIds
    requires forall r :: (r in u.roles <==> r in v.roles) && (r in u.roleIds <==> r in v.roleIds)
    ensures Has(before, effect, u, action, res, glob) == Has(after, effect, v, action, res, glob)
  {
    forall b | b in Bodies(before.rules) && Applies(b, u, action, res, glob) ensures b in Bodies(after.rules) {
      var r :| r in before.rules && r.body == b;
      assert r in after.rules;
    }
    forall b | b in Bodies(after.rules) ensures b in Bodies(before.rules) {
      var r :| r in after.rules && r.body == b;
      assert r in before.rules;
    }
    assert forall b :: Applies(b, u, action, res, glob) == Applies(b, v, action, res, glob);
  }

  /**
    Deleting a custom role changes no decision for a user who does not hold it, whatever the action and
    resource, provided no role of that user has the deleted id as its name.
   */
  lemma DeleteRoleDecides(db: Db, role: string, before: seq<Policy>, after: seq<Policy>, id: string, u: User, v: User,
                          action: string, res: Resource, glob: Glob)
    requires Valid(db) && role != [] && AfterDeleteRole(db, role).Some?
    requires Listed(db, before) && Listed(AfterDeleteRole(db, role).value, after)
    requires Describes(db, id, u) && Describes(AfterDeleteRole(db, role).value, id, v)
    requires (id, role) !in db.userRoles && role !in u.roles
    ensures Decide(u, action, res, before, glob) == Decide(v, action, res, after, glob)
  {
    DeletedRecord(db, role, id, u, v);
    ListingsAlign(db, AfterDeleteRole(db, role).value, before, after);
    forall i, e | 0 <= i < |before|
      ensures Has(before[i], e, u, action, res, glob) == Has(after[i], e, v, action, res, glob)
    {
      CascadeHarmless(db, role, before[i], after[i], e, u, v, action, res, glob);
    }
    hide Valid, Listed, Describes, Has, AfterDeleteRole;
    AlikeDecides(u, before, v, after, action, res, glob);
  }

  /** The rule that forbids `action` to holders of `role` on every container without the label `key`: it reads as "". */
  function Forbidding(rid: string, pid: string, role: string, action: string, key: string): PolicyRule {
    PolicyRule(rid, pid, RuleBody(Deny, action, role, ByLabel, key, ""), 0)
  }

  function ForbiddingPolicy(pid: string, name: string, rule: PolicyRule): Policy {
    Policy(pid, name, "", true, [rule])
  }

  /** What a new policy and a new rule need. */
  ghost predicate Unused(db: Db, pid: string, rid: string, name: string) {
    && pid !in db.policies && rid !in db.rules && rid != [] && !Blank(name) && |name| <= 100
    && !PolicyNameTaken(db.policies, name, pid)
  }

  lemma ForbiddingStored(rid: string, pid: string, role: string, action: string, key: string)
    requires rid != [] && |key| <= 128
    ensures var rule := Forbidding(rid, pid, role, action, key);
            StoredRules([rule], pid, [rid]) == [rule] && ById([rule]) == map[rid := rule]
  {
    var rule := Forbidding(rid, pid, role, action, key);
    assert [rule][..0] == [];
  }

  lemma NothingOfANewPolicy(db: Db, pid: string)
    requires RulesKeyed(db.rules, db.policies, db.permissions, db.roles) && pid !in db.policies
    ensures RulesOutside(db.rules, pid) == db.rules
  {
  }

  lemma ForbiddingFits(db: Db, role: string, action: string, pid: string, rid: string, key: string)
    requires role in db.roles && action in db.permissions && rid !in RulesOutside(db.rules, pid)
    ensures var rule := Forbidding(rid, pid, role, action, key); CanStore(db, [rule], [rule], pid)
  {
    var rule := Forbidding(rid, pid, role, action, key);
    hide RulesOutside;
    assert RuleFits(db, [rule], [rule], pid, 0);
  }

  /** The tables after saving the forbidding policy: the new policy, its one rule, and nothing else. */
  function WithForbidding(db: Db, pid: string, name: string, rule: PolicyRule): Db {
    db.(policies := db.policies[pid := PolicyRow(name, "", true)], rules := db.rules[rule.id := rule])
  }

  lemma ForbiddingSaves(db: Db, role: string, action: string, pid: string, rid: string, name: string, key: string)
    requires Valid(db) && role in db.roles && action in db.permissions && Unused(db, pid, rid, name) && |key| <= 128
    ensures var rule := Forbidding(rid, pid, role, action, key);
            AfterSavePolicy(db, ForbiddingPolicy(pid, name, rule), pid, [rid])
            == Some(WithForbidding(db, pid, name, rule))
  {
    hide CanStore, StoredRules, ById, RulesOutside, Blank, PolicyNameTaken;
    NothingOfANewPolicy(db, pid);
    ForbiddingStored(rid, pid, role, action, key);
    ForbiddingFits(db, role, action, pid, rid, key);
    assert db.rules + map[rid := Forbidding(rid, pid, role, action, key)]
           == db.rules[rid := Forbidding(rid, pid, role, action, key)];
  }

  /** While the policy is stored, it denies. */
  lemma ForbiddingDenies(db: Db, role: string, action: string, pid: string, rid: string, name: string, key: string,
                         before: seq<Policy>, u: User, res: Resource, glob: Glob)
    requires var rule := Forbidding(rid, pid, role, action, key); Listed(WithForbidding(db, pid, name, rule), before)
    requires role in u.roles && key !in res.labels
    ensures !Decide(u, action, res, before, glob).allowed
  {
    var rule := Forbidding(rid, pid, role, action, key);
    var i := ListedAt(WithForbidding(db, pid, name, rule), before, pid);
    assert rule in before[i].rules;
    assert rule.body in Bodies(before[i].rules) && Applies(rule.body, u, action, res, glob);
    assert Has(before[i], Deny, u, action, res, glob) && before[i] in before;
    hide Has, Listed;
    DenyOverrides(u, action, res, before, glob);
  }

  /** A policy of the later listing was there before, with at least those rules, unless it has none. */
  lemma DeniedBefore(db: Db, db2: Db, all: seq<Policy>, p: Policy, u: User, v: User, action: string, res: Resource,
                     glob: Glob)
    requires RulesKeyed(db.rules, db.policies, db.permissions, db.roles) && Listed(db, all)
    requires RulesListed(db2.rules, p.id, p.rules) && p.id in db2.policies && Head(p) == db2.policies[p.id]
    requires forall r :: r in db2.rules ==> r in db.rules && db2.rules[r] == db.rules[r]
    requires forall id :: id in db.policies ==> id in db2.policies && db2.policies[id] == db.policies[id]
    requires forall r :: (r in u.roles <==> r in v.roles) && (r in u.roleIds <==> r in v.roleIds)
    requires Has(p, Deny, v, action, res, glob)
    ensures exists q :: q in all && Has(q, Deny, u, action, res, glob)
  {
    var b :| b in Bodies(p.rules) && b.effect == Deny && Applies(b, v, action, res, glob);
    var r :| r in p.rules && r.body == b;
    assert r.id in db.rules && db.rules[r.id] == r && r.policyId == p.id;
    var i := ListedAt(db, all, p.id);
    assert r in all[i].rules;
    assert b in Bodies(all[i].rules) && Applies(b, u, action, res, glob);
    assert Has(all[i], Deny, u, action, res, glob) && all[i] in all;
  }

  lemma AllowedAgain(db: Db, db2: Db, all: seq<Policy>, after: seq<Policy>, u: User, v: User, action: string,
                     res: Resource, glob: Glob)
    requires RulesKeyed(db.rules, db.policies, db.permissions, db.roles) && Listed(db, all) && Listed(db2, after)
    requires forall r :: r in db2.rules ==> r in db.rules && db2.rules[r] == db.rules[r]
    requires forall id :: id in db.policies ==> id in db2.policies && db2.policies[id] == db.policies[id]
    requires forall r :: (r in u.roles <==> r in v.roles) && (r in u.roleIds <==> r in v.roleIds)
    requires forall p :: p in u.permissions <==> p in v.permissions
    requires Decide(u, action, res, all, glob).allowed
    ensures Decide(v, action, res, after, glob).allowed
  {
    hide Decide, Has, Listed, RulesListed, RulesKeyed;
    DenyOverrides(u, action, res, all, glob);
    forall p | p in after ensures !Has(p, Deny, v, action, res, glob) {
      ListedSays(db2, after, p);
      if Has(p, Deny, v, action, res, glob) {
        DeniedBefore(db, db2, all, p, u, v, action, res, glob);
      }
    }
    DenyOverrides(v, action, res, after, glob);
  }

  /** What deleting the role leaves of the store with the forbidding policy. */
  lemma ForbiddingDeleted(db: Db, role: string, pid: string, name: string, rule: PolicyRule)
    requires AfterDeleteRole(db, role).Some? && rule.body.subjectRoleId == role && rule.id !in db.rules
    requires pid !in db.policies
    ensures var r := AfterDeleteRole(WithForbidding(db, pid, name, rule), role);
            && r.Some?
            && (forall id :: id in r.value.rules ==> id in db.rules && r.value.rules[id] == db.rules[id])
            && (forall id :: id in db.policies ==> id in r.value.policies && r.value.policies[id] == db.policies[id])
            && r.value.(policies := db.policies, rules := db.rules)
               == AfterDeleteRole(db, role).value.(rules := db.rules)
  {
  }

  lemma SameDescription(a: Db, b: Db, id: string, u: User)
    requires a.users == b.users && a.roles == b.roles && a.userRoles == b.userRoles
    requires a.rolePermissions == b.rolePermissions && Describes(a, id, u)
    ensures Describes(b, id, u)
  {
  }

  lemma PermittedIsKnown(db: Db, id: string, u: User, p: string)
    requires Valid(db) && Describes(db, id, u) && p in u.permissions
    ensures p in db.permissions
  {
    var r :| (id, r) in db.userRoles && r in db.roles && (r, p) in db.rolePermissions;
  }

  /** Denied while the role is there, allowed once it is deleted. */
  lemma CascadeLiftsDeny(db: Db, role: string, id: string, u: User, v: User, action: string, res: Resource, glob: Glob,
                         all: seq<Policy>, pid: string, name: string, rule: PolicyRule, after: seq<Policy>)
    requires Valid(db) && AfterDeleteRole(db, role).Some? && (id, role) !in db.userRoles && Describes(db, id, u)
    requires rule.body.subjectRoleId == role && rule.id !in db.rules && pid !in db.policies
    requires Listed(db, all) && Decide(u, action, res, all, glob).allowed
    requires var r := AfterDeleteRole(WithForbidding(db, pid, name, rule), role);
             r.Some? && Listed(r.value, after) && Describes(r.value, id, v)
    ensures Decide(v, action, res, after, glob).allowed
  {
    var db2 := AfterDeleteRole(WithForbidding(db, pid, name, rule), role).value;
    ForbiddingDeleted(db, role, pid, name, rule);
    hide Decide, Listed, Describes, AfterDeleteRole, WithForbidding;
    SameDescription(db2, AfterDeleteRole(db, role).value, id, v);
    DeletedRecord(db, role, id, u, v);
    AllowedAgain(db, db2, all, after, u, v, action, res, glob);
  }

  /**
    The proviso is needed on every store, for every matcher and every container: if the deleted id is the
    name of a role of a user who does not hold it, and that user is allowed something, then a policy can be
    saved that denies it to the user until the role is deleted and no longer afterwards.
   */
  lemma CascadeMatters(db: Db, role: string, id: string, u: User, action: string, res: Resource, glob: Glob,
                       all: seq<Policy>, pid: string, rid: string, name: string, key: string)
    returns (p: Policy)
    requires Valid(db) && role != [] && AfterDeleteRole(db, role).Some?
    requires Describes(db, id, u) && (id, role) !in db.userRoles && role in u.roles
    requires Listed(db, all) && Decide(u, action, res, all, glob).allowed
    requires Unused(db, pid, rid, name) && |key| <= 128 && key !in res.labels
    ensures |p.rules| == 1 && AfterSavePolicy(db, p, pid, [rid]).Some?
    ensures var db1 := AfterSavePolicy(db, p, pid, [rid]).value;
            && AfterDeleteRole(db1, role).Some?
            && (forall before :: Listed(db1, before) ==> !Decide(u, action, res, before, glob).allowed)
            && (forall after, v :: Listed(AfterDeleteRole(db1, role).value, after)
                                   && Describes(AfterDeleteRole(db1, role).value, id, v)
                                   ==> Decide(v, action, res, after, glob).allowed)
  {
    var rule := Forbidding(rid, pid, role, action, key);
    p := ForbiddingPolicy(pid, name, rule);
    DenyOverrides(u, action, res, all, glob);
    PermittedIsKnown(db, id, u, action);
    ForbiddingSaves(db, role, action, pid, rid, name, key);
    ForbiddingDeleted(db, role, pid, name, rule);
    hide AfterSavePolicy, AfterDeleteRole, Valid, Listed, Decide, Describes, WithForbidding;
    var db1 := WithForbidding(db, pid, name, rule);
    forall before | Listed(db1, before) ensures !Decide(u, action, res, before, glob).allowed {
      ForbiddingDenies(db, role, action, pid, rid, name, key, before, u, res, glob);
    }
    forall after, v | Listed(AfterDeleteRole(db1, role).value, after)
    && Describes(AfterDeleteRole(db1, role).value, id, v)
      ensures Decide(v, action, res, after, glob).allowed
    {
      CascadeLiftsDeny(db, role, id, u, v, action, res, glob, all, pid, name, rule, after);
    }
  }

  /** The record of a user who did not hold the role says the same as before. */
  lemma DeletedRecord(db: Db, role: string, id: string, u: User, v: User)
    requires Valid(db) && AfterDeleteRole(db, role).Some?
    requires Describes(db, id, u) && Describes(AfterDeleteRole(db, role).value, id, v) && (id, role) !in db.userRoles
    ensures forall r :: (r in u.roles <==> r in v.roles) && (r in u.roleIds <==> r in v.roleIds)
    ensures forall p :: p in u.permissions <==> p in v.permissions
  {
    var db' := AfterDeleteRole(db, role).value;
    forall r ensures r in u.roleIds <==> r in v.roleIds {}
    NamesFollow(db, db', id, u, v);
    NamesFollow(db', db, id, v, u);
    forall p ensures p in u.permissions <==> p in v.permissions {
      if p in u.permissions {
        var r :| (id, r) in db.userRoles && r in db.roles && (r, p) in db.rolePermissions;
        assert (id, r) in db'.userRoles && r in db'.roles && (r, p) in db'.rolePermissions;
      }
    }
  }

  lemma NamesFollow(db: Db, db': Db, id: string, u: User, v: User)
    requires Describes(db, id, u) && Describes(db', id, v)
    requires forall r :: r in u.roleIds ==>
               r in v.roleIds && r in db.roles && r in db'.roles && db.roles[r].name == db'.roles[r].name
    ensures forall n :: n in u.roles ==> n in v.roles
  {
    forall n | n in u.roles ensures n in v.roles {
      var i :| 0 <= i < |u.roles| && u.roles[i] == n;
      var r := u.roleIds[i];
      assert r in u.roleIds;
      var j :| 0 <= j < |v.roleIds| && v.roleIds[j] == r;
      assert v.roles[j] == n;
    }
  }
}
