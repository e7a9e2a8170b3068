/**
  Every command that reaches Docker was authorised by the request that sent it: each check was made by
  a step of that very request, after it began and before it acted, and held in the state of that step.
 */
module Authorisation {
  import opened Wrappers
  import opened Records
  import opened Database
  import opened StoreRuns
  import opened Policies
  import opened Store
  import opened PolicyStorage
  import opened Inspect
  import opened Terminal
  import Timestamps

  /**
    The moments of a run that justify a request: when it began, when it passed each check, and when it
    read the rules of each policy. Step number `i` is taken in state number `i`.
   */
  datatype Evidence = Evidence(begin: nat, marks: seq<nat>, rules: seq<nat>)

  /** How many checks a request at this point has passed; past the dialling it has nothing left to justify. */
  function Passed(at: Point): nat {
    match at
    case AtAccount => 1 case AtRoles => 2 case AtTerminal => 3 case AtInspect => 4 case AtPolicies => 5
    case AtRules => 6 case AtGateway => 7 case AtCommand => 8 case AtDial => 9 case _ => 0
  }

  ghost predicate Rising(marks: seq<nat>, n: nat) {
    && (forall i :: 0 <= i < |marks| ==> marks[i] < n)
    && (forall i, j :: 0 <= i < j < |marks| ==> marks[i] < marks[j])
  }

  predicate RowSeen(w: World, q: Request) {
    && q.csrf == q.sessionCsrf
    && (q.kind.Attach? ==>
          && Open(w.sys.db, w.now, q.kind.terminal, q.user.id)
          && q.row == Some(w.sys.db.terminals[q.kind.terminal]))
  }

  predicate ResourceSeen(w: World, q: Request) {
    Container(q) in w.docs && q.res == ResourceOf(w.docs[Container(q)])
  }

  predicate ShellAccepted(q: Request) {
    q.kind.Attach? ==> q.row.Some? && ValidShell(q.row.value.shell)
  }

  /** The move by which request `q` makes check number `k`; the last one creates the exec. */
  predicate Makes(m: Move, q: Request, k: nat) {
    match k
    case 0 => m.ReadSession?
    case 1 => m.ReadAccount?
    case 2 => m.ReadRoles?
    case 3 => m.ReadTerminal?
    case 4 => m.ReadResource?
    case 5 => m == ReadPolicies(q.rows)
    case 6 => m.Judge?
    case 7 => m.GatewayInspect?
    case _ => m.Perform? && !m.probe && m.token == q.ticket && q.kind.Attach?
  }

  /** What check number `k` of request `q` finds in state `w`. */
  ghost predicate Finds(w: World, q: Request, k: nat, glob: Glob) {
    match k
    case 0 => SessionLive(w, q.token, q.user.id, q.sessionCsrf)
    case 1 => AccountSeen(w.sys.db, q.user)
    case 2 => q.user.enabled && Holds(w.sys.db, q.user)
    case 3 => RowSeen(w, q)
    case 4 => ResourceSeen(w, q)
    case 5 => PoliciesListed(w.sys.db.policies, q.rows)
    case 6 => |q.listed| == |q.rows| && Decide(q.user, Action(q.kind), q.res, q.listed, glob).allowed
    case 7 => Unlabelled(w, Container(q)) && ShellAccepted(q)
    case _ => true
  }

  /** Step `s`, taken in state `w`, is check number `k` of request number `r`, and it is passed. */
  ghost predicate Check(w: World, s: Step, r: nat, q: Request, k: nat, glob: Glob) {
    s.Go? && s.r == r && Makes(s.m, q, k) && Finds(w, q, k, glob)
  }

  /** The rules listed so far, each read by a step of its own after the policy rows. */
  ghost predicate RulesSeen(run: seq<World>, steps: seq<Step>, n: nat, r: nat, q: Request, e: Evidence)
    requires n <= |steps| <= |run|
  {
    && |e.rules| == |q.listed| <= |q.rows|
    && (forall i :: 0 <= i < |q.listed| ==>
          && |e.marks| > 5 && e.marks[5] < e.rules[i] < n && (|e.marks| > 6 ==> e.rules[i] < e.marks[6])
          && q.listed[i] == q.rows[i].(rules := q.listed[i].rules)
          && steps[e.rules[i]] == Go(r, ReadRules(q.listed[i].rules))
          && RulesListed(run[e.rules[i]].sys.db.rules, q.rows[i].id, q.listed[i].rules))
  }

  predicate Began(steps: seq<Step>, n: nat, r: nat, q: Request, e: Evidence)
    requires n <= |steps|
  {
    && e.begin < n && steps[e.begin] == Begin(r, q.kind, q.token, q.csrf)
    && (e.marks != [] ==> e.begin < e.marks[0])
  }

  /** `e` justifies how far request `q`, number `r`, has come before moment `n`. */
  ghost predicate Proves(run: seq<World>, steps: seq<Step>, n: nat, r: nat, q: Request, e: Evidence, glob: Glob)
    requires n <= |steps| <= |run|
  {
    && |e.marks| == Passed(q.at) && Rising(e.marks, n) && Began(steps, n, r, q, e)
    && (forall k :: 0 <= k < |e.marks| ==> Check(run[e.marks[k]], steps[e.marks[k]], r, q, k, glob))
    && (Passed(q.at) > 5 ==> RulesSeen(run, steps, n, r, q, e))
  }

  // ----- Every move keeps a request justified -----

  lemma LaterProves(run: seq<World>, steps: seq<Step>, n: nat, r: nat, q: Request, e: Evidence, glob: Glob)
    requires n < |steps| <= |run| && Proves(run, steps, n, r, q, e, glob)
    ensures Proves(run, steps, n + 1, r, q, e, glob)
  {
    hide Check, RulesListed;
  }

  /** Checks up to `upto` do not depend on the locals that differ between the two requests. */
  ghost predicate KeepsChecks(q: Request, q': Request, upto: nat, glob: Glob) {
    forall w, s, r, k :: 0 <= k < upto && Check(w, s, r, q, k, glob) ==> Check(w, s, r, q', k, glob)
  }

  ghost predicate SameOrigin(q: Request, q': Request) {
    q'.kind == q.kind && q'.token == q.token && q'.csrf == q.csrf
  }

  /** One more check passed: everything before it still holds of the request with its new locals. */
  lemma OneMoreMark(run: seq<World>, steps: seq<Step>, n: nat, r: nat, q: Request, q': Request, e: Evidence, glob: Glob)
    requires n < |steps| <= |run| && Proves(run, steps, n, r, q, e, glob)
    requires Passed(q'.at) == Passed(q.at) + 1 && SameOrigin(q, q')
    requires Check(run[n], steps[n], r, q', Passed(q.at), glob) && KeepsChecks(q, q', Passed(q.at), glob)
    requires q.at == AtPolicies ==> q'.listed == []
    requires Passed(q.at) > 5 ==> q'.listed == q.listed && q'.rows == q.rows
    ensures Proves(run, steps, n + 1, r, q',
                   Evidence(e.begin, e.marks + [n], if q.at == AtPolicies then [] else e.rules), glob)
  {
    hide Check, RulesListed;
  }

  /** A move that passes check number Passed(q.at), or none. */
  ghost predicate MarksOrStops(w: World, r: nat, q: Request, m: Move, glob: Glob) {
    var q' := After(w, q, m, glob);
    || Passed(q'.at) == 0
    || (Passed(q'.at) == Passed(q.at) + 1 && Check(w, Go(r, m), r, q', Passed(q.at), glob)
        && KeepsChecks(q, q', Passed(q.at), glob))
  }

  lemma EarlyReads(w: World, r: nat, q: Request, m: Move, glob: Glob)
    requires Can(w, q, m) && (m.ReadSession? || m.ReadAccount? || m.ReadTerminal?)
    ensures MarksOrStops(w, r, q, m, glob)
  {
    hide Holds, Timestamps.Less;
  }

  lemma RolesRead(w: World, r: nat, q: Request, m: Move, glob: Glob)
    requires UniqueRoleNames(w.sys.db.roles) && Can(w, q, m) && m.ReadRoles?
    ensures MarksOrStops(w, r, q, m, glob)
  {
    hide UniqueRoleNames, IsJoin, RolesCollected, PermissionsCollected, Holds, SessionLive;
    JoinHolds(w.sys.db, q.user.(roles := m.roles, roleIds := m.roleIds, permissions := m.permissions), m.join);
  }

  lemma LateReads(w: World, r: nat, q: Request, m: Move, glob: Glob)
    requires Can(w, q, m) && (m.ReadResource? || m.ReadPolicies? || m.Judge? || m.GatewayInspect?)
    requires q.kind.Attach? ==> q.row.Some?
    ensures MarksOrStops(w, r, q, m, glob)
  {
    hide PoliciesListed, Decide, Holds, SessionLive, ResourceOf, IsSystem, IsProtected, ValidShell, Open;
  }

  lemma Performs(w: World, r: nat, q: Request, m: Move, glob: Glob)
    requires Can(w, q, m) && m.Perform? && !m.probe
    ensures MarksOrStops(w, r, q, m, glob)
  {
    hide PoliciesListed, Decide, Holds, SessionLive, ResourceOf, Unlabelled, ValidShell, Open, Resolved;
  }

  lemma RowWasSeen(run: seq<World>, steps: seq<Step>, n: nat, r: nat, q: Request, e: Evidence, glob: Glob)
    requires n <= |steps| <= |run| && Proves(run, steps, n, r, q, e, glob) && Passed(q.at) > 3
    ensures q.kind.Attach? ==> q.row.Some?
  {
    assert Check(run[e.marks[3]], steps[e.marks[3]], r, q, 3, glob);
  }

  lemma ListedIsNew(q: Request, listed: seq<Policy>, glob: Glob)
    ensures KeepsChecks(q, q.(listed := listed), 6, glob)
  {
    hide PoliciesListed, Holds, ResourceOf, Open, SessionLive;
  }

  /** Reading the rules of one more policy. */
  lemma OneMorePolicy(run: seq<World>, steps: seq<Step>, n: nat, r: nat, q: Request, rules: seq<PolicyRule>,
                      e: Evidence, glob: Glob)
    requires n < |steps| <= |run| && Proves(run, steps, n, r, q, e, glob) && q.at == AtRules && |q.listed| < |q.rows|
    requires steps[n] == Go(r, ReadRules(rules)) && RulesListed(run[n].sys.db.rules, q.rows[|q.listed|].id, rules)
    ensures var q' := q.(listed := q.listed + [q.rows[|q.listed|].(rules := rules)]);
            Proves(run, steps, n + 1, r, q', Evidence(e.begin, e.marks, e.rules + [n]), glob)
  {
    hide Check, RulesListed;
    ListedIsNew(q, q.listed + [q.rows[|q.listed|].(rules := rules)], glob);
  }

  /** Which locals a move may change, and how far it may go. */
  lemma LocalsKept(w: World, q: Request, m: Move, glob: Glob)
    requires Can(w, q, m)
    ensures var q' := After(w, q, m, glob);
            && (m.ReadPolicies? ==> q'.listed == [])
            && (!m.ReadPolicies? && !m.ReadRules? ==> q'.listed == q.listed && q'.rows == q.rows)
            && (m.Perform? && m.probe && q.kind.Attach? ==> q' == q)
            && SameOrigin(q, q')
  {
    hide IsJoin, RolesCollected, PermissionsCollected, PoliciesListed, RulesListed, Decide, ResourceOf, Unlabelled,
         ValidShell, Resolved, Open, SessionLive;
  }

  /** Moves that are no check stop the request or leave it where it is. */
  lemma OtherMoves(w: World, q: Request, m: Move, glob: Glob)
    requires Can(w, q, m)
    requires (m.GatewayFails? || m.Dial? || m.WriteAttached? || m.Disconnect? || m.WriteEnded? || m.Abandon?
                              || (m.Perform? && m.probe))
    ensures Passed(After(w, q, m, glob).at) == 0 || After(w, q, m, glob) == q
  {
  }

  lemma StoppedProves(run: seq<World>, steps: seq<Step>, n: nat, r: nat, q: Request, q': Request, e: Evidence,
                      glob: Glob)
    requires n < |steps| <= |run| && Proves(run, steps, n, r, q, e, glob) && SameOrigin(q, q') && Passed(q'.at) == 0
    ensures Proves(run, steps, n + 1, r, q', Evidence(e.begin, [], []), glob)
  {
    hide Check;
  }

  /** A check leads on or stops. */
  lemma CheckMarks(run: seq<World>, steps: seq<Step>, n: nat, r: nat, q: Request, m: Move, e: Evidence, glob: Glob)
    requires n < |steps| <= |run| && UniqueRoleNames(run[n].sys.db.roles) && Proves(run, steps, n, r, q, e, glob)
    requires Can(run[n], q, m) && !m.ReadRules?
    requires !(m.GatewayFails? || m.Dial? || m.WriteAttached? || m.Disconnect? || m.WriteEnded? || m.Abandon?
               || (m.Perform? && m.probe))
    ensures MarksOrStops(run[n], r, q, m, glob)
  {
    hide UniqueRoleNames, MarksOrStops;
    if m.ReadSession? || m.ReadAccount? || m.ReadTerminal? {
      EarlyReads(run[n], r, q, m, glob);
    } else if m.ReadRoles? {
      RolesRead(run[n], r, q, m, glob);
    } else if m.Perform? {
      Performs(run[n], r, q, m, glob);
    } else {
      RowWasSeen(run, steps, n, r, q, e, glob);
      LateReads(run[n], r, q, m, glob);
    }
  }

  /** Every move leaves the request with evidence for how far it has come. */
  lemma MoveProves(run: seq<World>, steps: seq<Step>, n: nat, r: nat, q: Request, m: Move, e: Evidence, glob: Glob)
    returns (e': Evidence)
    requires n < |steps| <= |run| && UniqueRoleNames(run[n].sys.db.roles) && Proves(run, steps, n, r, q, e, glob)
    requires steps[n] == Go(r, m) && Can(run[n], q, m)
    ensures Proves(run, steps, n + 1, r, After(run[n], q, m, glob), e', glob)
  {
    var w, q' := run[n], After(run[n], q, m, glob);
    LocalsKept(w, q, m, glob);
    if m.ReadRules? {
      OneMorePolicy(run, steps, n, r, q, m.rules, e, glob);
      return Evidence(e.begin, e.marks, e.rules + [n]);
    }
    hide After, UniqueRoleNames, Check, Proves;
    if m.GatewayFails? || m.Dial? || m.WriteAttached? || m.Disconnect? || m.WriteEnded? || m.Abandon?
       || (m.Perform? && m.probe) {
      OtherMoves(w, q, m, glob);
      if q' == q {
        LaterProves(run, steps, n, r, q, e, glob);
        return e;
      }
    } else {
      CheckMarks(run, steps, n, r, q, m, e, glob);
    }
    if Passed(q'.at) == 0 {
      StoppedProves(run, steps, n, r, q, q', e, glob);
      e' := Evidence(e.begin, [], []);
    } else {
      OneMoreMark(run, steps, n, r, q, q', e, glob);
      e' := Evidence(e.begin, e.marks + [n], if q.at == AtPolicies then [] else e.rules);
    }
  }

  // ----- Whole runs -----

  ghost predicate Provable(run: seq<World>, steps: seq<Step>, n: nat, r: nat, q: Request, glob: Glob)
    requires n <= |steps| <= |run|
  {
    exists e :: Proves(run, steps, n, r, q, e, glob)
  }

  /** A command as it is sent: for the right kind of request, after its last check, with an approved shell. */
  predicate WellFormed(c: Command) {
    c.asked.at == AtCommand &&
    match c
    case Exec(_, q, shell, _, _) => q.kind.Attach? && q.row.Some? && Resolved(q.row.value.shell, shell)
    case Restarted(_, q) => q.kind.Restart?
  }

  /** Step `p` is the one by which request number `c.r` sent command `c`, which became entry `k` of the log. */
  predicate Sent(run: seq<World>, steps: seq<Step>, p: nat, k: nat, c: Command)
    requires p < |steps| <= |run|
  {
    && steps[p].Go? && steps[p].r == c.r && steps[p].m.Perform?
    && c.r in run[p].requests && run[p].requests[c.r] == c.asked
    && Commands(c.r, c.asked, steps[p].m) == [c] && |run[p].log| == k
  }

  ghost predicate Justified(run: seq<World>, steps: seq<Step>, n: nat, k: nat, c: Command, p: nat, e: Evidence,
                            glob: Glob)
    requires n <= |steps| <= |run|
  {
    p < n && Sent(run, steps, p, k, c) && WellFormed(c) && Proves(run, steps, p, c.r, c.asked, e, glob)
  }

  ghost predicate Justifiable(run: seq<World>, steps: seq<Step>, n: nat, k: nat, c: Command, glob: Glob)
    requires n <= |steps| <= |run|
  {
    exists p, e :: Justified(run, steps, n, k, c, p, e, glob)
  }

  ghost predicate Backed(run: seq<World>, steps: seq<Step>, n: nat, glob: Glob)
    requires n <= |steps| && |steps| < |run|
  {
    && (forall r :: r in run[n].requests ==> Provable(run, steps, n, r, run[n].requests[r], glob))
    && (forall k :: 0 <= k < |run[n].log| ==> Justifiable(run, steps, n, k, run[n].log[k], glob))
  }

  lemma LaterProvable(run: seq<World>, steps: seq<Step>, n: nat, r: nat, q: Request, glob: Glob)
    requires n < |steps| <= |run| && Provable(run, steps, n, r, q, glob)
    ensures Provable(run, steps, n + 1, r, q, glob)
  {
    var e :| Proves(run, steps, n, r, q, e, glob);
    LaterProves(run, steps, n, r, q, e, glob);
    hide Proves;
  }

  lemma LaterJustifiable(run: seq<World>, steps: seq<Step>, n: nat, k: nat, c: Command, glob: Glob)
    requires n < |steps| <= |run| && Justifiable(run, steps, n, k, c, glob)
    ensures Justifiable(run, steps, n + 1, k, c, glob)
  {
    hide Proves, Sent, WellFormed;
    var p, e :| Justified(run, steps, n, k, c, p, e, glob);
    assert Justified(run, steps, n + 1, k, c, p, e, glob);
  }

  lemma StaysBacked(run: seq<World>, steps: seq<Step>, n: nat, glob: Glob)
    requires n < |steps| < |run| && Backed(run, steps, n, glob)
    ensures forall r :: r in run[n].requests ==> Provable(run, steps, n + 1, r, run[n].requests[r], glob)
    ensures forall k :: 0 <= k < |run[n].log| ==> Justifiable(run, steps, n + 1, k, run[n].log[k], glob)
  {
    hide Provable, Justifiable;
    forall r | r in run[n].requests ensures Provable(run, steps, n + 1, r, run[n].requests[r], glob) {
      LaterProvable(run, steps, n, r, run[n].requests[r], glob);
    }
    forall k | 0 <= k < |run[n].log| ensures Justifiable(run, steps, n + 1, k, run[n].log[k], glob) {
      LaterJustifiable(run, steps, n, k, run[n].log[k], glob);
    }
  }

  lemma MoveProvable(run: seq<World>, steps: seq<Step>, n: nat, r: nat, q: Request, m: Move, glob: Glob)
    requires n < |steps| <= |run| && UniqueRoleNames(run[n].sys.db.roles) && Provable(run, steps, n, r, q, glob)
    requires steps[n] == Go(r, m) && Can(run[n], q, m)
    ensures Provable(run, steps, n + 1, r, After(run[n], q, m, glob), glob)
  {
    hide Proves, UniqueRoleNames, After, Can;
    var e :| Proves(run, steps, n, r, q, e, glob);
    var e' := MoveProves(run, steps, n, r, q, m, e, glob);
  }

  lemma CommandWellFormed(w: World, r: nat, q: Request, m: Move, c: Command)
    requires Can(w, q, m) && c in Commands(r, q, m) && (q.kind.Attach? ==> q.row.Some?)
    ensures m.Perform? && Commands(r, q, m) == [c] && c.r == r && c.asked == q && WellFormed(c)
  {
  }

  lemma CommandJustifiable(run: seq<World>, steps: seq<Step>, n: nat, r: nat, m: Move, c: Command, glob: Glob)
    requires n < |steps| <= |run| && r in run[n].requests && Provable(run, steps, n, r, run[n].requests[r], glob)
    requires steps[n] == Go(r, m) && Can(run[n], run[n].requests[r], m) && c in Commands(r, run[n].requests[r], m)
    ensures Commands(r, run[n].requests[r], m) == [c] && Justifiable(run, steps, n + 1, |run[n].log|, c, glob)
  {
    var q := run[n].requests[r];
    assert q.at == AtCommand;
    hide Can;
    var e :| Proves(run, steps, n, r, q, e, glob);
    RowWasSeen(run, steps, n, r, q, e, glob);
    hide Proves;
    CommandWellFormed(run[n], r, q, m, c);
    assert Justified(run, steps, n + 1, |run[n].log|, c, n, e, glob);
  }

  lemma BeginProvable(run: seq<World>, steps: seq<Step>, n: nat, s: Step, glob: Glob)
    requires n < |steps| <= |run| && steps[n] == s && s.Begin?
    ensures Provable(run, steps, n + 1, s.r, Arriving(s.kind, s.token, s.csrf), glob)
  {
    assert Proves(run, steps, n + 1, s.r, Arriving(s.kind, s.token, s.csrf), Evidence(n, [], []), glob);
  }

  lemma BackedAfter(run: seq<World>, steps: seq<Step>, n: nat, r: nat, q: Request, cs: seq<Command>, glob: Glob)
    requires n < |steps| < |run| && Backed(run, steps, n, glob) && Provable(run, steps, n + 1, r, q, glob)
    requires |cs| <= 1 && (cs != [] ==> Justifiable(run, steps, n + 1, |run[n].log|, cs[0], glob))
    requires run[n + 1].requests == run[n].requests[r := q] && run[n + 1].log == run[n].log + cs
    ensures Backed(run, steps, n + 1, glob)
  {
    StaysBacked(run, steps, n, glob);
    hide Provable, Justifiable;
    var log := run[n + 1].log;
    forall k | 0 <= k < |log| ensures Justifiable(run, steps, n + 1, k, log[k], glob) {
      if k >= |run[n].log| { assert log[k] == cs[0]; }
    }
  }

  lemma NextStaysBacked(run: seq<World>, steps: seq<Step>, n: nat, glob: Glob)
    requires n < |steps| < |run| && UniqueRoleNames(run[n].sys.db.roles) && Backed(run, steps, n, glob)
    requires Next(run[n], steps[n], run[n + 1], glob)
    ensures Backed(run, steps, n + 1, glob)
  {
    hide UniqueRoleNames, Apply, After, Provable, Justifiable, Can, Ticketed, Written;
    var s := steps[n];
    if s.Go? {
      var q := run[n].requests[s.r];
      MoveProvable(run, steps, n, s.r, q, s.m, glob);
      var cs := Commands(s.r, q, s.m);
      if cs != [] { CommandJustifiable(run, steps, n, s.r, s.m, cs[0], glob); }
      hide Commands;
      BackedAfter(run, steps, n, s.r, After(run[n], q, s.m, glob), cs, glob);
    } else {
      StaysBacked(run, steps, n, glob);
      if s.Begin? { BeginProvable(run, steps, n, s, glob); }
    }
  }

  lemma StartIsBacked(run: seq<World>, steps: seq<Step>, glob: Glob)
    requires |steps| < |run| && run[0].requests == map[] && run[0].log == []
    ensures Backed(run, steps, 0, glob)
  {
  }

  /**
    In every state of every run, every request has made the checks it is past, and every command was sent by
    such a request.
   */
  lemma {:induction false} RunIsBacked(run: seq<World>, steps: seq<Step>, glob: Glob, n: nat)
    requires IsRun(run, steps, glob) && n < |run|
    ensures |run| == |steps| + 1 && Backed(run, steps, n, glob)
  {
    hide IsRun, Next, Backed, ClearedKept, UniqueUsernames, UniqueRoleNames, UniquePolicyNames;
    RunStarts(run, steps, glob);
    if n == 0 {
      StartIsBacked(run, steps, glob);
    } else {
      RunIsBacked(run, steps, glob, n - 1);
      StepAt(run, steps, glob, n - 1);
      NextStaysBacked(run, steps, n - 1, glob);
    }
  }

  // ----- Every command was authorised -----

  /** The permission that a request needs, which is also the action its policies are read for. */
  function Needed(kind: Kind): string {
    match kind
    case Attach(_) => "container.exec"
    case Restart(_) => "container.restart"
  }

  ghost predicate Granted(db: Db, userId: string, action: string) {
    exists r :: (userId, r) in db.userRoles && r in db.roles && (r, action) in db.rolePermissions
  }

  /** No rule of the policy denies. */
  ghost predicate NoDeny(db: Db, policy: string, u: User, action: string, res: Resource, glob: Glob) {
    forall id :: id in db.rules && db.rules[id].policyId == policy && db.rules[id].body.effect == Deny
                 ==> !Binds(db.rules[id].body, u, action, res, glob)
  }

  lemma NoDenyRead(db: Db, p: Policy, u: User, action: string, res: Resource, glob: Glob)
    requires RulesKeyed(db.rules, db.policies, db.permissions, db.roles) && RulesListed(db.rules, p.id, p.rules)
    requires p.enabled && !Has(p, Deny, u, action, res, glob)
    ensures NoDeny(db, p.id, u, action, res, glob)
  {
    forall id | id in db.rules && db.rules[id].policyId == p.id && db.rules[id].body.effect == Deny
      ensures !Binds(db.rules[id].body, u, action, res, glob)
    {
      BindsApplies(db.rules[id].body, u, action, res, glob);
      assert db.rules[id] in p.rules;
      assert db.rules[id].body in Bodies(p.rules);
    }
  }

  /** In state `w` request number `r` reads the rules of the policy, and none of them denies. */
  ghost predicate ReadHarmless(w: World, s: Step, r: nat, policy: string, u: User, action: string, res: Resource,
                               glob: Glob) {
    && s.Go? && s.r == r && s.m.ReadRules? && RulesListed(w.sys.db.rules, policy, s.m.rules)
    && NoDeny(w.sys.db, policy, u, action, res, glob)
  }

  /**
    Every policy that was enabled when request number `r` read the policies had no rule that denies when it
    read its rules.
   */
  ghost predicate NothingDenied(run: seq<World>, steps: seq<Step>, r: nat, from: nat, to: nat,
                                u: User, action: string, res: Resource, glob: Glob)
    requires from < to <= |steps| <= |run|
  {
    forall p :: p in run[from].sys.db.policies && run[from].sys.db.policies[p].enabled ==>
      exists i :: from < i < to && ReadHarmless(run[i], steps[i], r, p, u, action, res, glob)
  }

  lemma PolicyWasHarmless(run: seq<World>, steps: seq<Step>, glob: Glob, n: nat, r: nat, q: Request, e: Evidence,
                          i: nat)
    requires IsRun(run, steps, glob) && n <= |steps| <= |run| && RulesSeen(run, steps, n, r, q, e)
    requires i < |q.listed| && q.rows[i].enabled && Decide(q.user, Action(q.kind), q.res, q.listed, glob).allowed
    ensures ReadHarmless(run[e.rules[i]], steps[e.rules[i]], r, q.rows[i].id, q.user, Action(q.kind), q.res, glob)
  {
    hide Next, Init, Decide, Has, RulesListed, NoDeny;
    DenyOverrides(q.user, Action(q.kind), q.res, q.listed, glob);
    RunIsValid(run, steps, glob, e.rules[i]);
    assert q.listed[i] in q.listed;
    NoDenyRead(run[e.rules[i]].sys.db, q.listed[i], q.user, Action(q.kind), q.res, glob);
  }

  lemma RowOf(policies: map<string, PolicyRow>, rows: seq<Policy>, p: string) returns (i: nat)
    requires PoliciesListed(policies, rows) && p in policies
    ensures i < |rows| && rows[i].id == p && rows[i].enabled == policies[p].enabled
  {
    i :| 0 <= i < |rows| && rows[i].id == p;
  }

  lemma RulesSeenBetween(run: seq<World>, steps: seq<Step>, n: nat, r: nat, q: Request, e: Evidence, i: nat)
    requires n <= |steps| <= |run| && RulesSeen(run, steps, n, r, q, e) && i < |q.listed| && |e.marks| == 8
    ensures |e.rules| == |q.listed| && e.marks[5] < e.rules[i] < e.marks[6] && e.rules[i] < n
  {
    hide RulesListed;
  }

  lemma PoliciesWereHarmless(run: seq<World>, steps: seq<Step>, glob: Glob, n: nat, r: nat, q: Request, e: Evidence)
    requires IsRun(run, steps, glob) && n <= |steps| <= |run| && |e.marks| == 8 && Rising(e.marks, n)
    requires RulesSeen(run, steps, n, r, q, e)
    requires Finds(run[e.marks[5]], q, 5, glob) && Finds(run[e.marks[6]], q, 6, glob)
    ensures NothingDenied(run, steps, r, e.marks[5], e.marks[6], q.user, Action(q.kind), q.res, glob)
  {
    hide IsRun, Decide, ReadHarmless, RulesSeen, PoliciesListed;
    var policies := run[e.marks[5]].sys.db.policies;
    forall p | p in policies && policies[p].enabled
      ensures exists i :: e.marks[5] < i < e.marks[6] &&
                          ReadHarmless(run[i], steps[i], r, p, q.user, Action(q.kind), q.res, glob)
    {
      var i := RowOf(policies, q.rows, p);
      RulesSeenBetween(run, steps, n, r, q, e, i);
      PolicyWasHarmless(run, steps, glob, n, r, q, e, i);
    }
  }

  /** The row of the session: not revoked, not expired as text, of that user and with that CSRF token. */
  predicate SessionFound(sessions: map<string, SessionRow>, token: string, now: string, userId: string, csrf: string) {
    && token in sessions && !sessions[token].revoked && Timestamps.Less(now, sessions[token].expiresAt)
    && sessions[token].userId == userId && sessions[token].csrfHash == csrf
  }

  /** A live session with its CSRF token, of an enabled user who holds the permission. */
  ghost predicate CallerAuthorised(a: World, b: World, c: World, q: Request) {
    && SessionFound(a.sys.db.sessions, q.token, a.now, q.user.id, q.csrf)
    && q.user.id in b.sys.db.users && b.sys.db.users[q.user.id].enabled
    && Holds(c.sys.db, q.user) && Granted(c.sys.db, q.user.id, Needed(q.kind))
  }

  /**
    An exec goes to the container of an open terminal row of that user and starts an approved shell; a restart
    to the container asked for.
   */
  predicate TargetChosen(w: World, c: Command) {
    match c
    case Exec(_, asked, shell, _, _) =>
      && (shell == "/bin/bash" || shell == "/bin/sh" || shell == "/bin/ash")
      && asked.kind.Attach? && asked.kind.terminal in w.sys.db.terminals
      && var row := w.sys.db.terminals[asked.kind.terminal];
         && row.userId == asked.user.id && row.status != Ended && Timestamps.Less(w.now, row.expiresAt)
         && Container(asked) == row.containerId
         && (row.shell == "/bin/bash" || row.shell == "/bin/sh" || row.shell == "/bin/ash" ==> shell == row.shell)
    case Restarted(_, asked) => asked.kind.Restart? && Container(asked) == asked.kind.container
  }

  /** The container as the Server read it carries no immutable label. */
  ghost predicate ServerSawNoLabel(w: World, q: Request) {
    Container(q) in w.docs && ReadAs(w.docs[Container(q)], q.res) && !q.res.system && !q.res.isProtected
  }

  /** The container as the Gateway read it: neither immutable label, if its labels are all texts. */
  ghost predicate GatewaySawNoLabel(w: World, container: string) {
    && container in w.docs
    && !DecodedTrue(w.docs[container], "dockerview.system") && !DecodedTrue(w.docs[container], "dockerview.protected")
  }

  /** Eight checks before moment `p`, in order, each a step of request number `r`, after that request began. */
  predicate OwnSteps(steps: seq<Step>, p: nat, r: nat, q: Request, e: Evidence)
    requires p <= |steps|
  {
    && |e.marks| == 8 && e.begin < e.marks[0] < e.marks[1] < e.marks[2] < e.marks[3]
    && e.marks[3] < e.marks[4] < e.marks[5] < e.marks[6] < e.marks[7] < p
    && steps[e.begin] == Begin(r, q.kind, q.token, q.csrf)
    && forall k :: 0 <= k < 8 ==> var s := steps[e.marks[k]]; s.Go? && s.r == r && Makes(s.m, q, k)
  }

  /** What the request itself had verified when it sent command `c` at moment `p`, each thing at a step of its own. */
  ghost predicate Authorised(run: seq<World>, steps: seq<Step>, p: nat, c: Command, e: Evidence, glob: Glob)
    requires p <= |steps| <= |run|
  {
    var m := e.marks;
    && OwnSteps(steps, p, c.r, c.asked, e)
    && CallerAuthorised(run[m[0]], run[m[1]], run[m[2]], c.asked)
    && TargetChosen(run[m[3]], c)
    && ServerSawNoLabel(run[m[4]], c.asked)
    && NothingDenied(run, steps, c.r, m[5], m[6], c.asked.user, Needed(c.asked.kind), c.asked.res, glob)
    && GatewaySawNoLabel(run[m[7]], Container(c.asked))
  }

  lemma CallerWasAuthorised(a: World, b: World, c: World, d: World, w: World, q: Request, glob: Glob)
    requires Finds(a, q, 0, glob) && Finds(b, q, 1, glob) && Finds(c, q, 2, glob) && Finds(d, q, 3, glob)
    requires Finds(w, q, 6, glob)
    ensures CallerAuthorised(a, b, c, q) && !Immutable(q.res, Action(q.kind))
  {
    DenyOverrides(q.user, Action(q.kind), q.res, q.listed, glob);
    hide Decide, Has, Timestamps.Less, Immutable;
  }

  lemma TargetWasChosen(w: World, c: Command, glob: Glob)
    requires WellFormed(c) && Finds(w, c.asked, 3, glob)
    ensures TargetChosen(w, c)
  {
    hide Timestamps.Less;
  }

  lemma LabelsWereRead(a: World, b: World, q: Request, glob: Glob)
    requires Finds(a, q, 4, glob) && Finds(b, q, 7, glob) && !Immutable(q.res, Action(q.kind))
    ensures ServerSawNoLabel(a, q) && GatewaySawNoLabel(b, Container(q))
  {
    hide ResourceOf, IsSystem, IsProtected, ValidShell, ReadAs, DecodedTrue;
    ResourceMeans(a.docs[Container(q)]);
    GatewayMeans(b.docs[Container(q)]);
  }

  lemma EvidenceAuthorises(run: seq<World>, steps: seq<Step>, glob: Glob, p: nat, c: Command, e: Evidence)
    requires IsRun(run, steps, glob) && p <= |steps| <= |run| && WellFormed(c)
    requires Proves(run, steps, p, c.r, c.asked, e, glob)
    ensures Authorised(run, steps, p, c, e, glob)
  {
    hide IsRun, Finds, Makes, RulesSeen, NothingDenied, CallerAuthorised, TargetChosen, ServerSawNoLabel,
         GatewaySawNoLabel;
    var q, m := c.asked, e.marks;
    assert Passed(q.at) == 8;
    forall k | 0 <= k < 8 ensures Finds(run[m[k]], q, k, glob) {}
    PoliciesWereHarmless(run, steps, glob, p, c.r, q, e);
    CallerWasAuthorised(run[m[0]], run[m[1]], run[m[2]], run[m[3]], run[m[6]], q, glob);
    TargetWasChosen(run[m[3]], c, glob);
    LabelsWereRead(run[m[4]], run[m[7]], q, glob);
  }

  /**
    In every interleaving, every exec and every restart that reached Docker was authorised by its own
    request: entry `k` of the log was sent by step `p` of request number `r`, which had begun at
    `e.begin` and had since passed eight checks by steps of its own, each true in the state it was made in.
   */
  lemma CommandsAuthorised(run: seq<World>, steps: seq<Step>, glob: Glob, n: nat, k: nat) returns (p: nat, e: Evidence)
    requires IsRun(run, steps, glob) && n < |run| && k < |run[n].log|
    ensures |run| == |steps| + 1 && p < n && Sent(run, steps, p, k, run[n].log[k])
    ensures Authorised(run, steps, p, run[n].log[k], e, glob)
  {
    hide IsRun;
    RunIsBacked(run, steps, glob, n);
    assert Justifiable(run, steps, n, k, run[n].log[k], glob);
    hide Backed, Proves, Authorised, Sent, WellFormed;
    p, e :| Justified(run, steps, n, k, run[n].log[k], p, e, glob);
    EvidenceAuthorises(run, steps, glob, p, run[n].log[k], e);
  }

  // ----- Revocation -----

  lemma NextOnlyEndsSessions(w: World, s: Step, w': World, glob: Glob)
    requires Inv(w.sys) && Next(w, s, w', glob)
    ensures SessionsOnlyEnd(w.sys.db.sessions, w'.sys.db.sessions)
  {
    hide Inv, Apply, After, Can, Ticketed, Commands;
    if s.Elsewhere? { ApplyOnlyEndsSessions(w.sys, s.op); }
  }

  lemma {:induction false} RevokedStays(run: seq<World>, steps: seq<Step>, glob: Glob, i: nat, j: nat, h: string)
    requires IsRun(run, steps, glob) && i <= j < |run| && h in run[i].sys.db.sessions
    requires run[i].sys.db.sessions[h].revoked
    ensures h in run[j].sys.db.sessions && run[j].sys.db.sessions[h].revoked
  {
    hide IsRun, Next, Inv;
    RunStarts(run, steps, glob);
    if i < j {
      RevokedStays(run, steps, glob, i, j - 1, h);
      StepAt(run, steps, glob, j - 1);
      NextOnlyEndsSessions(run[j - 1], steps[j - 1], run[j], glob);
    }
  }

  /** Requests are never forgotten. */
  lemma {:induction false} RequestsRemain(run: seq<World>, steps: seq<Step>, glob: Glob, i: nat, j: nat, r: nat)
    requires IsRun(run, steps, glob) && i <= j < |run| && r in run[i].requests
    ensures r in run[j].requests
  {
    hide IsRun, Inv, Apply, After, Can, Ticketed, Commands, Written;
    RunStarts(run, steps, glob);
    if i < j {
      RequestsRemain(run, steps, glob, i, j - 1, r);
      StepAt(run, steps, glob, j - 1);
    }
  }

  /** A request begins once. */
  lemma BeginOnce(run: seq<World>, steps: seq<Step>, glob: Glob, i: nat, j: nat)
    requires IsRun(run, steps, glob) && i < j < |steps| && steps[i].Begin? && steps[j].Begin?
    ensures steps[i].r != steps[j].r
  {
    hide IsRun, Inv, Apply, After, Can, Ticketed, Commands, Written;
    StepAt(run, steps, glob, i);
    StepAt(run, steps, glob, j);
    RequestsRemain(run, steps, glob, i + 1, j, steps[i].r);
  }

  /**
    A command for a session that is revoked in state `i` was sent by a request that had begun, and had read
    its session row, before that state; a request that begins at or after it never sends a command for it.
   */
  lemma OnlyEarlierRequestsAct(run: seq<World>, steps: seq<Step>, glob: Glob, n: nat, k: nat, i: nat)
    returns (p: nat, e: Evidence)
    requires IsRun(run, steps, glob) && n < |run| && k < |run[n].log| && i < |run|
    requires var h := run[n].log[k].asked.token; h in run[i].sys.db.sessions && run[i].sys.db.sessions[h].revoked
    ensures |run| == |steps| + 1 && p < n && Sent(run, steps, p, k, run[n].log[k])
    ensures Authorised(run, steps, p, run[n].log[k], e, glob)
    ensures e.begin < e.marks[0] < i && steps[e.marks[0]] == Go(run[n].log[k].r, ReadSession)
    ensures forall j :: i <= j < |steps| && steps[j].Begin? ==> steps[j].r != run[n].log[k].r
  {
    hide IsRun, Sent, TargetChosen, ServerSawNoLabel, NothingDenied, GatewaySawNoLabel, Holds, Granted, Timestamps.Less;
    p, e := CommandsAuthorised(run, steps, glob, n, k);
    if i <= e.marks[0] {
      RevokedStays(run, steps, glob, i, e.marks[0], run[n].log[k].asked.token);
      assert false;
    }
    forall j | i <= j < |steps| && steps[j].Begin? ensures steps[j].r != run[n].log[k].r {
      BeginOnce(run, steps, glob, e.begin, j);
    }
  }
}
