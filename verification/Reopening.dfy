/**
  Can an ended terminal row be opened again? Exactly when some request read it before and may still
  write that it is attached. With one attach at a time in flight that never happens; with two, the
  later 'attached' write of one undoes the 'ended' write of the other.
 */
module Reopening {
  import opened Wrappers
  import opened Records
  import opened Database
  import opened StoreRuns
  import opened Policies
  import opened Store
  import opened PolicyStorage
  import opened Inspect
  import opened Terminal
  import opened Authorisation
  import opened Handover
  import Tickets
  import Timestamps

  predicate EndedIn(db: Db, x: string) {
    x in db.terminals && db.terminals[x].status == Ended
  }

  predicate IsEnded(w: World, x: string) {
    EndedIn(w.sys.db, x)
  }

  /** Anywhere between reading row `x` and having written that it ended. */
  predicate InFlight(q: Request, x: string) {
    q.kind == Attach(x) && (Passed(q.at) > 3 || q.at.AtAttached? || q.at.Bridging? || q.at.AtEnded?)
  }

  predicate ShellFits(q: Request) {
    q.row.Some? ==> ValidShell(q.row.value.shell)
  }

  predicate Permitted(q: Request) {
    Action(q.kind) in q.user.permissions
  }

  ghost predicate NothingReadDenies(q: Request, glob: Glob) {
    forall p :: p in q.listed ==> !Has(p, Deny, q.user, Action(q.kind), q.res, glob)
  }

  /**
    The request has read row `x` and nothing it has read since keeps it from writing that the row is
    attached: a valid ticket when it dials, an accepted shell before the Gateway looks, and before the
    decision the permission, a container without immutable label and no deny among the rules read so far.
   */
  ghost predicate MayAttach(w: World, q: Request, x: string, glob: Glob) {
    q.kind == Attach(x) &&
    match q.at
    case AtAttached => true
    case AtDial => Tickets.Valid(w.gate.tickets, q.ticket, w.gate.instant)
    case AtCommand => true
    case AtGateway => ShellFits(q)
    case AtRules => ShellFits(q) && Permitted(q) && !Immutable(q.res, Action(q.kind)) && NothingReadDenies(q, glob)
    case AtPolicies => ShellFits(q) && Permitted(q) && !Immutable(q.res, Action(q.kind))
    case AtInspect => ShellFits(q) && Permitted(q)
    case _ => false
  }

  ghost predicate SomeMayAttach(w: World, x: string, glob: Glob) {
    exists r :: r in w.requests && MayAttach(w, w.requests[r], x, glob)
  }

  // ----- Other users of the store leave existing rows alone -----

  predicate RowsKept(db: Db, db': Db) {
    forall x :: x in db.terminals ==> x in db'.terminals && db'.terminals[x] == db.terminals[x]
  }

  /** New rows start as created. */
  predicate NewRowsCreated(db: Db, db': Db) {
    forall x :: x in db'.terminals && x !in db.terminals ==> db'.terminals[x].status == Created
  }

  lemma UserOpKeepsTerminals(db: Db, op: UserOp)
    requires Valid(db)
    ensures ApplyUser(db, op).terminals == db.terminals
  {
    match op
    case Seed => if AfterSeed(db, CATALOG, SEEDS).Some? { SeedKeepsValid(db, CATALOG, SEEDS); }
    case CreateUser(id, n, h, rs, e) =>
      if AfterCreateUser(db, id, n, h, rs, e).Some? { CreateUserKeepsValid(db, id, n, h, rs, e); }
    case Bootstrap(id, n, h) =>
    case UpdateUser(id, e, rs, p) => UpdateKeepsTerminals(db, id, e, rs, p);
    case Recover(f, h, a, t) =>
  }

  lemma UpdateKeepsTerminals(db: Db, id: string, enable: Option<bool>, names: Option<seq<string>>,
                             password: Option<Option<string>>)
    ensures AfterUpdateUser(db, id, enable, names, password).Done? ==>
              AfterUpdateUser(db, id, enable, names, password).db.terminals == db.terminals
  {
    hide CanAssign, LosesLastAdmin, Selection, WithoutUser, RevokeAllOf, SetEnabled, SetHash;
  }

  lemma RoleOpKeepsTerminals(s: System, op: RoleOp)
    ensures ApplyRole(s, op).db.terminals == s.db.terminals
  {
    hide NameTaken, CanGrant, WithoutRole, WithoutHolders, RulesNotNaming, ValidRoleName, Truncate;
  }

  lemma ElsewhereKeepsRows(s: System, op: Op)
    requires Inv(s) && !(op.OnOthers? && op.o.TouchTerminal?)
    ensures RowsKept(s.db, Apply(s, op).db) && NewRowsCreated(s.db, Apply(s, op).db)
  {
    hide Valid, ClearedKept, ApplyUser, ApplySession, ApplyRole, ApplyPolicy;
    match op
    case OnUsers(u) => UserOpKeepsTerminals(s.db, u);
    case OnSessions(x) => SessionOpKeeps(s.db, x);
    case OnRoles(r) => RoleOpKeepsTerminals(s, r);
    case OnPolicies(p) => PolicyOpKeeps(s.db, p);
    case OnOthers(o) =>
  }

  // ----- One step -----

  /** Does this step write the given status to row `x`? */
  predicate Writes(w: World, s: Step, x: string, status: Status) {
    && s.Go? && s.r in w.requests && w.requests[s.r].kind == Attach(x)
    && ((s.m.WriteAttached? && status == Attached) || (s.m.WriteEnded? && status == Ended))
  }

  lemma TablesAfter(w: World, s: Step, w': World, glob: Glob)
    requires Next(w, s, w', glob)
    ensures match s {
              case Elsewhere(op) => !(op.OnOthers? && op.o.TouchTerminal?) && w'.sys == Apply(w.sys, op)
              case Go(r, m) => r in w.requests && w'.sys.db == Written(w.sys.db, w.requests[r], m)
              case _ => w'.sys == w.sys
            }
  {
    hide Apply, After, Can, Written;
  }

  lemma StatusAfterElsewhere(sys: System, op: Op, x: string)
    requires Inv(sys) && !(op.OnOthers? && op.o.TouchTerminal?)
    ensures x in sys.db.terminals ==> x in Apply(sys, op).db.terminals
    ensures EndedIn(Apply(sys, op).db, x) <==> EndedIn(sys.db, x)
  {
    hide Inv, Apply;
    ElsewhereKeepsRows(sys, op);
  }

  lemma StatusAfterWrite(db: Db, q: Request, m: Move, x: string)
    ensures x in db.terminals ==> x in Written(db, q, m).terminals
    ensures q.kind == Attach(x) && m.WriteAttached? ==> !EndedIn(Written(db, q, m), x)
    ensures q.kind == Attach(x) && m.WriteEnded? ==> (EndedIn(Written(db, q, m), x) <==> x in db.terminals)
    ensures !(q.kind == Attach(x) && (m.WriteAttached? || m.WriteEnded?)) ==>
              (EndedIn(Written(db, q, m), x) <==> EndedIn(db, x))
  {
  }

  /** The status of a row after a step: what was written, or what it was, or a new row. */
  lemma StatusAfter(w: World, s: Step, w': World, x: string, glob: Glob)
    requires Inv(w.sys) && Next(w, s, w', glob)
    ensures x in w.sys.db.terminals ==> x in w'.sys.db.terminals
    ensures Writes(w, s, x, Attached) ==> !IsEnded(w', x)
    ensures Writes(w, s, x, Ended) ==> (IsEnded(w', x) <==> x in w.sys.db.terminals)
    ensures !Writes(w, s, x, Attached) && !Writes(w, s, x, Ended) ==> (IsEnded(w', x) <==> IsEnded(w, x))
  {
    hide Inv, Next, Apply, Written, EndedIn;
    TablesAfter(w, s, w', glob);
    match s
    case Elsewhere(op) => StatusAfterElsewhere(w.sys, op, x);
    case Go(r, m) => StatusAfterWrite(w.sys.db, w.requests[r], m, x);
    case _ =>
  }

  // ----- Who may attach after a step could before it -----

  /** A request about to dial holds a ticket that was drawn. */
  predicate TicketsHeld(w: World) {
    forall r :: r in w.requests && w.requests[r].at == AtDial ==> w.requests[r].ticket in w.gate.drawn
  }

  lemma TicketsHeldInRun(run: seq<World>, steps: seq<Step>, glob: Glob, n: nat)
    requires IsRun(run, steps, glob) && n < |run|
    ensures TicketsHeld(run[n])
  {
    hide IsRun, Next, Inv;
    RunStarts(run, steps, glob);
    forall r | r in run[n].requests && run[n].requests[r].at == AtDial
      ensures run[n].requests[r].ticket in run[n].gate.drawn
    {
      var p := OwnTicket(run, steps, glob, n, r);
      CreatesOwn(run, steps, glob, p, n);
      StepAt(run, steps, glob, p);
      GateAfter(run[p], steps[p], run[p + 1], glob);
      ClockGrows(run, steps, glob, p + 1, n);
    }
  }

  /** A drawn ticket that is valid after a step was valid before it. */
  lemma TicketWasValid(w: World, s: Step, w': World, glob: Glob, ticket: string)
    requires Next(w, s, w', glob) && ticket in w.gate.drawn && Tickets.Valid(w'.gate.tickets, ticket, w'.gate.instant)
    ensures Tickets.Valid(w.gate.tickets, ticket, w.gate.instant)
  {
    hide Next, Container;
    GateAfter(w, s, w', glob);
  }

  /** The permission, label and rule part of MayAttach, read off the locals. */
  lemma ReadsOnlyNarrow(w: World, q: Request, m: Move, x: string, glob: Glob)
    requires Can(w, q, m) && (m.ReadTerminal? || m.ReadResource? || m.ReadPolicies? || m.ReadRules?)
    requires MayAttach(w, After(w, q, m, glob), x, glob)
    ensures MayAttach(w, q, x, glob) || (q.kind == Attach(x) && Open(w.sys.db, w.now, x, q.user.id))
  {
    hide PoliciesListed, RulesListed, ResourceOf, ValidShell, Has, SessionLive, Timestamps.Less;
    if m.ReadRules? {
      assert forall p :: p in q.listed ==> p in After(w, q, m, glob).listed;
    }
  }

  lemma JudgeOnlyNarrows(w: World, q: Request, x: string, glob: Glob)
    requires Can(w, q, Judge) && MayAttach(w, After(w, q, Judge, glob), x, glob)
    ensures MayAttach(w, q, x, glob)
  {
    DenyOverrides(q.user, Action(q.kind), q.res, q.listed, glob);
    hide Decide, Has, ValidShell, Immutable;
  }

  /** No move but reading the row while it is open makes a request one that may attach. */
  lemma MoveOnlyNarrows(w: World, q: Request, m: Move, w': World, x: string, glob: Glob)
    requires Can(w, q, m) && MayAttach(w', After(w, q, m, glob), x, glob)
    ensures MayAttach(w, q, x, glob) || (q.kind == Attach(x) && Open(w.sys.db, w.now, x, q.user.id))
    ensures !m.WriteEnded?
  {
    if m.ReadTerminal? || m.ReadResource? || m.ReadPolicies? || m.ReadRules? {
      ReadsOnlyNarrow(w, q, m, x, glob);
    } else if m.Judge? {
      JudgeOnlyNarrows(w, q, x, glob);
    } else {
      hide IsJoin, RolesCollected, PermissionsCollected, Decide, ResourceOf, Unlabelled, Candidate, Open, SessionLive;
    }
  }

  lemma OthersUntouched(w: World, s: Step, w': World, glob: Glob, r: nat)
    requires Next(w, s, w', glob) && r in w'.requests && !(s.Go? && s.r == r)
    ensures if r in w.requests then w'.requests[r] == w.requests[r] else w'.requests[r].at == AtSession
  {
    hide After, Can, Apply, Written, Ticketed, Commands;
  }

  lemma OwnMove(w: World, s: Step, w': World, glob: Glob)
    requires Next(w, s, w', glob) && s.Go?
    ensures s.r in w.requests && s.r in w'.requests && Can(w, w.requests[s.r], s.m)
    ensures w'.requests[s.r] == After(w, w.requests[s.r], s.m, glob)
  {
    hide After, Can, Apply, Written, Ticketed, Commands;
  }

  /** Whoever may attach after a step could before it, unless the row was open then. */
  lemma MayAttachBefore(w: World, s: Step, w': World, x: string, glob: Glob, r: nat)
    requires Next(w, s, w', glob) && TicketsHeld(w) && IsEnded(w, x)
    requires r in w'.requests && MayAttach(w', w'.requests[r], x, glob)
    ensures r in w.requests && MayAttach(w, w.requests[r], x, glob)
    ensures s.Go? && s.r == r ==> !s.m.WriteEnded?
  {
    hide Next, After, Can;
    if s.Go? && s.r == r {
      OwnMove(w, s, w', glob);
      MoveOnlyNarrows(w, w.requests[r], s.m, w', x, glob);
    } else {
      OthersUntouched(w, s, w', glob, r);
      assert r in w.requests;
      if w.requests[r].at == AtDial { TicketWasValid(w, s, w', glob, w.requests[r].ticket); }
    }
  }

  lemma WriterMayAttach(w: World, s: Step, w': World, x: string, glob: Glob)
    requires Next(w, s, w', glob) && Writes(w, s, x, Attached)
    ensures SomeMayAttach(w, x, glob)
  {
    hide Next, After;
    OwnMove(w, s, w', glob);
    assert MayAttach(w, w.requests[s.r], x, glob);
  }

  lemma EndedStays(w: World, s: Step, w': World, x: string, glob: Glob)
    requires Inv(w.sys) && Next(w, s, w', glob) && TicketsHeld(w) && IsEnded(w, x) && !SomeMayAttach(w, x, glob)
    ensures IsEnded(w', x) && !SomeMayAttach(w', x, glob)
  {
    hide Next, Inv, TicketsHeld, MayAttach;
    StatusAfter(w, s, w', x, glob);
    if Writes(w, s, x, Attached) {
      WriterMayAttach(w, s, w', x, glob);
    }
    if SomeMayAttach(w', x, glob) {
      var r :| r in w'.requests && MayAttach(w', w'.requests[r], x, glob);
      MayAttachBefore(w, s, w', x, glob, r);
      assert false;
    }
  }

  // ----- Whole runs -----

  /** An ended row that nobody may still attach stays ended, and no user ever gets it again. */
  lemma {:induction false} EndedForever(run: seq<World>, steps: seq<Step>, glob: Glob, i: nat, j: nat, x: string)
    requires IsRun(run, steps, glob) && i <= j < |run| && IsEnded(run[i], x) && !SomeMayAttach(run[i], x, glob)
    ensures IsEnded(run[j], x) && !SomeMayAttach(run[j], x, glob)
    ensures forall user, now :: !Open(run[j].sys.db, now, x, user)
  {
    hide IsRun, Next, Inv, SomeMayAttach, TicketsHeld, Timestamps.Less;
    RunStarts(run, steps, glob);
    if i < j {
      EndedForever(run, steps, glob, i, j - 1, x);
      StepAt(run, steps, glob, j - 1);
      TicketsHeldInRun(run, steps, glob, j - 1);
      EndedStays(run[j - 1], steps[j - 1], run[j], x, glob);
    }
  }

  /** At most one attach is in flight for the row at any moment. */
  ghost predicate OneAtATime(run: seq<World>, x: string) {
    forall n :: 0 <= n < |run| ==> AtMostOne(run[n], x)
  }

  ghost predicate AtMostOne(w: World, x: string) {
    forall r, t :: r in w.requests && t in w.requests && InFlight(w.requests[r], x) && InFlight(w.requests[t], x) ==>
      r == t
  }

  lemma MayAttachIsInFlight(w: World, q: Request, x: string, glob: Glob)
    ensures MayAttach(w, q, x, glob) ==> InFlight(q, x)
  {
  }

  lemma EndingLeavesNobody(w: World, s: Step, w': World, x: string, glob: Glob)
    requires Next(w, s, w', glob) && Writes(w, s, x, Ended) && AtMostOne(w, x)
    ensures !SomeMayAttach(w', x, glob)
  {
    hide Next, MayAttach, Open, Timestamps.Less;
    OwnMove(w, s, w', glob);
    hide After;
    if SomeMayAttach(w', x, glob) {
      var r :| r in w'.requests && MayAttach(w', w'.requests[r], x, glob);
      MayAttachIsInFlight(w', w'.requests[r], x, glob);
      if s.r != r { OthersUntouched(w, s, w', glob, r); }
      assert false;
    }
  }

  lemma {:induction false} EndedMeansNobody(run: seq<World>, steps: seq<Step>, glob: Glob, n: nat, x: string)
    requires IsRun(run, steps, glob) && n < |run| && OneAtATime(run, x) && IsEnded(run[n], x)
    ensures !SomeMayAttach(run[n], x, glob)
  {
    hide IsRun, Next, Inv, AtMostOne, IsEnded, Writes, TicketsHeld;
    RunStarts(run, steps, glob);
    if n > 0 {
      hide SomeMayAttach;
      var w, s, w' := run[n - 1], steps[n - 1], run[n];
      StepAt(run, steps, glob, n - 1);
      StatusAfter(w, s, w', x, glob);
      if Writes(w, s, x, Ended) {
        EndingLeavesNobody(w, s, w', x, glob);
      } else {
        EndedMeansNobody(run, steps, glob, n - 1, x);
        TicketsHeldInRun(run, steps, glob, n - 1);
        EndedStays(w, s, w', x, glob);
      }
    }
  }

  /** With one attach in flight at a time, an ended row is never returned again. */
  lemma EndedRowsStayClosed(run: seq<World>, steps: seq<Step>, glob: Glob, i: nat, j: nat, x: string)
    requires IsRun(run, steps, glob) && i <= j < |run| && OneAtATime(run, x) && IsEnded(run[i], x)
    ensures IsEnded(run[j], x) && forall user, now :: !Open(run[j].sys.db, now, x, user)
  {
    hide IsRun;
    EndedMeansNobody(run, steps, glob, i, x);
    EndedForever(run, steps, glob, i, j, x);
  }

  // ----- Whoever may attach can reopen the row -----

  /** `w` is what the last step led to. */
  ghost predicate Ends(run: seq<World>, steps: seq<Step>, w: World, glob: Glob) {
    IsRun(run, steps, glob) && run[|steps|] == w
  }

  /** The row is there for its owner at every instant before its expiry. */
  ghost predicate OpenUntilExpiry(db: Db, x: string) {
    && x in db.terminals && !EndedIn(db, x)
    && forall now, u :: Open(db, now, x, u) <==> OpenButStatus(db, now, x, u)
  }

  /** A run that goes on from this one to a state in which row `x` is open again until its expiry. */
  ghost predicate Reopens(run: seq<World>, steps: seq<Step>, run': seq<World>, steps': seq<Step>, x: string,
                          glob: Glob) {
    IsRun(run', steps', glob) && run <= run' && steps <= steps' && OpenUntilExpiry(run'[|steps'|].sys.db, x)
  }

  ghost predicate CanReopen(run: seq<World>, steps: seq<Step>, x: string, glob: Glob) {
    exists run', steps' :: Reopens(run, steps, run', steps', x, glob)
  }

  lemma Extend(run: seq<World>, steps: seq<Step>, w: World, s: Step, w': World, glob: Glob)
    returns (run': seq<World>, steps': seq<Step>)
    requires Ends(run, steps, w, glob) && Next(w, s, w', glob)
    ensures run' == run + [w'] && steps' == steps + [s] && Ends(run', steps', w', glob)
  {
    hide Next, Init;
    run', steps' := run + [w'], steps + [s];
  }

  /** What can still be reopened after a step can be reopened before it. */
  lemma StepBack(run: seq<World>, steps: seq<Step>, run1: seq<World>, steps1: seq<Step>, x: string, glob: Glob)
    requires run <= run1 && steps <= steps1 && CanReopen(run1, steps1, x, glob)
    ensures CanReopen(run, steps, x, glob)
  {
    hide IsRun;
    var run', steps' :| Reopens(run1, steps1, run', steps', x, glob);
    assert Reopens(run, steps, run', steps', x, glob);
  }

  /** The state after a move of request `r` that leaves it as `q'`. */
  function Moved(w: World, r: nat, m: Move, q': Request): World
    requires r in w.requests
  {
    var q := w.requests[r];
    w.(sys := w.sys.(db := Written(w.sys.db, q, m)), gate := Ticketed(w.gate, q, m),
       requests := w.requests[r := q'], log := w.log + Commands(r, q, m))
  }

  /** One move of request `r`, with its effects spelled out. */
  lemma Advance(run: seq<World>, steps: seq<Step>, w: World, r: nat, m: Move, q': Request, glob: Glob)
    returns (run': seq<World>, steps': seq<Step>, w': World)
    requires Ends(run, steps, w, glob) && r in w.requests && Can(w, w.requests[r], m)
    requires After(w, w.requests[r], m, glob) == q'
    ensures Ends(run', steps', w', glob) && run <= run' && steps <= steps' && run' == run + [w']
    ensures w' == Moved(w, r, m, q')
  {
    hide After, Can, Commands, Ends, Ticketed, Written;
    w' := Moved(w, r, m, q');
    assert Next(w, Go(r, m), w', glob);
    run', steps' := Extend(run, steps, w, Go(r, m), w', glob);
  }

  /** Where a request goes after a write or a disconnect. */
  function NextPoint(m: Move): Point {
    if m.WriteAttached? then Bridging else if m.Disconnect? then AtEnded else Finished
  }

  lemma Write(run: seq<World>, steps: seq<Step>, w: World, r: nat, m: Move, glob: Glob)
    returns (run': seq<World>, steps': seq<Step>, w': World)
    requires Ends(run, steps, w, glob) && r in w.requests && w.requests[r].at == Place(m)
    requires m.WriteAttached? || m.Disconnect? || m.WriteEnded?
    ensures Ends(run', steps', w', glob) && run <= run' && steps <= steps' && run' == run + [w'] && w'.now == w.now
    ensures w'.sys.db == Written(w.sys.db, w.requests[r], m)
    ensures w'.requests == w.requests[r := w.requests[r].(at := NextPoint(m))]
  {
    hide Ends, Written, Ticketed, Commands;
    run', steps', w' := Advance(run, steps, w, r, m, w.requests[r].(at := NextPoint(m)), glob);
  }

  lemma FromAttached(run: seq<World>, steps: seq<Step>, w: World, r: nat, x: string, glob: Glob)
    requires Ends(run, steps, w, glob) && x in w.sys.db.terminals
    requires r in w.requests && w.requests[r].kind == Attach(x) && w.requests[r].at == AtAttached
    ensures CanReopen(run, steps, x, glob)
  {
    hide Ends;
    var run', steps', w' := Write(run, steps, w, r, WriteAttached, glob);
    EndsReopened(run, steps, run', steps', w', x, glob);
  }

  lemma EndsReopened(run: seq<World>, steps: seq<Step>, run': seq<World>, steps': seq<Step>, w': World, x: string,
                     glob: Glob)
    requires Ends(run', steps', w', glob) && run <= run' && steps <= steps' && x in w'.sys.db.terminals
    requires !IsEnded(w', x)
    ensures CanReopen(run, steps, x, glob)
  {
    hide Next, Init;
    assert Reopens(run, steps, run', steps', x, glob);
  }

  lemma FromDial(run: seq<World>, steps: seq<Step>, w: World, r: nat, x: string, glob: Glob)
    requires Ends(run, steps, w, glob) && x in w.sys.db.terminals
    requires r in w.requests && w.requests[r].kind == Attach(x) && w.requests[r].at == AtDial
    requires Tickets.Valid(w.gate.tickets, w.requests[r].ticket, w.gate.instant)
    ensures CanReopen(run, steps, x, glob)
  {
    hide Ends, CanReopen;
    var run', steps', w' := DialExec(run, steps, w, r, glob);
    FromAttached(run', steps', w', r, x, glob);
    StepBack(run, steps, run', steps', x, glob);
  }

  /** There is always another token to draw. */
  lemma {:induction false} FreshToken(drawn: set<string>) returns (t: string)
    ensures t != "" && t !in drawn && forall d :: d in drawn ==> |d| < |t|
    decreases |drawn|
  {
    if drawn == {} {
      t := "0";
    } else {
      var d :| d in drawn;
      var t1 := FreshToken(drawn - {d});
      t := t1 + d + "0";
      assert |t| > |t1| && |t| > |d|;
    }
  }

  lemma ShellToStart(chosen: string) returns (shell: string)
    ensures Resolved(chosen, shell)
  {
    shell := if Candidate(chosen) then chosen else BASH;
  }

  lemma FromCommand(run: seq<World>, steps: seq<Step>, w: World, r: nat, x: string, glob: Glob)
    requires Ends(run, steps, w, glob) && x in w.sys.db.terminals
    requires r in w.requests && w.requests[r].kind == Attach(x) && w.requests[r].at == AtCommand
    ensures CanReopen(run, steps, x, glob)
  {
    hide Ends, CanReopen;
    var run', steps', w' := PerformExec(run, steps, w, r, glob);
    FromDial(run', steps', w', r, x, glob);
    StepBack(run, steps, run', steps', x, glob);
  }

  /** Docker may come to answer with a document without labels. */
  lemma Unlabel(run: seq<World>, steps: seq<Step>, w: World, container: string, glob: Glob)
    returns (run': seq<World>, steps': seq<Step>, w': World)
    requires Ends(run, steps, w, glob)
    ensures Ends(run', steps', w', glob) && run <= run' && steps <= steps'
    ensures w' == w.(docs := map[container := map[]]) && Unlabelled(w', container)
    ensures !ResourceOf(w'.docs[container]).system && !ResourceOf(w'.docs[container]).isProtected
  {
    hide Ends, IsSystem, IsProtected, ResourceOf;
    NoLabels();
    w' := w.(docs := map[container := map[]]);
    run', steps' := Extend(run, steps, w, Docker(map[container := map[]]), w', glob);
  }

  lemma NoLabels()
    ensures !IsSystem(map[]) && !IsProtected(map[]) && !ResourceOf(map[]).system && !ResourceOf(map[]).isProtected
  {
  }

  lemma FromGateway(run: seq<World>, steps: seq<Step>, w: World, r: nat, x: string, glob: Glob)
    requires Ends(run, steps, w, glob) && x in w.sys.db.terminals
    requires r in w.requests && w.requests[r].kind == Attach(x) && w.requests[r].at == AtGateway
    requires ShellFits(w.requests[r])
    ensures CanReopen(run, steps, x, glob)
  {
    hide Ends, CanReopen, Unlabelled, ResourceOf, ValidShell;
    var q := w.requests[r];
    var run1, steps1, w1 := Unlabel(run, steps, w, Container(q), glob);
    var run2, steps2, w2 := Advance(run1, steps1, w1, r, GatewayInspect, q.(at := AtCommand), glob);
    FromCommand(run2, steps2, w2, r, x, glob);
    StepBack(run, steps, run2, steps2, x, glob);
  }

  /** An administrator may delete a policy at any time. */
  lemma DropPolicy(run: seq<World>, steps: seq<Step>, w: World, id: string, glob: Glob)
    returns (run': seq<World>, steps': seq<Step>, w': World)
    requires Ends(run, steps, w, glob)
    ensures Ends(run', steps', w', glob) && run <= run' && steps <= steps'
    ensures w' == w.(sys := w.sys.(db := AfterDeletePolicy(w.sys.db, id)))
    ensures RulesListed(w'.sys.db.rules, id, []) && w'.sys.db.policies == w.sys.db.policies - {id}
  {
    hide Ends;
    w' := w.(sys := w.sys.(db := AfterDeletePolicy(w.sys.db, id)));
    run', steps' := Extend(run, steps, w, Elsewhere(OnPolicies(DeletePolicy(id))), w', glob);
  }

  lemma NothingDenies(q: Request, glob: Glob)
    requires Permitted(q) && !Immutable(q.res, Action(q.kind)) && NothingReadDenies(q, glob)
    ensures Decide(q.user, Action(q.kind), q.res, q.listed, glob).allowed
  {
    DenyOverrides(q.user, Action(q.kind), q.res, q.listed, glob);
  }

  /** A policy without rules denies nothing. */
  lemma EmptyPolicyDeniesNothing(q: Request, p: Policy, glob: Glob)
    requires NothingReadDenies(q, glob) && p.rules == []
    ensures NothingReadDenies(q.(listed := q.listed + [p]), glob)
  {
    assert Bodies(p.rules) == {};
    assert !Has(p, Deny, q.user, Action(q.kind), q.res, glob);
    hide Has;
  }

  lemma {:induction false} FromRules(run: seq<World>, steps: seq<Step>, w: World, r: nat, x: string, glob: Glob)
    requires Ends(run, steps, w, glob) && x in w.sys.db.terminals && r in w.requests && w.requests[r].kind == Attach(x)
    requires var q := w.requests[r];
             && q.at == AtRules && |q.listed| <= |q.rows| && ShellFits(q) && Permitted(q)
             && !Immutable(q.res, Action(q.kind)) && NothingReadDenies(q, glob)
    ensures CanReopen(run, steps, x, glob)
    decreases |w.requests[r].rows| - |w.requests[r].listed|
  {
    hide Ends, CanReopen, NothingReadDenies, Immutable, Decide, ValidShell, RulesListed;
    var q := w.requests[r];
    if |q.listed| == |q.rows| {
      NothingDenies(q, glob);
      var run1, steps1, w1 := Advance(run, steps, w, r, Judge, q.(at := AtGateway), glob);
      FromGateway(run1, steps1, w1, r, x, glob);
      StepBack(run, steps, run1, steps1, x, glob);
    } else {
      var p := q.rows[|q.listed|];
      var run1, steps1, w1 := DropPolicy(run, steps, w, p.id, glob);
      var q' := q.(listed := q.listed + [p.(rules := [])]);
      var run2, steps2, w2 := Advance(run1, steps1, w1, r, ReadRules([]), q', glob);
      EmptyPolicyDeniesNothing(q, p.(rules := []), glob);
      FromRules(run2, steps2, w2, r, x, glob);
      StepBack(run, steps, run2, steps2, x, glob);
    }
  }

  lemma {:induction false} FromPolicies(run: seq<World>, steps: seq<Step>, w: World, r: nat, x: string, glob: Glob)
    requires Ends(run, steps, w, glob) && x in w.sys.db.terminals && r in w.requests && w.requests[r].kind == Attach(x)
    requires var q := w.requests[r];
             q.at == AtPolicies && ShellFits(q) && Permitted(q) && !Immutable(q.res, Action(q.kind))
    ensures CanReopen(run, steps, x, glob)
    decreases |w.sys.db.policies.Keys|
  {
    hide Ends, CanReopen, Immutable, ValidShell, RulesListed;
    var q := w.requests[r];
    if w.sys.db.policies.Keys == {} {
      var run1, steps1, w1 :=
        Advance(run, steps, w, r, ReadPolicies([]), q.(at := AtRules, rows := [], listed := []), glob);
      FromRules(run1, steps1, w1, r, x, glob);
      StepBack(run, steps, run1, steps1, x, glob);
    } else {
      var id :| id in w.sys.db.policies.Keys;
      var run1, steps1, w1 := DropPolicy(run, steps, w, id, glob);
      assert w1.sys.db.policies.Keys == w.sys.db.policies.Keys - {id};
      FromPolicies(run1, steps1, w1, r, x, glob);
      StepBack(run, steps, run1, steps1, x, glob);
    }
  }

  lemma FromInspect(run: seq<World>, steps: seq<Step>, w: World, r: nat, x: string, glob: Glob)
    requires Ends(run, steps, w, glob) && x in w.sys.db.terminals && r in w.requests && w.requests[r].kind == Attach(x)
    requires var q := w.requests[r]; q.at == AtInspect && ShellFits(q) && Permitted(q)
    ensures CanReopen(run, steps, x, glob)
  {
    hide Ends, CanReopen, Unlabelled, ResourceOf, ValidShell;
    var q := w.requests[r];
    var run1, steps1, w1 := Unlabel(run, steps, w, Container(q), glob);
    var q' := q.(at := AtPolicies, res := ResourceOf(w1.docs[Container(q)]));
    var run2, steps2, w2 := Advance(run1, steps1, w1, r, ReadResource, q', glob);
    FromPolicies(run2, steps2, w2, r, x, glob);
    StepBack(run, steps, run2, steps2, x, glob);
  }

  /** A request reading rules has not read more than there are policies. */
  lemma ListedFits(run: seq<World>, steps: seq<Step>, glob: Glob, n: nat, r: nat)
    requires IsRun(run, steps, glob) && n < |run| && r in run[n].requests && run[n].requests[r].at == AtRules
    ensures |run[n].requests[r].listed| <= |run[n].requests[r].rows|
  {
    hide IsRun, Backed, Check, RulesListed;
    RunIsBacked(run, steps, glob, n);
    ProvableAt(run, steps, n, r, glob);
    var e :| Proves(run, steps, n, r, run[n].requests[r], e, glob);
  }

  lemma MayAttachReopens(run: seq<World>, steps: seq<Step>, w: World, r: nat, x: string, glob: Glob)
    requires Ends(run, steps, w, glob) && x in w.sys.db.terminals && r in w.requests
    requires MayAttach(w, w.requests[r], x, glob)
    ensures CanReopen(run, steps, x, glob)
  {
    hide CanReopen, IsRun, ShellFits, Permitted, Immutable, NothingReadDenies, Tickets.Valid;
    match w.requests[r].at {
      case AtAttached => FromAttached(run, steps, w, r, x, glob);
      case AtDial => FromDial(run, steps, w, r, x, glob);
      case AtCommand => FromCommand(run, steps, w, r, x, glob);
      case AtGateway => FromGateway(run, steps, w, r, x, glob);
      case AtRules =>
        RunStarts(run, steps, glob);
        ListedFits(run, steps, glob, |steps|, r);
        FromRules(run, steps, w, r, x, glob);
      case AtPolicies => FromPolicies(run, steps, w, r, x, glob);
      case AtInspect => FromInspect(run, steps, w, r, x, glob);
      case _ =>
    }
  }

  lemma NobodyReopens(run: seq<World>, steps: seq<Step>, w: World, x: string, glob: Glob)
    requires Ends(run, steps, w, glob) && IsEnded(w, x) && !SomeMayAttach(w, x, glob)
    ensures !CanReopen(run, steps, x, glob)
  {
    hide IsRun, SomeMayAttach, EndedIn;
    if CanReopen(run, steps, x, glob) {
      var run', steps' :| Reopens(run, steps, run', steps', x, glob);
      RunStarts(run, steps, glob);
      RunStarts(run', steps', glob);
      EndedForever(run', steps', glob, |steps|, |steps'|, x);
      assert false;
    }
  }

  /**
    For every run that ends with row `x` ended: some continuation opens the row again if and only if some
    request in flight read it before and may still attach it.
   */
  lemma ReopenableExactly(run: seq<World>, steps: seq<Step>, w: World, x: string, glob: Glob)
    requires Ends(run, steps, w, glob) && IsEnded(w, x)
    ensures CanReopen(run, steps, x, glob) <==> SomeMayAttach(w, x, glob)
  {
    hide Ends, CanReopen, MayAttach;
    if SomeMayAttach(w, x, glob) {
      var r :| r in w.requests && MayAttach(w, w.requests[r], x, glob);
      MayAttachReopens(run, steps, w, r, x, glob);
    } else {
      NobodyReopens(run, steps, w, x, glob);
    }
  }

  // ----- Lifetime -----

  /** Whatever happens to a row, only its status changes. */
  predicate SameButStatus(a: TerminalRow, b: TerminalRow) {
    a == b.(status := a.status)
  }

  lemma RowAfterWrite(db: Db, q: Request, m: Move, x: string)
    requires x in db.terminals
    ensures x in Written(db, q, m).terminals && SameButStatus(db.terminals[x], Written(db, q, m).terminals[x])
  {
  }

  lemma RowAfterElsewhere(sys: System, op: Op, x: string)
    requires Inv(sys) && !(op.OnOthers? && op.o.TouchTerminal?) && x in sys.db.terminals
    ensures x in Apply(sys, op).db.terminals && Apply(sys, op).db.terminals[x] == sys.db.terminals[x]
  {
    hide Inv, Apply;
    ElsewhereKeepsRows(sys, op);
  }

  lemma RowAfter(w: World, s: Step, w': World, x: string, glob: Glob)
    requires Inv(w.sys) && Next(w, s, w', glob) && x in w.sys.db.terminals
    ensures x in w'.sys.db.terminals && SameButStatus(w.sys.db.terminals[x], w'.sys.db.terminals[x])
  {
    hide Inv, Next, Apply, Written;
    TablesAfter(w, s, w', glob);
    match s
    case Elsewhere(op) => RowAfterElsewhere(w.sys, op, x);
    case Go(r, m) => RowAfterWrite(w.sys.db, w.requests[r], m, x);
    case _ =>
  }

  lemma {:induction false} RowInRun(run: seq<World>, steps: seq<Step>, glob: Glob, i: nat, j: nat, x: string)
    requires IsRun(run, steps, glob) && i <= j < |run| && x in run[i].sys.db.terminals
    ensures x in run[j].sys.db.terminals && SameButStatus(run[i].sys.db.terminals[x], run[j].sys.db.terminals[x])
  {
    hide IsRun, Next, Inv;
    RunStarts(run, steps, glob);
    if i < j {
      RowInRun(run, steps, glob, i, j - 1, x);
      StepAt(run, steps, glob, j - 1);
      RowAfter(run[j - 1], steps[j - 1], run[j], x, glob);
    }
  }

  /**
    Lifetime in real time, over every run: a row created to expire at instant `e` is found only by its
    owner, never a second or more later, and while a second or more remains exactly until it is ended.
   */
  lemma TerminalLifetime(run: seq<World>, steps: seq<Step>, glob: Glob, i: nat, j: nat, x: string, e: int, now: int,
                         userId: string)
    requires IsRun(run, steps, glob) && i <= j < |run| && x in run[i].sys.db.terminals
    requires Timestamps.InRange(e) && Timestamps.InRange(now)
    requires run[i].sys.db.terminals[x].expiresAt == Timestamps.Format(e)
    ensures Open(run[j].sys.db, Timestamps.Format(now), x, userId) ==>
              userId == run[i].sys.db.terminals[x].userId && now < e + Timestamps.NANOS
    ensures now + Timestamps.NANOS <= e ==>
              (Open(run[j].sys.db, Timestamps.Format(now), x, userId)
               <==> userId == run[i].sys.db.terminals[x].userId && !IsEnded(run[j], x))
  {
    hide IsRun, Timestamps.Format, Timestamps.Less;
    RowInRun(run, steps, glob, i, j, x);
    Timestamps.ExpiryWithinASecond(e, now);
  }

  // ----- Two attaches at once -----

  /**
    Everything the checks ask for: an attach to `x` with this session would be let through, `all` being the
    policies.
   */
  ghost predicate LetsIn(w: World, token: string, csrf: string, x: string, u: User, join: seq<JoinRow>,
                         all: seq<Policy>, glob: Glob) {
    var db := w.sys.db;
    && SessionLive(w, token, u.id, csrf) && AccountSeen(db, u) && u.enabled
    && IsJoin(db, u.id, join) && RolesCollected(join, u.roles, u.roleIds) && PermissionsCollected(join, u.permissions)
    && Open(db, w.now, x, u.id) && ValidShell(db.terminals[x].shell)
    && Listed(db, all)
    && var c := db.terminals[x].containerId;
       Unlabelled(w, c) && Decide(u, EXEC, ResourceOf(w.docs[c]), all, glob).allowed
  }

  /** The run goes on to a state that differs only in request `r`, the log and the Gateway's tickets. */
  ghost predicate Came(run: seq<World>, steps: seq<Step>, w: World, r: nat, q: Request,
                       run': seq<World>, steps': seq<Step>, w': World, glob: Glob) {
    && Ends(run', steps', w', glob) && run <= run' && steps <= steps'
    && w' == w.(requests := w.requests[r := q], log := w'.log, gate := w'.gate)
  }

  /**
    Moves that neither create nor dial an exec nor write a status depend on the tables, the documents and the
    clock only.
   */
  predicate Reads(m: Move) {
    !m.Perform? && !m.Dial? && !m.WriteAttached? && !m.WriteEnded?
  }

  lemma SameAnswers(w: World, w': World, q: Request, m: Move, glob: Glob)
    requires w' == w.(requests := w'.requests, log := w'.log, gate := w'.gate) && Reads(m)
    ensures Can(w', q, m) == Can(w, q, m) && After(w', q, m, glob) == After(w, q, m, glob)
  {
    hide IsJoin, RolesCollected, PermissionsCollected, PoliciesListed, RulesListed, Decide, ResourceOf, ValidShell;
  }

  lemma Continue(run: seq<World>, steps: seq<Step>, w: World, r: nat, q: Request,
                 run1: seq<World>, steps1: seq<Step>, w1: World, m: Move, q': Request, glob: Glob)
    returns (run': seq<World>, steps': seq<Step>, w': World)
    requires Came(run, steps, w, r, q, run1, steps1, w1, glob)
    requires Reads(m) && Can(w, q, m) && After(w, q, m, glob) == q'
    ensures Came(run, steps, w, r, q', run', steps', w', glob)
  {
    hide After, Can, Commands, Ends;
    SameAnswers(w, w1, q, m, glob);
    run', steps', w' := Advance(run1, steps1, w1, r, m, q', glob);
  }

  lemma Arrive(run: seq<World>, steps: seq<Step>, w: World, r: nat, kind: Kind, token: string, csrf: string, glob: Glob)
    returns (run': seq<World>, steps': seq<Step>, w': World)
    requires Ends(run, steps, w, glob) && r !in w.requests
    ensures Came(run, steps, w, r, Arriving(kind, token, csrf), run', steps', w', glob)
  {
    hide Ends;
    w' := w.(requests := w.requests[r := Arriving(kind, token, csrf)]);
    run', steps' := Extend(run, steps, w, Begin(r, kind, token, csrf), w', glob);
  }

  /** A request that has read its row, with these answers. */
  function Admitted(w: World, token: string, csrf: string, x: string, u: User): Request
    requires x in w.sys.db.terminals
  {
    Request(Attach(x), token, csrf, AtInspect, u, csrf, Some(w.sys.db.terminals[x]), NOTHING, [], [], "")
  }

  /** From the first request to the terminal row. */
  lemma SignIn(run: seq<World>, steps: seq<Step>, w: World, r: nat, token: string, csrf: string, x: string, u: User,
               join: seq<JoinRow>, all: seq<Policy>, glob: Glob)
    returns (run': seq<World>, steps': seq<Step>, w': World)
    requires Ends(run, steps, w, glob) && r !in w.requests && LetsIn(w, token, csrf, x, u, join, all, glob)
    ensures Came(run, steps, w, r, Admitted(w, token, csrf, x, u), run', steps', w', glob)
  {
    hide Ends, Came, IsJoin, RolesCollected, PermissionsCollected, ResourceOf, Unlabelled, Listed, Decide, ValidShell;
    var q := Arriving(Attach(x), token, csrf);
    run', steps', w' := Arrive(run, steps, w, r, Attach(x), token, csrf, glob);
    var q1 := q.(at := AtAccount, user := NOBODY.(id := u.id), sessionCsrf := csrf);
    run', steps', w' := Continue(run, steps, w, r, q, run', steps', w', ReadSession, q1, glob);
    var q2 := q1.(at := AtRoles, user := q1.user.(username := u.username, enabled := true));
    run', steps', w' := Continue(run, steps, w, r, q1, run', steps', w', ReadAccount, q2, glob);
    var q3 := q2.(at := AtTerminal, user := u);
    run', steps', w' :=
      Continue(run, steps, w, r, q2, run', steps', w', ReadRoles(join, u.roles, u.roleIds, u.permissions), q3, glob);
    run', steps', w' :=
      Continue(run, steps, w, r, q3, run', steps', w', ReadTerminal, Admitted(w, token, csrf, x, u), glob);
  }

  /** Reading the rules of the remaining policies. */
  lemma {:induction false} ReadAll(run: seq<World>, steps: seq<Step>, w: World, r: nat, q: Request,
                                   run1: seq<World>, steps1: seq<Step>, w1: World, all: seq<Policy>, glob: Glob)
    returns (run': seq<World>, steps': seq<Step>, w': World)
    requires q.at == AtRules && q.rows == all && q.listed <= all && Listed(w.sys.db, all)
    requires Came(run, steps, w, r, q, run1, steps1, w1, glob)
    ensures Came(run, steps, w, r, q.(listed := all), run', steps', w', glob)
    decreases |all| - |q.listed|
  {
    hide Came, RulesListed, PoliciesListed;
    var k := |q.listed|;
    if k == |all| {
      assert q.listed == all && q.(listed := all) == q;
      run', steps', w' := run1, steps1, w1;
    } else {
      var q' := q.(listed := q.listed + [all[k].(rules := all[k].rules)]);
      run', steps', w' := Continue(run, steps, w, r, q, run1, steps1, w1, ReadRules(all[k].rules), q', glob);
      run', steps', w' := ReadAll(run, steps, w, r, q', run', steps', w', all, glob);
    }
  }

  /** From the terminal row through the decision. */
  lemma Approve(run: seq<World>, steps: seq<Step>, w: World, r: nat, q: Request, run1: seq<World>, steps1: seq<Step>,
                w1: World,
                all: seq<Policy>, glob: Glob)
    returns (run': seq<World>, steps': seq<Step>, w': World, q': Request)
    requires q.at == AtInspect && q.kind.Attach? && Container(q) in w.docs && Listed(w.sys.db, all)
    requires Decide(q.user, EXEC, ResourceOf(w.docs[Container(q)]), all, glob).allowed
    requires Came(run, steps, w, r, q, run1, steps1, w1, glob)
    ensures q'.at == AtGateway && q'.kind == q.kind && q'.row == q.row
    ensures Came(run, steps, w, r, q', run', steps', w', glob)
  {
    hide Came, RulesListed, ResourceOf, Decide;
    assert PoliciesListed(w.sys.db.policies, all);
    hide PoliciesListed, Listed;
    var q1 := q.(at := AtPolicies, res := ResourceOf(w.docs[Container(q)]));
    run', steps', w' := Continue(run, steps, w, r, q, run1, steps1, w1, ReadResource, q1, glob);
    var q2 := q1.(at := AtRules, rows := all, listed := []);
    run', steps', w' := Continue(run, steps, w, r, q1, run', steps', w', ReadPolicies(all), q2, glob);
    run', steps', w' := ReadAll(run, steps, w, r, q2, run', steps', w', all, glob);
    var q3 := q2.(listed := all);
    q' := q3.(at := AtGateway);
    run', steps', w' := Continue(run, steps, w, r, q3, run', steps', w', Judge, q', glob);
  }

  /** Creating the exec. */
  lemma PerformExec(run: seq<World>, steps: seq<Step>, w: World, r: nat, glob: Glob)
    returns (run': seq<World>, steps': seq<Step>, w': World)
    requires Ends(run, steps, w, glob) && r in w.requests && w.requests[r].kind.Attach? && w.requests[r].at == AtCommand
    ensures Ends(run', steps', w', glob) && run <= run' && steps <= steps'
    ensures r in w'.requests && w'.requests[r].at == AtDial && w'.requests[r].kind == w.requests[r].kind
    ensures w' == w.(requests := w.requests[r := w'.requests[r]], log := w'.log, gate := w'.gate)
    ensures Tickets.Valid(w'.gate.tickets, w'.requests[r].ticket, w'.gate.instant)
  {
    hide Ends, Resolved, Commands, Container;
    var q := w.requests[r];
    var token := FreshToken(w.gate.drawn);
    var shell := ShellToStart(if q.row.Some? then q.row.value.shell else "");
    run', steps', w' :=
      Advance(run, steps, w, r, Perform(shell, false, "", token), q.(at := AtDial, ticket := token), glob);
  }

  /** Dialling a valid ticket. */
  lemma DialExec(run: seq<World>, steps: seq<Step>, w: World, r: nat, glob: Glob)
    returns (run': seq<World>, steps': seq<Step>, w': World)
    requires Ends(run, steps, w, glob) && r in w.requests && w.requests[r].at == AtDial
    requires Tickets.Valid(w.gate.tickets, w.requests[r].ticket, w.gate.instant)
    ensures Ends(run', steps', w', glob) && run <= run' && steps <= steps'
    ensures w' == w.(requests := w.requests[r := w.requests[r].(at := AtAttached)], log := w'.log, gate := w'.gate)
  {
    hide Ends, Ticketed;
    run', steps', w' := Advance(run, steps, w, r, Dial(true, true), w.requests[r].(at := AtAttached), glob);
  }

  /** From the decision to the point where the request is about to write 'attached'. */
  lemma Enter(run: seq<World>, steps: seq<Step>, w: World, r: nat, q: Request, run1: seq<World>, steps1: seq<Step>,
              w1: World, glob: Glob)
    returns (run': seq<World>, steps': seq<Step>, w': World, q': Request)
    requires q.at == AtGateway && q.kind.Attach? && q.row.Some? && ValidShell(q.row.value.shell)
    requires Unlabelled(w, Container(q))
    requires Came(run, steps, w, r, q, run1, steps1, w1, glob)
    ensures q'.at == AtAttached && q'.kind == q.kind && Came(run, steps, w, r, q', run', steps', w', glob)
  {
    hide Ends, Unlabelled, ValidShell;
    var run2, steps2, w2 := Continue(run, steps, w, r, q, run1, steps1, w1, GatewayInspect, q.(at := AtCommand), glob);
    hide After, Can;
    var run3, steps3, w3 := PerformExec(run2, steps2, w2, r, glob);
    run', steps', w' := DialExec(run3, steps3, w3, r, glob);
    q' := w'.requests[r];
  }

  lemma OneAttach(run: seq<World>, steps: seq<Step>, w: World, r: nat, token: string, csrf: string, x: string, u: User,
                  join: seq<JoinRow>, all: seq<Policy>, glob: Glob)
    returns (run': seq<World>, steps': seq<Step>, w': World)
    requires Ends(run, steps, w, glob) && r !in w.requests && LetsIn(w, token, csrf, x, u, join, all, glob)
    ensures Ends(run', steps', w', glob) && run <= run' && steps <= steps' && x in w.sys.db.terminals
    ensures w'.sys == w.sys && w'.docs == w.docs && w'.now == w.now && w'.requests.Keys == w.requests.Keys + {r}
    ensures w'.requests[r].kind == Attach(x) && w'.requests[r].at == AtAttached
    ensures forall s :: s in w.requests && s != r ==> w'.requests[s] == w.requests[s]
  {
    hide Ends, IsJoin, RolesCollected, PermissionsCollected, ResourceOf, IsSystem, IsProtected, SessionLive, Listed,
         Decide, ValidShell;
    var q;
    run', steps', w' := SignIn(run, steps, w, r, token, csrf, x, u, join, all, glob);
    run', steps', w', q := Approve(run, steps, w, r, Admitted(w, token, csrf, x, u), run', steps', w', all, glob);
    run', steps', w', q := Enter(run, steps, w, r, q, run', steps', w', glob);
  }

  lemma LetsInAlso(w: World, w': World, token: string, csrf: string, x: string, u: User, join: seq<JoinRow>,
                   all: seq<Policy>, glob: Glob)
    requires w'.sys == w.sys && w'.docs == w.docs && w'.now == w.now && LetsIn(w, token, csrf, x, u, join, all, glob)
    ensures LetsIn(w', token, csrf, x, u, join, all, glob)
  {
    hide IsJoin, RolesCollected, PermissionsCollected, ResourceOf, Listed, Decide, ValidShell;
  }

  /** One request attaches, disconnects and ends the row. */
  lemma EndRow(run: seq<World>, steps: seq<Step>, w: World, r: nat, x: string, glob: Glob)
    returns (run': seq<World>, steps': seq<Step>, w': World)
    requires Ends(run, steps, w, glob) && x in w.sys.db.terminals
    requires r in w.requests && w.requests[r].kind == Attach(x) && w.requests[r].at == AtAttached
    ensures Ends(run', steps', w', glob) && run <= run' && steps <= steps' && IsEnded(w', x) && w'.now == w.now
    ensures w'.sys.db.terminals == w.sys.db.terminals[x := w.sys.db.terminals[x].(status := Ended)]
    ensures forall s :: s in w.requests && s != r ==> s in w'.requests && w'.requests[s] == w.requests[s]
  {
    hide Ends;
    run', steps', w' := Write(run, steps, w, r, WriteAttached, glob);
    run', steps', w' := Write(run', steps', w', r, Disconnect, glob);
    run', steps', w' := Write(run', steps', w', r, WriteEnded, glob);
  }

  lemma AttachRow(run: seq<World>, steps: seq<Step>, w: World, r: nat, x: string, glob: Glob)
    returns (run': seq<World>, steps': seq<Step>, w': World)
    requires Ends(run, steps, w, glob) && x in w.sys.db.terminals
    requires r in w.requests && w.requests[r].kind == Attach(x) && w.requests[r].at == AtAttached
    ensures Ends(run', steps', w', glob) && run' == run + [w'] && w'.now == w.now
    ensures w'.sys.db.terminals == w.sys.db.terminals[x := w.sys.db.terminals[x].(status := Attached)]
  {
    hide Ends;
    run', steps', w' := Write(run, steps, w, r, WriteAttached, glob);
  }

  lemma EndsAt(run: seq<World>, steps: seq<Step>, w: World, glob: Glob)
    requires Ends(run, steps, w, glob)
    ensures IsRun(run, steps, glob) && |run| == |steps| + 1 && run[|steps|] == w
  {
    hide Next, Init;
  }

  lemma OpenAgain(w: World, w': World, token: string, csrf: string, x: string, u: User, join: seq<JoinRow>,
                  all: seq<Policy>, glob: Glob)
    requires LetsIn(w, token, csrf, x, u, join, all, glob) && w'.now == w.now
    requires w'.sys.db.terminals == w.sys.db.terminals[x := w.sys.db.terminals[x].(status := Attached)]
    ensures Open(w'.sys.db, w'.now, x, u.id)
  {
    hide IsJoin, RolesCollected, PermissionsCollected, ResourceOf, Unlabelled, SessionLive, Listed, Decide, ValidShell;
  }

  /**
    From any state of any run that would let an attach through, whatever else is in flight and whatever
    policies there are, two attaches of the same row can interleave so that the row ends and is open again
    for the same user afterwards.
   */
  lemma TwoAttachesReopen(run: seq<World>, steps: seq<Step>, w: World, r: nat, s: nat, token: string, csrf: string,
                          x: string,
                          u: User, join: seq<JoinRow>, all: seq<Policy>, glob: Glob)
    returns (run': seq<World>, steps': seq<Step>, i: nat)
    requires Ends(run, steps, w, glob) && LetsIn(w, token, csrf, x, u, join, all, glob)
    requires r !in w.requests && s !in w.requests && r != s
    ensures IsRun(run', steps', glob) && run <= run' && i + 1 == |steps'| && |run'| == |steps'| + 1
    ensures IsEnded(run'[i], x) && Open(run'[i + 1].sys.db, run'[i + 1].now, x, u.id)
  {
    hide LetsIn, Ends, IsRun, Open, IsEnded;
    var w1, w2, w3, w4;
    run', steps', w1 := OneAttach(run, steps, w, r, token, csrf, x, u, join, all, glob);
    LetsInAlso(w, w1, token, csrf, x, u, join, all, glob);
    run', steps', w2 := OneAttach(run', steps', w1, s, token, csrf, x, u, join, all, glob);
    run', steps', w3 := EndRow(run', steps', w2, r, x, glob);
    i := |steps'|;
    EndsAt(run', steps', w3, glob);
    run', steps', w4 := AttachRow(run', steps', w3, s, x, glob);
    EndsAt(run', steps', w4, glob);
    OpenAgain(w, w4, token, csrf, x, u, join, all, glob);
  }

  // ----- Such a state exists -----

  const ROLES: map<string, RoleRow> :=
    map[VIEWER_ID := RoleRow(VIEWER_NAME, "", true), DEVELOPER_ID := RoleRow(DEVELOPER_NAME, "", true),
        ADMIN_ID := RoleRow(ADMIN_NAME, "", true)]

  /** One administrator with a session and a terminal row, and no policies. */
  const SMALL: Db :=
    EMPTY_DB.(users := map["u" := UserRow("ann", "", true)], roles := ROLES, permissions := {EXEC},
              rolePermissions := {(ADMIN_ID, EXEC)},
             userRoles := {("u", ADMIN_ID)}, sessions := map["t" := SessionRow("u", "c", "2", false)],
             terminals := map["x" := TerminalRow("u", "web", BASH, "2", Created)])

  lemma RolesAreValid()
    ensures UniqueRoleNames(ROLES) && BuiltinsKept(ROLES)
  {
    RoleNamesDiffer();
    assert ROLES[VIEWER_ID].name == VIEWER_NAME && ROLES[DEVELOPER_ID].name == DEVELOPER_NAME
           && ROLES[ADMIN_ID].name == ADMIN_NAME;
    assert ROLES[VIEWER_ID].builtin && ROLES[DEVELOPER_ID].builtin && ROLES[ADMIN_ID].builtin;
    assert ROLES.Keys == {VIEWER_ID, DEVELOPER_ID, ADMIN_ID};
    hide NoCase;
    forall i, j | i in ROLES && j in ROLES && NoCase(ROLES[i].name, ROLES[j].name) ensures i == j {
      NoCaseSymmetric(ROLES[i].name, ROLES[j].name);
    }
  }

  lemma NoCaseSymmetric(a: string, b: string)
    ensures NoCase(a, b) == NoCase(b, a)
  {
  }

  lemma SmallIsValid()
    ensures Valid(SMALL)
  {
    RolesAreValid();
    hide UniqueRoleNames, BuiltinsKept;
  }

  lemma SmallJoin(row: JoinRow, join: seq<JoinRow>)
    requires row == JoinRow(ADMIN_ID, ADMIN_NAME, Some(EXEC)) && join == [row]
    ensures IsJoin(SMALL, "u", join) && RolesCollected(join, [ADMIN_NAME], [ADMIN_ID])
    ensures PermissionsCollected(join, [EXEC])
  {
    assert SMALL.roles[ADMIN_ID].name == ADMIN_NAME;
    assert join[0] == row;
    assert Occurs(join, ADMIN_NAME, ADMIN_ID);
    forall r, p | ("u", r) in SMALL.userRoles && (r, p) in SMALL.rolePermissions
      ensures row == JoinRow(r, ROLES[r].name, Some(p))
    {
    }
  }

  /** A first state from which an attach is let through. */
  lemma SomewhereLetsIn(glob: Glob) returns (w: World, u: User, join: seq<JoinRow>)
    ensures Init(w) && LetsIn(w, "t", "c", "x", u, join, [], glob)
  {
    hide Valid, IsJoin, RolesCollected, PermissionsCollected, ResourceOf, IsSystem, IsProtected, Decide, Immutable;
    SmallIsValid();
    NoLabels();
    u := User("u", "ann", true, [ADMIN_NAME], [ADMIN_ID], [EXEC]);
    join := [JoinRow(ADMIN_ID, ADMIN_NAME, Some(EXEC))];
    w := World(System(SMALL, {}), map["web" := map[]], "1", Gate(map[], {}, 0), map[], []);
    SmallJoin(join[0], join);
    AllowedWithoutPolicies(u, ResourceOf(map[]), glob);
    assert Timestamps.Less("1", "2");
  }

  lemma AllowedWithoutPolicies(u: User, res: Resource, glob: Glob)
    requires EXEC in u.permissions && !res.system && !res.isProtected
    ensures Decide(u, EXEC, res, [], glob).allowed
  {
    DenyOverrides(u, EXEC, res, [], glob);
  }
}
