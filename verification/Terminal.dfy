/**
  Terminal and restart requests in any interleaving with each other, with administrator edits and
  with changes in Docker. Every query, every Gateway call and every write is one step; whatever a
  request read earlier may be out of date when it acts on it.
 */
module Terminal {
  import opened Wrappers
  import opened Records
  import opened Database
  import opened StoreRuns
  import opened Policies
  import opened Store
  import opened PolicyStorage
  import opened Inspect
  import Json
  import Tickets
  import Timestamps

  type Doc = map<string, Json.Json>

  datatype Kind = Attach(terminal: string) | Restart(container: string)

  /** What a request does next. */
  datatype Point =
    | AtSession | AtAccount | AtRoles | AtTerminal | AtInspect | AtPolicies | AtRules
    | AtGateway | AtCommand | AtDial | AtAttached | Bridging | AtEnded | Finished

  /** A request with the local variables of its handlers; `csrf` is the hash of the token it presents. */
  datatype Request = Request(kind: Kind, token: string, csrf: string, at: Point, user: User, sessionCsrf: string,
                             row: Option<TerminalRow>, res: Resource, rows: seq<Policy>, listed: seq<Policy>,
                             ticket: string)

  /** What Docker was told to do, by which request, and that request as it stood then. */
  datatype Command =
    | Exec(r: nat, asked: Request, shell: string, probe: bool, execId: string)
    | Restarted(r: nat, asked: Request)

  /** The Gateway's tickets, the tokens it ever drew, and its clock. */
  datatype Gate = Gate(tickets: Tickets.Table, drawn: set<string>, instant: int)

  /** `docs` answers inspect, `now` is the Server's clock as the store formats it. */
  datatype World = World(sys: System, docs: map<string, Doc>, now: string, gate: Gate,
                         requests: map<nat, Request>, log: seq<Command>)

  datatype Move =
    | ReadSession | ReadAccount
    | ReadRoles(join: seq<JoinRow>, roles: seq<string>, roleIds: seq<string>, permissions: seq<string>)
    | ReadTerminal | ReadResource | ReadPolicies(rows: seq<Policy>) | ReadRules(rules: seq<PolicyRule>) | Judge
    | GatewayInspect | Perform(shell: string, probe: bool, execId: string, token: string) | GatewayFails
    | Dial(reached: bool, ok: bool)
    | WriteAttached | Disconnect | WriteEnded | Abandon

  /** `Elsewhere` is any other use of the store: sign-ins, sign-outs, and edits by administrators. */
  datatype Step =
    | Elsewhere(op: Op)
    | Docker(docs: map<string, Doc>)
    | Tick(now: string)
    | Pass(instant: int)
    | Begin(r: nat, kind: Kind, token: string, csrf: string)
    | Go(r: nat, m: Move)

  const NOBODY := User("", "", false, [], [], [])
  const NOTHING := Resource("", map[], false, false)

  function Arriving(kind: Kind, token: string, csrf: string): Request {
    Request(kind, token, csrf, AtSession, NOBODY, "", None, NOTHING, [], [], "")
  }

  function Action(kind: Kind): string {
    if kind.Restart? then RESTART else EXEC
  }

  function Container(q: Request): string {
    if q.kind.Restart? then q.kind.container else if q.row.Some? then q.row.value.containerId else ""
  }

  // ----- Shells -----

  const AUTO := "auto"
  const BASH := "/bin/bash"
  const SH := "/bin/sh"
  const ASH := "/bin/ash"

  predicate Candidate(s: string) {
    s == BASH || s == SH || s == ASH
  }

  predicate ValidShell(s: string) {
    s == "" || s == AUTO || Candidate(s)
  }

  /** The shell that is started or probed: one of the candidates, and the chosen one if one was chosen. */
  predicate Resolved(chosen: string, s: string) {
    Candidate(s) && (Candidate(chosen) ==> s == chosen)
  }

  // ----- The checks -----

  predicate SessionLive(w: World, token: string, userId: string, csrf: string) {
    && Live(w.sys.db, token, w.now)
    && w.sys.db.sessions[token].userId == userId && w.sys.db.sessions[token].csrfHash == csrf
  }

  predicate Unlabelled(w: World, container: string) {
    container in w.docs && !IsSystem(w.docs[container]) && !IsProtected(w.docs[container])
  }

  // ----- Steps -----

  function Place(m: Move): Point {
    match m
    case ReadSession => AtSession
    case ReadAccount => AtAccount
    case ReadRoles(_, _, _, _) => AtRoles
    case ReadTerminal => AtTerminal
    case ReadResource => AtInspect
    case ReadPolicies(_) => AtPolicies
    case ReadRules(_) => AtRules
    case Judge => AtRules
    case GatewayInspect => AtGateway
    case Perform(_, _, _, _) => AtCommand
    case GatewayFails => AtCommand
    case Dial(_, _) => AtDial
    case WriteAttached => AtAttached
    case Disconnect => Bridging
    case WriteEnded => AtEnded
    case Abandon => AtSession
  }

  /**
    May `q` make this move, with these answers from the store? Abandoning covers every lost connection and
    failed query.
   */
  ghost predicate Can(w: World, q: Request, m: Move) {
    && (q.at == Place(m) || m == Abandon || (m == GatewayFails && q.at == AtGateway))
    && match m {
      case ReadRoles(join, roles, ids, ps) =>
        IsJoin(w.sys.db, q.user.id, join) && RolesCollected(join, roles, ids) && PermissionsCollected(join, ps)
      case ReadPolicies(rows) => PoliciesListed(w.sys.db.policies, rows)
      case ReadRules(rules) => |q.listed| < |q.rows| && RulesListed(w.sys.db.rules, q.rows[|q.listed|].id, rules)
      case Judge => |q.listed| == |q.rows|
      case Perform(shell, probe, _, token) =>
        && (q.kind.Attach? && q.row.Some? ==> Resolved(q.row.value.shell, shell))
        && (q.kind.Attach? && !probe ==> token != "" && token !in w.gate.drawn)
      case Dial(reached, ok) => ok ==> reached && Tickets.Valid(w.gate.tickets, q.ticket, w.gate.instant)
      case _ => true
    }
  }

  /** A refused or failed Gateway call ends the terminal row; a restart has none. */
  function Refused(q: Request): Request {
    q.(at := if q.kind.Attach? then AtEnded else Finished)
  }

  ghost function After(w: World, q: Request, m: Move, glob: Glob): Request {
    var db := w.sys.db;
    match m
    case ReadSession =>
      if q.token in db.sessions && SessionLive(w, q.token, db.sessions[q.token].userId, db.sessions[q.token].csrfHash)
      then q.(at := AtAccount, user := q.user.(id := db.sessions[q.token].userId),
              sessionCsrf := db.sessions[q.token].csrfHash)
      else q.(at := Finished)
    case ReadAccount =>
      if q.user.id in db.users
      then q.(at := AtRoles,
              user := q.user.(username := db.users[q.user.id].username, enabled := db.users[q.user.id].enabled))
      else q.(at := Finished)
    case ReadRoles(_, roles, ids, ps) =>
      if q.user.enabled then q.(at := AtTerminal, user := q.user.(roles := roles, roleIds := ids, permissions := ps))
      else q.(at := Finished)
    case ReadTerminal =>
      if q.csrf != q.sessionCsrf then q.(at := Finished)
      else if q.kind.Restart? then q.(at := AtInspect)
      else if Open(db, w.now, q.kind.terminal, q.user.id)
           then q.(at := AtInspect, row := Some(db.terminals[q.kind.terminal]))
      else q.(at := Finished)
    case ReadResource =>
      if Container(q) in w.docs then q.(at := AtPolicies, res := ResourceOf(w.docs[Container(q)]))
      else q.(at := Finished)
    case ReadPolicies(rows) => q.(at := AtRules, rows := rows, listed := [])
    case ReadRules(rules) =>
      if |q.listed| < |q.rows| then q.(listed := q.listed + [q.rows[|q.listed|].(rules := rules)]) else q
    case Judge => q.(at := if Decide(q.user, Action(q.kind), q.res, q.listed, glob).allowed then AtGateway
                     else Finished)
    case GatewayInspect =>
      if Unlabelled(w, Container(q)) && (q.row.Some? ==> ValidShell(q.row.value.shell)) then q.(at := AtCommand)
      else Refused(q)
    case Perform(_, probe, _, token) =>
      if q.kind.Restart? then q.(at := Finished) else if probe then q else q.(at := AtDial, ticket := token)
    case GatewayFails => Refused(q)
    case Dial(_, ok) => q.(at := if ok then AtAttached else AtEnded)
    case WriteAttached => q.(at := Bridging)
    case Disconnect => q.(at := AtEnded)
    case WriteEnded => q.(at := Finished)
    case Abandon => q.(at := Finished)
  }

  function Commands(r: nat, q: Request, m: Move): seq<Command> {
    if !m.Perform? then []
    else if q.kind.Restart? then [Restarted(r, q)]
    else [Exec(r, q, m.shell, m.probe, m.execId)]
  }

  /** Creating the exec that was asked for issues its ticket; a dialled ticket is used up. */
  function Ticketed(g: Gate, q: Request, m: Move): Gate {
    if q.kind.Attach? && m.Perform? && !m.probe then
      var cleaned := Tickets.Cleaned(g.tickets, (k: string) => g.instant);
      g.(tickets := Tickets.Issued(cleaned, m.token, m.execId, Container(q), g.instant), drawn := g.drawn + {m.token})
    else if m.Dial? && m.reached then g.(tickets := Tickets.Consumed(g.tickets, q.ticket, g.instant))
    else g
  }

  function Written(db: Db, q: Request, m: Move): Db {
    if q.kind.Attach? && m.WriteAttached? then AfterTouch(db, q.kind.terminal, Attached)
    else if q.kind.Attach? && m.WriteEnded? then AfterTouch(db, q.kind.terminal, Ended)
    else db
  }

  ghost predicate Enabled(w: World, s: Step) {
    match s
    case Elsewhere(op) => !(op.OnOthers? && op.o.TouchTerminal?)
    case Pass(instant) => w.gate.instant <= instant
    case Begin(r, _, _, _) => r !in w.requests
    case Go(r, m) => r in w.requests && Can(w, w.requests[r], m)
    case _ => true
  }

  ghost function Do(w: World, s: Step, glob: Glob): World
    requires Enabled(w, s)
  {
    match s
    case Elsewhere(op) => w.(sys := Apply(w.sys, op))
    case Docker(docs) => w.(docs := docs)
    case Tick(now) => w.(now := now)
    case Pass(instant) => w.(gate := w.gate.(instant := instant))
    case Begin(r, kind, token, csrf) => w.(requests := w.requests[r := Arriving(kind, token, csrf)])
    case Go(r, m) =>
      var q := w.requests[r];
      w.(sys := w.sys.(db := Written(w.sys.db, q, m)), gate := Ticketed(w.gate, q, m),
         requests := w.requests[r := After(w, q, m, glob)], log := w.log + Commands(r, q, m))
  }

  ghost predicate Next(w: World, s: Step, w': World, glob: Glob) {
    Enabled(w, s) && w' == Do(w, s, glob)
  }

  ghost predicate Init(w: World) {
    Inv(w.sys) && w.requests == map[] && w.log == [] && w.gate.tickets == map[] && w.gate.drawn == {}
  }

  ghost predicate IsRun(run: seq<World>, steps: seq<Step>, glob: Glob) {
    && |run| == |steps| + 1 && Init(run[0])
    && forall i :: 0 <= i < |steps| ==> Next(run[i], steps[i], run[i + 1], glob)
  }

  lemma WrittenKeepsInv(sys: System, q: Request, m: Move)
    requires Inv(sys)
    ensures Inv(sys.(db := Written(sys.db, q, m)))
  {
    if q.kind.Attach? {
      ApplyKeepsInv(sys, OnOthers(TouchTerminal(q.kind.terminal, Attached)));
      ApplyKeepsInv(sys, OnOthers(TouchTerminal(q.kind.terminal, Ended)));
    }
    hide Inv;
  }

  lemma NextKeepsInv(w: World, s: Step, w': World, glob: Glob)
    requires Inv(w.sys) && Next(w, s, w', glob)
    ensures Inv(w'.sys)
  {
    hide Inv, Apply, After, Can, Written, Ticketed, Commands;
    match s
    case Elsewhere(op) => ApplyKeepsInv(w.sys, op);
    case Go(r, m) => WrittenKeepsInv(w.sys, w.requests[r], m);
    case _ =>
  }

  lemma {:induction false} RunIsValid(run: seq<World>, steps: seq<Step>, glob: Glob, n: nat)
    requires IsRun(run, steps, glob) && n < |run|
    ensures Inv(run[n].sys)
  {
    hide Inv, Next;
    if n > 0 {
      RunIsValid(run, steps, glob, n - 1);
      NextKeepsInv(run[n - 1], steps[n - 1], run[n], glob);
    }
  }

  lemma StepAt(run: seq<World>, steps: seq<Step>, glob: Glob, n: nat)
    requires IsRun(run, steps, glob) && n < |steps|
    ensures |run| == |steps| + 1 && Inv(run[n].sys) && Next(run[n], steps[n], run[n + 1], glob)
  {
    hide Next, Inv;
    RunIsValid(run, steps, glob, n);
  }

  lemma RunStarts(run: seq<World>, steps: seq<Step>, glob: Glob)
    requires IsRun(run, steps, glob)
    ensures |run| == |steps| + 1 && run[0].requests == map[] && run[0].log == []
    ensures run[0].gate.tickets == map[] && run[0].gate.drawn == {}
  {
    hide Next, Inv;
  }
}
