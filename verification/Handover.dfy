/**
  From exec to attach, across both layers: a successful dial attaches the exec that the same request
  created, within 30 seconds of its creation, and no other dial ever attaches it.
 */
module Handover {
  import opened Wrappers
  import opened Database
  import opened StoreRuns
  import opened Policies
  import opened Terminal
  import opened Authorisation
  import Tickets

  predicate Creates(w: World, s: Step) {
    s.Go? && s.r in w.requests && w.requests[s.r].kind.Attach? && s.m.Perform? && !s.m.probe
  }

  predicate Dials(w: World, s: Step) {
    s.Go? && s.r in w.requests && s.m.Dial? && s.m.reached
  }

  /** What a step means to the ticket table; one that does not concern it is an attach without a ticket. */
  function EventOf(w: World, s: Step): Tickets.Event {
    var now := w.gate.instant;
    if Creates(w, s) then Tickets.Create(s.m.token, s.m.execId, Container(w.requests[s.r]), (k: string) => now, now)
    else if Dials(w, s) then Tickets.Use(w.requests[s.r].ticket, now)
    else Tickets.Use("", now)
  }

  function Events(run: seq<World>, steps: seq<Step>, n: nat): (es: seq<Tickets.Event>)
    requires n <= |steps| <= |run|
    ensures |es| == n && forall i :: 0 <= i < n ==> es[i] == EventOf(run[i], steps[i])
  {
    seq(n, i requires 0 <= i < n => EventOf(run[i], steps[i]))
  }

  // ----- One step -----

  /** What a step does to the Gateway. */
  lemma GateAfter(w: World, s: Step, w': World, glob: Glob)
    requires Next(w, s, w', glob)
    ensures w.gate.instant <= w'.gate.instant
    ensures if Creates(w, s)
            then s.m.token != "" && s.m.token !in w.gate.drawn && w'.gate.drawn == w.gate.drawn + {s.m.token}
            else w'.gate.drawn == w.gate.drawn
    ensures Creates(w, s) ==>
              var cleaned := Tickets.Cleaned(w.gate.tickets, (k: string) => w.gate.instant);
              w'.gate.tickets
              == Tickets.Issued(cleaned, s.m.token, s.m.execId, Container(w.requests[s.r]), w.gate.instant)
    ensures Dials(w, s) ==> w'.gate.tickets == Tickets.Consumed(w.gate.tickets, w.requests[s.r].ticket, w.gate.instant)
    ensures !Creates(w, s) && !Dials(w, s) ==> w'.gate.tickets == w.gate.tickets
  {
    hide Apply, After, Written, Commands, Container, Resolved;
  }

  /** Tickets bear drawn tokens, and no drawn token is empty. */
  predicate Drawn(g: Gate) {
    g.tickets.Keys <= g.drawn && "" !in g.drawn
  }

  lemma TableFollows(w: World, s: Step, w': World, glob: Glob)
    requires Next(w, s, w', glob) && Drawn(w.gate)
    ensures Drawn(w'.gate) && w'.gate.tickets == Tickets.Step(w.gate.tickets, EventOf(w, s), true)
  {
    hide Next, Container;
    GateAfter(w, s, w', glob);
  }

  // ----- Whole runs -----

  lemma {:induction false} TableIsRun(run: seq<World>, steps: seq<Step>, glob: Glob, n: nat)
    requires IsRun(run, steps, glob) && n < |run|
    ensures |run| == |steps| + 1 && Drawn(run[n].gate)
    ensures run[n].gate.tickets == Tickets.Run(Events(run, steps, n), true)
  {
    hide IsRun, Next, Inv, EventOf;
    RunStarts(run, steps, glob);
    if n > 0 {
      TableIsRun(run, steps, glob, n - 1);
      StepAt(run, steps, glob, n - 1);
      TableFollows(run[n - 1], steps[n - 1], run[n], glob);
      assert Events(run, steps, n)[..n - 1] == Events(run, steps, n - 1);
    }
  }

  lemma {:induction false} ClockGrows(run: seq<World>, steps: seq<Step>, glob: Glob, i: nat, j: nat)
    requires IsRun(run, steps, glob) && i <= j < |run|
    ensures run[i].gate.instant <= run[j].gate.instant && run[i].gate.drawn <= run[j].gate.drawn
  {
    hide IsRun, Next, Inv;
    RunStarts(run, steps, glob);
    if i < j {
      ClockGrows(run, steps, glob, i, j - 1);
      StepAt(run, steps, glob, j - 1);
      GateAfter(run[j - 1], steps[j - 1], run[j], glob);
    }
  }

  /** No token is drawn twice. */
  lemma DrawnOnce(run: seq<World>, steps: seq<Step>, glob: Glob, i: nat, j: nat)
    requires IsRun(run, steps, glob) && i < j < |steps| <= |run| && Creates(run[i], steps[i])
    requires Creates(run[j], steps[j])
    ensures steps[i].m.token != steps[j].m.token
  {
    hide IsRun, Next, Inv;
    StepAt(run, steps, glob, i);
    StepAt(run, steps, glob, j);
    GateAfter(run[i], steps[i], run[i + 1], glob);
    GateAfter(run[j], steps[j], run[j + 1], glob);
    ClockGrows(run, steps, glob, i + 1, j);
  }

  /** The events of a run are such as the ticket table assumes. */
  lemma EventsAreProper(run: seq<World>, steps: seq<Step>, glob: Glob)
    requires IsRun(run, steps, glob)
    ensures |run| == |steps| + 1
    ensures var es := Events(run, steps, |steps|); Tickets.ClockRuns(es) && Tickets.FreshTokens(es)
  {
    hide IsRun;
    RunStarts(run, steps, glob);
    var es := Events(run, steps, |steps|);
    forall i, j | 0 <= i <= j < |es| ensures es[i].now <= es[j].now { ClockGrows(run, steps, glob, i, j); }
    forall i, j | 0 <= i < j < |es| && es[i].Create? && es[j].Create? ensures es[i].token != es[j].token {
      DrawnOnce(run, steps, glob, i, j);
    }
  }

  /** A request about to dial holds the ticket of the exec it created itself. */
  lemma OwnTicket(run: seq<World>, steps: seq<Step>, glob: Glob, n: nat, r: nat) returns (p: nat)
    requires IsRun(run, steps, glob) && n <= |steps| <= |run| && n < |run| && r in run[n].requests
    requires run[n].requests[r].at == AtDial
    ensures p < n && steps[p].Go? && steps[p].r == r && steps[p].m.Perform? && !steps[p].m.probe
    ensures steps[p].m.token == run[n].requests[r].ticket && run[n].requests[r].kind.Attach?
  {
    hide IsRun, Backed;
    RunIsBacked(run, steps, glob, n);
    ProvableAt(run, steps, n, r, glob);
    var q := run[n].requests[r];
    var e :| Proves(run, steps, n, r, q, e, glob);
    p := e.marks[8];
    assert Check(run[p], steps[p], r, q, 8, glob);
  }

  /** A successful dial is answered by the ticket table with the ticket of this request. */
  lemma DialAnswered(run: seq<World>, steps: seq<Step>, glob: Glob, i: nat)
    requires IsRun(run, steps, glob) && i < |steps| <= |run| && steps[i].Go? && steps[i].m.Dial? && steps[i].m.ok
    ensures steps[i].r in run[i].requests && run[i].requests[steps[i].r].at == AtDial && Dials(run[i], steps[i])
    ensures var q := run[i].requests[steps[i].r];
            && q.ticket in run[i].gate.tickets
            && Tickets.Answers(Events(run, steps, |steps|), true)[i] == Some(run[i].gate.tickets[q.ticket])
  {
    hide IsRun, Inv, Apply, After, Written, Commands, Ticketed;
    StepAt(run, steps, glob, i);
    var es := Events(run, steps, |steps|);
    Tickets.AnswerAt(es, i, true);
    TableIsRun(run, steps, glob, i);
    assert es[..i] == Events(run, steps, i);
  }

  /** The exec that step `p` created, as it was logged. */
  function Created(run: seq<World>, steps: seq<Step>, p: nat): Command
    requires p < |steps| <= |run| && Creates(run[p], steps[p])
  {
    Exec(steps[p].r, run[p].requests[steps[p].r], steps[p].m.shell, false, steps[p].m.execId)
  }

  lemma CreatedWasAuthorised(run: seq<World>, steps: seq<Step>, glob: Glob, p: nat) returns (e: Evidence)
    requires IsRun(run, steps, glob) && p < |steps| <= |run| && Creates(run[p], steps[p])
    ensures Authorised(run, steps, p, Created(run, steps, p), e, glob)
  {
    hide IsRun, Inv, Next, Backed, Can, Authorised, Proves;
    var r, m, q := steps[p].r, steps[p].m, run[p].requests[steps[p].r];
    StepAt(run, steps, glob, p);
    CreatesCan(run[p], steps[p], run[p + 1], glob);
    RunIsBacked(run, steps, glob, p);
    ProvableAt(run, steps, p, r, glob);
    e :| Proves(run, steps, p, r, q, e, glob);
    RowWasSeen(run, steps, p, r, q, e, glob);
    CommandWellFormed(run[p], r, q, m, Created(run, steps, p));
    EvidenceAuthorises(run, steps, glob, p, Created(run, steps, p), e);
  }

  lemma CreatesCan(w: World, s: Step, w': World, glob: Glob)
    requires Next(w, s, w', glob) && Creates(w, s)
    ensures Can(w, w.requests[s.r], s.m) && w.requests[s.r].at == AtCommand
  {
    hide Apply, After, Written, Ticketed, Commands, Resolved;
  }

  lemma ProvableAt(run: seq<World>, steps: seq<Step>, n: nat, r: nat, glob: Glob)
    requires n <= |steps| < |run| && Backed(run, steps, n, glob) && r in run[n].requests
    ensures exists e :: Proves(run, steps, n, r, run[n].requests[r], e, glob)
  {
    hide Proves;
    assert Provable(run, steps, n, r, run[n].requests[r], glob);
  }

  /** A request that has begun keeps its kind. */
  lemma {:induction false} KindStays(run: seq<World>, steps: seq<Step>, glob: Glob, i: nat, j: nat, r: nat)
    requires IsRun(run, steps, glob) && i <= j < |run| && r in run[i].requests
    ensures r in run[j].requests && run[j].requests[r].kind == run[i].requests[r].kind
  {
    hide IsRun, Next, Inv;
    RunStarts(run, steps, glob);
    if i < j {
      KindStays(run, steps, glob, i, j - 1, r);
      StepAt(run, steps, glob, j - 1);
      KindAfter(run[j - 1], steps[j - 1], run[j], glob, r);
    }
  }

  lemma KindAfter(w: World, s: Step, w': World, glob: Glob, r: nat)
    requires Next(w, s, w', glob) && r in w.requests
    ensures r in w'.requests && w'.requests[r].kind == w.requests[r].kind
  {
    hide After, Can, Apply, Written, Ticketed, Commands;
    if s.Go? { LocalsKept(w, w.requests[s.r], s.m, glob); }
  }

  lemma CreatesOwn(run: seq<World>, steps: seq<Step>, glob: Glob, p: nat, i: nat)
    requires IsRun(run, steps, glob) && p < i < |run| && p < |steps| && steps[p].Go? && steps[p].m.Perform?
    requires !steps[p].m.probe
    requires steps[p].r in run[i].requests && run[i].requests[steps[p].r].kind.Attach?
    ensures Creates(run[p], steps[p])
  {
    hide IsRun, Inv, Apply, After, Written, Ticketed, Commands;
    StepAt(run, steps, glob, p);
    KindStays(run, steps, glob, p, i, steps[p].r);
  }

  /**
    Every successful dial, at step `i` of any run: its request created the exec itself at an earlier step
    `p`, at most 30 seconds before and with all eight checks behind it; the ticket it gets is that of this
    very exec; and no other dial of any request ever succeeds with it.
   */
  lemma AttachesOwnExecOnce(run: seq<World>, steps: seq<Step>, glob: Glob, i: nat) returns (p: nat, e: Evidence)
    requires IsRun(run, steps, glob) && i < |steps| <= |run| && steps[i].Go? && steps[i].m.Dial? && steps[i].m.ok
    ensures p < i && Creates(run[p], steps[p]) && steps[p].r == steps[i].r && steps[i].r in run[i].requests
    ensures Authorised(run, steps, p, Created(run, steps, p), e, glob)
    ensures run[i].gate.instant <= run[p].gate.instant + 30_000_000_000
    ensures var ticket := run[i].requests[steps[i].r].ticket;
            && ticket in run[i].gate.tickets && run[i].gate.tickets[ticket].execId == steps[p].m.execId
            && run[i].gate.tickets[ticket].containerId == Container(run[p].requests[steps[p].r])
    ensures forall j :: 0 <= j < |steps| && j != i && steps[j].Go? && steps[j].m.Dial? && steps[j].m.ok ==>
              steps[j].r in run[j].requests && run[j].requests[steps[j].r].ticket != run[i].requests[steps[i].r].ticket
  {
    hide IsRun, Authorised;
    var es, r := Events(run, steps, |steps|), steps[i].r;
    DialAnswered(run, steps, glob, i);
    EventsAreProper(run, steps, glob);
    Tickets.TicketsSingleUse(es, i);
    p := OwnTicket(run, steps, glob, i, r);
    CreatesOwn(run, steps, glob, p, i);
    e := CreatedWasAuthorised(run, steps, glob, p);
    hide Creates, Dials;
    var c :| 0 <= c < i && es[c].Create? && es[c].token == es[i].token && es[i].now <= es[c].now + Tickets.TICKET_LIFE
             && Tickets.Answers(es, true)[i].value.execId == es[c].execId
             && Tickets.Answers(es, true)[i].value.containerId == es[c].containerId;
    assert es[p].Create? && es[p].token == es[c].token;
    assert c == p;
    forall j | 0 <= j < |steps| && j != i && steps[j].Go? && steps[j].m.Dial? && steps[j].m.ok
      ensures steps[j].r in run[j].requests && run[j].requests[steps[j].r].ticket != run[i].requests[r].ticket
    {
      DialAnswered(run, steps, glob, j);
    }
  }
}
