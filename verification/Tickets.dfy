/**
  The Gateway's exec tickets: single use, valid for 30 seconds, and cleaned up whenever a new
  one is issued. Instants are integer nanoseconds.
 */
module Tickets {
  import opened Wrappers

  const TICKET_LIFE: int := 30_000_000_000

  datatype Ticket = Ticket(execId: string, containerId: string, expires: int, used: bool)
  type Table = map<string, Ticket>

  predicate Dead(t: Ticket, now: int) {
    t.used || now > t.expires
  }

  /** What cleanupTickets leaves; it reads the clock anew at every entry. */
  function Cleaned(d: Table, clock: string -> int): Table {
    map k | k in d && !Dead(d[k], clock(k)) :: d[k]
  }

  function Issued(d: Table, token: string, execId: string, containerId: string, now: int): Table {
    d[token := Ticket(execId, containerId, now + TICKET_LIFE, false)]
  }

  predicate Valid(d: Table, token: string, now: int) {
    token in d && !Dead(d[token], now)
  }

  function Consumed(d: Table, token: string, now: int): Table {
    if Valid(d, token, now) then d[token := d[token].(used := true)] else d
  }

  class Handler {
    var tickets: Table

    constructor ()
      ensures tickets == map[]
    {
      tickets := map[];
    }

    /** Deletes while ranging over the map, in any order. */
    method CleanupTickets(clock: string -> int)
      modifies this
      ensures tickets == Cleaned(old(tickets), clock)
      ensures forall k :: k in tickets <==>
                k in old(tickets) && !old(tickets)[k].used && clock(k) <= old(tickets)[k].expires
      ensures forall k :: k in tickets ==> tickets[k] == old(tickets)[k]
    {
      var todo := tickets.Keys;
      while todo != {}
        invariant todo <= tickets.Keys <= old(tickets).Keys
        invariant forall k :: k in tickets ==> tickets[k] == old(tickets)[k]
        invariant forall k :: k in old(tickets) && k !in todo ==> (k in tickets <==> !Dead(old(tickets)[k], clock(k)))
        decreases |todo|
      {
        var k :| k in todo;
        todo := todo - {k};
        if Dead(tickets[k], clock(k)) {
          tickets := tickets - {k};
        }
      }
    }

    /** The end of createExec: clean up, then store the new ticket. */
    method Issue(token: string, execId: string, containerId: string, clock: string -> int, now: int)
      modifies this
      ensures tickets == Issued(Cleaned(old(tickets), clock), token, execId, containerId, now)
      ensures token in tickets && tickets[token].execId == execId && tickets[token].containerId == containerId
      ensures tickets[token].expires == now + 30_000_000_000 && !tickets[token].used
      ensures forall k :: k != token ==>
                (k in tickets <==> k in old(tickets) && !old(tickets)[k].used && clock(k) <= old(tickets)[k].expires)
                && (k in tickets ==> tickets[k] == old(tickets)[k])
    {
      CleanupTickets(clock);
      tickets := tickets[token := Ticket(execId, containerId, now + TICKET_LIFE, false)];
    }

    /** The start of attach, up to the consumption of the ticket. */
    method Attach(token: string, now: int) returns (t: Option<Ticket>)
      modifies this
      ensures tickets == Consumed(old(tickets), token, now)
      ensures t.Some? <==> token in old(tickets) && !old(tickets)[token].used && now <= old(tickets)[token].expires
      ensures tickets.Keys == old(tickets).Keys
      ensures forall k :: k in tickets ==>
                tickets[k] == old(tickets)[k].(used := old(tickets)[k].used || (k == token && t.Some?))
      ensures t.Some? ==> t.value == old(tickets)[token]
    {
      var ok := token in tickets;
      if ok && (tickets[token].used || now > tickets[token].expires) {
        ok := false;
      }
      if ok {
        t := Some(tickets[token]);
        tickets := tickets[token := tickets[token].(used := true)];
      } else {
        t := None;
      }
    }
  }

  // ----- Runs -----

  datatype Event =
    | Create(token: string, execId: string, containerId: string, clock: string -> int, now: int)
    | Use(token: string, now: int)

  /** A clock that never runs backwards, also between the readings of one cleanup. */
  ghost predicate ClockRuns(es: seq<Event>) {
    && (forall i, j :: 0 <= i <= j < |es| ==> es[i].now <= es[j].now)
    && (forall i, k :: 0 <= i < |es| && es[i].Create? ==>
          es[i].clock(k) <= es[i].now && (i > 0 ==> es[i - 1].now <= es[i].clock(k)))
  }

  /** Tokens are random: none is ever issued twice. */
  ghost predicate FreshTokens(es: seq<Event>) {
    forall i, j :: 0 <= i < j < |es| && es[i].Create? && es[j].Create? ==> es[i].token != es[j].token
  }

  function Step(d: Table, e: Event, cleanup: bool): Table {
    match e
    case Create(token, x, c, clock, now) => Issued(if cleanup then Cleaned(d, clock) else d, token, x, c, now)
    case Use(token, now) => Consumed(d, token, now)
  }

  function Run(es: seq<Event>, cleanup: bool): Table {
    if es == [] then map[] else Step(Run(es[..|es| - 1], cleanup), es[|es| - 1], cleanup)
  }

  /** The answer an attach gets: the ticket, or nothing. */
  function Answer(d: Table, e: Event): Option<Ticket> {
    if e.Use? && Valid(d, e.token, e.now) then Some(d[e.token]) else None
  }

  function Answers(es: seq<Event>, cleanup: bool): (r: seq<Option<Ticket>>)
    ensures |r| == |es|
  {
    if es == [] then [] else
      Answers(es[..|es| - 1], cleanup) + [Answer(Run(es[..|es| - 1], cleanup), es[|es| - 1])]
  }

  /** The cleaned table lost nothing but dead tickets. */
  ghost predicate Refines(c: Table, full: Table, now: int) {
    && (forall k :: k in c ==> k in full && c[k] == full[k])
    && (forall k :: k in full && k !in c ==> Dead(full[k], now))
  }

  lemma StepRefines(c: Table, full: Table, now: int, e: Event)
    requires Refines(c, full, now) && now <= e.now
    requires e.Create? ==> e.token !in full && forall k :: now <= e.clock(k) <= e.now
    ensures Answer(c, e) == Answer(full, e)
    ensures Refines(Step(c, e, true), Step(full, e, false), e.now)
  {
    if e.Create? {
      var c', full' := Step(c, e, true), Step(full, e, false);
      forall k | k in full' && k !in c' ensures Dead(full'[k], e.now) {
        assert k in full && full'[k] == full[k];
        if k in c { assert Dead(c[k], e.clock(k)); }
      }
    }
  }

  lemma {:induction false} KnownTokens(es: seq<Event>, k: string)
    ensures k in Run(es, false) ==> exists i :: 0 <= i < |es| && es[i].Create? && es[i].token == k
  {
    if es != [] {
      var before := es[..|es| - 1];
      KnownTokens(before, k);
      if k in Run(before, false) {
        var i :| 0 <= i < |before| && before[i].Create? && before[i].token == k;
        assert es[i] == before[i];
      }
    }
  }

  lemma NewToken(es: seq<Event>)
    requires es != [] && FreshTokens(es) && es[|es| - 1].Create?
    ensures es[|es| - 1].token !in Run(es[..|es| - 1], false)
  {
    var n := |es| - 1;
    forall i | 0 <= i < n ensures es[..n][i] == es[i] {}
    KnownTokens(es[..n], es[n].token);
  }

  lemma PrefixRuns(es: seq<Event>)
    requires es != [] && ClockRuns(es) && FreshTokens(es)
    ensures ClockRuns(es[..|es| - 1]) && FreshTokens(es[..|es| - 1])
  {
    var n := |es| - 1;
    forall i | 0 <= i < n ensures es[..n][i] == es[i] {}
  }

  lemma {:induction false} RunRefines(es: seq<Event>)
    requires ClockRuns(es) && FreshTokens(es)
    ensures es != [] ==> Refines(Run(es, true), Run(es, false), es[|es| - 1].now)
    ensures Answers(es, true) == Answers(es, false)
  {
    if es != [] {
      var n := |es| - 1;
      var before, e := es[..n], es[n];
      PrefixRuns(es);
      RunRefines(before);
      if e.Create? { NewToken(es); }
      if n == 0 {
        assert before == [];
      } else {
        assert before[n - 1] == es[n - 1];
        StepRefines(Run(before, true), Run(before, false), es[n - 1].now, e);
      }
    }
  }

  /** Cleaning up is invisible: every attach of every run is answered as by a table that never deletes. */
  lemma {:induction false} CleanupIsInvisible(es: seq<Event>)
    requires ClockRuns(es) && FreshTokens(es)
    ensures Answers(es, true) == Answers(es, false)
  {
    RunRefines(es);
  }

  /** Every ticket of the full table carries what its creation recorded, and `used` marks a past success. */
  lemma {:induction false} History(es: seq<Event>, k: string)
    requires FreshTokens(es) && k in Run(es, false)
    ensures exists i :: 0 <= i < |es| && es[i].Create? && es[i].token == k
                        && Run(es, false)[k]
                           == Ticket(es[i].execId, es[i].containerId, es[i].now + TICKET_LIFE, Run(es, false)[k].used)
    ensures forall j :: 0 <= j < |es| && Answers(es, false)[j].Some? && es[j].token == k ==> Run(es, false)[k].used
  {
    var n := |es| - 1;
    var before, e := es[..n], es[n];
    assert Answers(es, false)[..n] == Answers(before, false);
    assert forall i :: 0 <= i < n ==> before[i] == es[i];
    if k in Run(before, false) {
      History(before, k);
      var i :| 0 <= i < n && before[i].Create? && before[i].token == k
               && Run(before, false)[k]
                  == Ticket(before[i].execId, before[i].containerId, before[i].now + TICKET_LIFE,
                            Run(before, false)[k].used);
      assert !(e.Create? && e.token == k);
      assert es[i] == before[i];
      forall j | 0 <= j < |es| && Answers(es, false)[j].Some? && es[j].token == k ensures Run(es, false)[k].used {
        if j < n { assert Answers(before, false)[j] == Answers(es, false)[j]; }
      }
    } else {
      assert e.Create? && e.token == k;
      forall j | 0 <= j < n ensures !(Answers(es, false)[j].Some? && es[j].token == k) {
        if Answers(before, false)[j].Some? && before[j].token == k {
          SuccessKnown(before, j);
        }
      }
    }
  }

  lemma {:induction false} SuccessKnown(es: seq<Event>, j: nat)
    requires j < |es| && Answers(es, false)[j].Some?
    ensures es[j].Use? && es[j].token in Run(es, false)
  {
    var n := |es| - 1;
    if j < n {
      assert Answers(es, false)[j] == Answers(es[..n], false)[j];
      SuccessKnown(es[..n], j);
    }
  }

  /**
    A successful attach of the cleaned table follows the creation of that very ticket by at most
    30 seconds and returns the exec it was created for; no ticket succeeds twice.
   */
  lemma {:induction false} TicketsSingleUse(es: seq<Event>, j: nat)
    requires ClockRuns(es) && FreshTokens(es)
    requires j < |es| && Answers(es, true)[j].Some?
    ensures exists i :: 0 <= i < j && es[i].Create? && es[i].token == es[j].token
                        && es[j].now <= es[i].now + 30_000_000_000
                        && Answers(es, true)[j].value.execId == es[i].execId
                        && Answers(es, true)[j].value.containerId == es[i].containerId
    ensures forall i :: 0 <= i < |es| && i != j && es[i].token == es[j].token ==> Answers(es, true)[i].None?
  {
    CleanupIsInvisible(es);
    AnswerAt(es, j, false);
    assert forall i :: 0 <= i < j ==> es[..j][i] == es[i];
    History(es[..j], es[j].token);
    forall i | 0 <= i < |es| && i != j && es[i].token == es[j].token ensures Answers(es, false)[i].None? {
      if i < j {
        if Answers(es, false)[i].Some? { NoSecondSuccess(es, i, j); }
      } else {
        NoSecondSuccess(es, j, i);
      }
    }
  }

  /** A ticket nobody used yet is still as it was issued. */
  lemma {:induction false} StillUnused(es: seq<Event>, i: nat)
    requires FreshTokens(es) && i < |es| && es[i].Create?
    requires forall j :: i < j < |es| && es[j].Use? ==> es[j].token != es[i].token
    ensures var k := es[i].token;
            && k in Run(es, false)
            && Run(es, false)[k] == Ticket(es[i].execId, es[i].containerId, es[i].now + 30_000_000_000, false)
  {
    var n := |es| - 1;
    var before := es[..n];
    assert forall j :: 0 <= j < n ==> before[j] == es[j];
    if i < n {
      StillUnused(before, i);
      assert es[n].token != es[i].token;
    }
  }

  /** A ticket is honoured: its first attach within 30 seconds succeeds, whatever else happens. */
  lemma {:induction false} FirstAttachSucceeds(es: seq<Event>, i: nat, j: nat)
    requires ClockRuns(es) && FreshTokens(es) && i < j < |es| && es[i].Create? && es[j].Use?
    requires es[j].token == es[i].token
    requires forall l :: i < l < j && es[l].Use? ==> es[l].token != es[i].token
    requires es[j].now <= es[i].now + 30_000_000_000
    ensures Answers(es, true)[j].Some? && Answers(es, true)[j].value.execId == es[i].execId
  {
    CleanupIsInvisible(es);
    AnswerAt(es, j, false);
    assert forall l :: 0 <= l < j ==> es[..j][l] == es[l];
    StillUnused(es[..j], i);
  }

  /** After a success every later attach with the same token fails. */
  lemma {:induction false} NoSecondSuccess(es: seq<Event>, i: nat, j: nat)
    requires FreshTokens(es) && i < j < |es|
    requires Answers(es, false)[i].Some? && es[i].token == es[j].token
    ensures Answers(es, false)[j].None?
  {
    AnswerAt(es, j, false);
    if es[j].token in Run(es[..j], false) {
      AnswersPrefix(es, j, false);
      assert Answers(es[..j], false)[i] == Answers(es, false)[i];
      assert forall k :: 0 <= k < j ==> es[..j][k] == es[k];
      History(es[..j], es[j].token);
    }
  }

  lemma {:induction false} AnswersPrefix(es: seq<Event>, n: nat, cleanup: bool)
    requires n <= |es|
    ensures Answers(es, cleanup)[..n] == Answers(es[..n], cleanup)
  {
    if n < |es| {
      var m := |es| - 1;
      AnswersPrefix(es[..m], n, cleanup);
      assert es[..m][..n] == es[..n];
      assert Answers(es, cleanup)[..n] == Answers(es[..m], cleanup)[..n];
    } else {
      assert es[..n] == es;
    }
  }

  lemma {:induction false} AnswerAt(es: seq<Event>, j: nat, cleanup: bool)
    requires j < |es|
    ensures Answers(es, cleanup)[j] == Answer(Run(es[..j], cleanup), es[j])
  {
    AnswersPrefix(es, j + 1, cleanup);
    assert es[..j + 1][..j] == es[..j];
    assert Answers(es, cleanup)[j] == Answers(es, cleanup)[..j + 1][j];
  }
}
