/**
  The terminal bridge of one attached session: two copying goroutines, a watchdog and the
  handler share the buffered channel `done`. A copier sends when it stops for any reason, the
  watchdog sends when it gives up; the handler receives once, writes the row as ended, audits,
  and on return closes the watchdog's stop channel and both connections.
 */
module Bridge {
  import opened Wrappers

  /** A goroutine that may send once: running, about to send, finished by its send, or stopped without one. */
  datatype Sender = Running | AtSend | Sent | Stopped
  datatype Handler = Waiting | Received | WroteEnded | Audited | Returned

  datatype State = State(toGateway: Sender, toBrowser: Sender, watchdog: Sender, handler: Handler,
                         buffered: nat, stop: bool, endedWrites: nat, endAudits: nat)

  const START := State(Running, Running, Running, Waiting, 0, false, 0, 0)

  datatype Who = ToGateway | ToBrowser | Watchdog

  /** Steps: a sender decides to stop, performs its send, or leaves on the stop signal; or the handler moves on. */
  datatype Act = GiveUp(who: Who) | Send(who: Who) | Leave | Advance

  function Get(s: State, who: Who): Sender {
    match who case ToGateway => s.toGateway case ToBrowser => s.toBrowser case Watchdog => s.watchdog
  }

  function Set(s: State, who: Who, x: Sender): State {
    match who
    case ToGateway => s.(toGateway := x)
    case ToBrowser => s.(toBrowser := x)
    case Watchdog => s.(watchdog := x)
  }

  /** Is the step possible now, with a channel of capacity `cap`? */
  predicate Enabled(s: State, a: Act, cap: nat) {
    match a
    case GiveUp(who) => Get(s, who) == Running
    case Send(who) => Get(s, who) == AtSend && s.buffered < cap
    case Leave => s.watchdog == Running && s.stop
    case Advance => s.handler != Returned && (s.handler == Waiting ==> s.buffered > 0)
  }

  function Step(s: State, a: Act, cap: nat): State
    requires Enabled(s, a, cap)
  {
    match a
    case GiveUp(who) => Set(s, who, AtSend)
    case Send(who) => Set(s, who, Sent).(buffered := s.buffered + 1)
    case Leave => s.(watchdog := Stopped)
    case Advance =>
      match s.handler
      case Waiting => s.(handler := Received, buffered := s.buffered - 1)
      case Received => s.(handler := WroteEnded, endedWrites := s.endedWrites + 1)
      case WroteEnded => s.(handler := Audited, endAudits := s.endAudits + 1)
      case _ => s.(handler := Returned, stop := true)
  }

  /** The state an interleaving of steps leads to, unless one of them is not enabled. */
  function Play(acts: seq<Act>, cap: nat): Option<State> {
    if acts == [] then Some(START) else
      var r, a := Play(acts[..|acts| - 1], cap), acts[|acts| - 1];
      if r.Some? && Enabled(r.value, a, cap) then Some(Step(r.value, a, cap)) else None
  }

  function Bit(b: bool): nat { if b then 1 else 0 }

  function Sends(s: State): nat {
    Bit(s.toGateway == Sent) + Bit(s.toBrowser == Sent) + Bit(s.watchdog == Sent)
  }

  /** Sent and not yet received messages are in the buffer; the two final writes follow the handler. */
  ghost predicate Inv(s: State) {
    && s.buffered + Bit(s.handler != Waiting) == Sends(s)
    && s.toGateway != Stopped && s.toBrowser != Stopped
    && s.endedWrites == Bit(s.handler != Waiting && s.handler != Received)
    && s.endAudits == Bit(s.handler == Audited || s.handler == Returned)
    && s.stop == (s.handler == Returned)
    && (s.watchdog == Stopped ==> s.stop)
  }

  lemma StepKeepsInv(s: State, a: Act, cap: nat)
    requires Inv(s) && Enabled(s, a, cap)
    ensures Inv(Step(s, a, cap))
  {
    match a
    case GiveUp(who) => match who { case ToGateway => case ToBrowser => case Watchdog => }
    case Send(who) => match who { case ToGateway => case ToBrowser => case Watchdog => }
    case Leave =>
    case Advance => match s.handler { case Waiting => case Received => case WroteEnded => case _ => }
  }

  lemma {:induction false} PlayKeepsInv(acts: seq<Act>, cap: nat)
    requires Play(acts, cap).Some?
    ensures Inv(Play(acts, cap).value)
  {
    if acts != [] {
      var n := |acts| - 1;
      PlayKeepsInv(acts[..n], cap);
      StepKeepsInv(Play(acts[..n], cap).value, acts[n], cap);
    }
  }

  ghost predicate NeverBlocks(cap: nat) {
    forall acts, who :: Play(acts, cap).Some? && Get(Play(acts, cap).value, who) == AtSend ==>
      Enabled(Play(acts, cap).value, Send(who), cap)
  }

  /** With one send per goroutine, no send ever blocks exactly when the channel holds all three. */
  lemma SendsNeverBlock(cap: nat)
    requires cap > 0
    ensures NeverBlocks(cap) <==> cap >= 3
  {
    if cap >= 3 {
      forall acts, who | Play(acts, cap).Some? && Get(Play(acts, cap).value, who) == AtSend
        ensures Enabled(Play(acts, cap).value, Send(who), cap)
      {
        PlayKeepsInv(acts, cap);
      }
    } else {
      var acts, s := BlockedSend(cap);
      assert Get(Play(acts, cap).value, Watchdog) == AtSend;
    }
  }

  lemma Extend(acts: seq<Act>, s: State, a: Act, cap: nat) returns (acts': seq<Act>, s': State)
    requires Play(acts, cap) == Some(s) && Enabled(s, a, cap)
    ensures acts' == acts + [a] && s' == Step(s, a, cap) && Play(acts', cap) == Some(s')
  {
    acts', s' := acts + [a], Step(s, a, cap);
    assert acts'[..|acts|] == acts;
  }

  /** A smaller channel: enough goroutines send before the handler receives. */
  lemma BlockedSend(cap: nat) returns (acts: seq<Act>, s: State)
    requires 0 < cap < 3
    ensures Play(acts, cap) == Some(s) && s.watchdog == AtSend && !Enabled(s, Send(Watchdog), cap)
  {
    acts, s := [], START;
    acts, s := Extend(acts, s, GiveUp(ToGateway), cap);
    acts, s := Extend(acts, s, Send(ToGateway), cap);
    if cap == 2 {
      acts, s := Extend(acts, s, GiveUp(ToBrowser), cap);
      acts, s := Extend(acts, s, Send(ToBrowser), cap);
    }
    acts, s := Extend(acts, s, GiveUp(Watchdog), cap);
  }

  // ----- The session ends exactly once -----

  /** Own steps the handler still has to take. */
  function Remaining(h: Handler): nat {
    match h case Waiting => 4 case Received => 3 case WroteEnded => 2 case Audited => 1 case Returned => 0
  }

  function HandlerSteps(acts: seq<Act>): nat {
    if acts == [] then 0 else HandlerSteps(acts[..|acts| - 1]) + Bit(acts[|acts| - 1] == Advance)
  }

  lemma {:induction false} HandlerProgress(acts: seq<Act>, cap: nat)
    requires Play(acts, cap).Some?
    ensures Remaining(Play(acts, cap).value.handler) == 4 - HandlerSteps(acts)
  {
    if acts != [] {
      HandlerProgress(acts[..|acts| - 1], cap);
    }
  }

  /**
    At any moment of any interleaving: the row was written as ended and audited at most once, only
    after a send, and as far as the handler's own steps have come; once something was sent the
    handler can always move until it returned.
   */
  lemma {:induction false} EndsAtMostOnce(acts: seq<Act>, cap: nat)
    requires cap >= 3 && Play(acts, cap).Some?
    ensures var s := Play(acts, cap).value;
            && s.endedWrites == Bit(HandlerSteps(acts) >= 2) && s.endAudits == Bit(HandlerSteps(acts) >= 3)
            && (s.endedWrites > 0 ==> Sends(s) > 0)
            && (Sends(s) > 0 && HandlerSteps(acts) < 4 ==> Enabled(s, Advance, cap))
  {
    PlayKeepsInv(acts, cap);
    HandlerProgress(acts, cap);
  }

  /** Steps the goroutines and the handler may still take. */
  function Left(x: Sender): nat {
    match x case Running => 2 case AtSend => 1 case Sent => 0 case Stopped => 0
  }

  function StepsLeft(s: State): nat {
    Left(s.toGateway) + Left(s.toBrowser) + Left(s.watchdog) + Remaining(s.handler)
  }

  lemma StepCounts(s: State, a: Act, cap: nat)
    requires Enabled(s, a, cap)
    ensures StepsLeft(Step(s, a, cap)) < StepsLeft(s)
  {
    match a
    case GiveUp(who) => match who { case ToGateway => case ToBrowser => case Watchdog => }
    case Send(who) => match who { case ToGateway => case ToBrowser => case Watchdog => }
    case Leave =>
    case Advance => match s.handler { case Waiting => case Received => case WroteEnded => case _ => }
  }

  /** Every interleaving comes to an end: it has at most ten steps. */
  lemma {:induction false} InterleavingsEnd(acts: seq<Act>, cap: nat)
    requires Play(acts, cap).Some?
    ensures |acts| + StepsLeft(Play(acts, cap).value) <= 10
  {
    if acts != [] {
      var n := |acts| - 1;
      InterleavingsEnd(acts[..n], cap);
      StepCounts(Play(acts[..n], cap).value, acts[n], cap);
    }
  }

  ghost predicate Complete(s: State, cap: nat) {
    forall a :: !Enabled(s, a, cap)
  }

  /**
    At the end of every complete interleaving the row was written as ended and audited exactly once, and
    everybody is gone.
   */
  lemma {:induction false} EndsExactlyOnce(acts: seq<Act>, cap: nat)
    requires cap >= 3 && Play(acts, cap).Some? && Complete(Play(acts, cap).value, cap)
    ensures var s := Play(acts, cap).value;
            && s.handler == Returned && s.endedWrites == 1 && s.endAudits == 1
            && forall who :: Get(s, who) == Sent || (who == Watchdog && Get(s, who) == Stopped)
  {
    var s := Play(acts, cap).value;
    PlayKeepsInv(acts, cap);
    forall who ensures Get(s, who) == Sent || (who == Watchdog && Get(s, who) == Stopped) {
      assert !Enabled(s, GiveUp(who), cap) && !Enabled(s, Send(who), cap);
    }
    assert !Enabled(s, Advance, cap);
    assert Get(s, ToGateway) == Sent;
  }

  /** Every interleaving can be completed. */
  lemma {:induction false} CanComplete(acts: seq<Act>, cap: nat) returns (more: seq<Act>)
    requires Play(acts, cap).Some?
    ensures Play(acts + more, cap).Some? && Complete(Play(acts + more, cap).value, cap)
    decreases StepsLeft(Play(acts, cap).value)
  {
    var s := Play(acts, cap).value;
    if Complete(s, cap) {
      more := [];
      assert acts + more == acts;
    } else {
      var a :| Enabled(s, a, cap);
      StepCounts(s, a, cap);
      var acts1, s1 := Extend(acts, s, a, cap);
      var rest := CanComplete(acts1, cap);
      more := [a] + rest;
      assert acts + more == acts1 + rest;
    }
  }

  /** No step of another goroutine disables the handler's next step or moves the handler. */
  lemma {:induction false} OthersDoNotInterfere(acts: seq<Act>, a: Act, cap: nat)
    requires cap >= 3 && Play(acts + [a], cap).Some? && a != Advance
    ensures Play(acts, cap).Some?
    ensures var s, s' := Play(acts, cap).value, Play(acts + [a], cap).value;
            s'.handler == s.handler && (Enabled(s, Advance, cap) ==> Enabled(s', Advance, cap))
  {
    assert (acts + [a])[..|acts|] == acts;
  }

  /**
    Nobody is left behind: a pending send goes through, the watchdog can leave once the handler returned, and
    until the first send every goroutine is still there to send.
   */
  lemma {:induction false} NobodyLeaks(acts: seq<Act>, cap: nat, who: Who)
    requires cap >= 3 && Play(acts, cap).Some?
    ensures var s := Play(acts, cap).value;
            && (Get(s, who) == AtSend ==> Enabled(s, Send(who), cap))
            && (s.handler == Returned && s.watchdog == Running ==> Enabled(s, Leave, cap))
            && (Sends(s) == 0 ==> Get(s, who) == Running || Get(s, who) == AtSend)
  {
    PlayKeepsInv(acts, cap);
  }
}
