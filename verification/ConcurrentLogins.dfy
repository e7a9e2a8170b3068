/**
  Logins of one key that overlap: the block is checked before the credentials and the failure recorded
  after, in two locked calls, so a login that was let in before a block may still be rejected during it.
 */
module ConcurrentLogins {
  import opened Wrappers
  import opened Counting
  import opened LoginThrottle

  predicate LetIn(d: Table, e: Call, k: string) {
    e.Check? && e.key == k && !After(Lookup(d, k).blockedUntil, e.now)
  }

  predicate Fails(e: Call, k: string) {
    e.Fail? && e.key == k
  }

  function Change(d: Table, e: Call, k: string): int {
    if LetIn(d, e, k) then 1 else if Fails(e, k) then -1 else 0
  }

  /** Logins of `k` that were let in and have not failed yet. */
  function Flying(es: seq<Call>, k: string, max: int, cooldown: int): int {
    if es == [] then 0 else
      var before, e := es[..|es| - 1], es[|es| - 1];
      Flying(before, k, max, cooldown) + Change(Run(before, max, cooldown), e, k)
  }

  /** Every failure belongs to a login that was let in, and at most `c` logins of `k` are in flight. */
  ghost predicate AtMostInFlight(es: seq<Call>, k: string, c: nat, max: int, cooldown: int) {
    forall i :: 0 <= i <= |es| ==> 0 <= Flying(es[..i], k, max, cooldown) <= c
  }

  /**
    Failures that found the key blocked: when that block began, when they came, and how many the current block
    has seen.
   */
  datatype Late = Late(starts: seq<int>, times: seq<int>, current: nat)

  ghost function Noted(d: Table, e: Call, k: string, x: Late, cooldown: int): Late {
    var until := Lookup(d, k).blockedUntil;
    if !Fails(e, k) then x
    else if After(until, e.now) then Late(x.starts + [until.value - cooldown], x.times + [e.now], x.current + 1)
    else x.(current := 0)
  }

  ghost function LateFailures(es: seq<Call>, k: string, max: int, cooldown: int): Late {
    if es == [] then Late([], [], 0) else
      var before, e := es[..|es| - 1], es[|es| - 1];
      Noted(Run(before, max, cooldown), e, k, LateFailures(before, k, max, cooldown), cooldown)
  }

  ghost predicate InBlocks(x: Late, cooldown: int) {
    |x.starts| == |x.times| && forall i :: 0 <= i < |x.starts| ==> x.starts[i] <= x.times[i] < x.starts[i] + cooldown
  }

  /** The last `m` starts are `s`, those before them at least a cooldown earlier. */
  ghost predicate Grouped(starts: seq<int>, m: nat, s: int, cooldown: int) {
    && m <= |starts| && (forall i :: |starts| - m <= i < |starts| ==> starts[i] == s)
    && (m < |starts| ==> starts[|starts| - m - 1] + cooldown <= s)
  }

  lemma {:induction false} GroupGrows(starts: seq<int>, m: nat, g: nat, s: int, cooldown: int)
    requires cooldown > 0 && Grouped(starts, m, s, cooldown) && Paced(starts, g, cooldown) && m < g
    ensures Grouped(starts + [s], m + 1, s, cooldown) && Paced(starts + [s], g, cooldown)
  {
    hide Paced;
    if m > 0 { assert starts[|starts| - m] == s && starts[|starts| - 1] == s; }
    PacedAppend(starts, g, cooldown, s, m);
  }

  /**
    What the entry of the key knows about the late failures: a block has room for those still in flight,
    and without one the last block is over.
   */
  ghost predicate Knows(a: Option<Attempt>, x: Late, flying: int, c: nat, cooldown: int, now: int) {
    && c >= 1 && Paced(x.starts, c - 1, cooldown) && InBlocks(x, cooldown) && Sorted(x.times)
    && (x.times != [] ==> x.times[|x.times| - 1] <= now)
    && match a {
       case Some(Attempt(_, Some(until), _)) =>
         until - cooldown <= now && x.current + flying <= c - 1
         && Grouped(x.starts, x.current, until - cooldown, cooldown)
       case _ => x.starts != [] ==> x.starts[|x.starts| - 1] + cooldown <= now
    }
  }

  lemma AnotherInBlocks(x: Late, s: int, t: int, cooldown: int, current: nat)
    requires InBlocks(x, cooldown) && Sorted(x.times) && (x.times != [] ==> x.times[|x.times| - 1] <= t)
    requires s <= t < s + cooldown
    ensures InBlocks(Late(x.starts + [s], x.times + [t], current), cooldown) && Sorted(x.times + [t])
  {
  }

  /** A late failure. */
  lemma LateKnows(a: Attempt, x: Late, flying: int, c: nat, cooldown: int, now: int, t: int)
    requires cooldown > 0 && Knows(Some(a), x, flying, c, cooldown, now) && now <= t && After(a.blockedUntil, t)
    requires flying >= 1
    ensures var s := a.blockedUntil.value - cooldown;
            Knows(Some(a), Late(x.starts + [s], x.times + [t], x.current + 1), flying - 1, c, cooldown, t)
  {
    hide Paced, InBlocks, Sorted, Grouped;
    var s := a.blockedUntil.value - cooldown;
    GroupGrows(x.starts, x.current, c - 1, s, cooldown);
    AnotherInBlocks(x, s, t, cooldown, x.current + 1);
  }

  /** Time passes. */
  lemma LaterKnows(a: Option<Attempt>, x: Late, flying: int, c: nat, cooldown: int, now: int, t: int)
    requires Knows(a, x, flying, c, cooldown, now) && now <= t
    ensures Knows(a, x, flying, c, cooldown, t)
  {
  }

  /** A block that is over is forgotten, or none was there. */
  lemma OpenKnows(a: Option<Attempt>, a': Option<Attempt>, x: Late, flying: int, flying': int, current: nat,
                  c: nat, cooldown: int, now: int, t: int)
    requires cooldown > 0 && Knows(a, x, flying, c, cooldown, now) && now <= t
    requires a.Some? ==> !After(a.value.blockedUntil, t)
    requires a'.Some? ==> a'.value.blockedUntil.None?
    ensures Knows(a', x.(current := current), flying', c, cooldown, t)
  {
  }

  /** A block begins with the failure of one of the logins in flight. */
  lemma BlockKnows(a: Option<Attempt>, a': Attempt, x: Late, flying: int, c: nat, cooldown: int, now: int, t: int)
    requires cooldown > 0 && Knows(a, x, flying, c, cooldown, now) && now <= t && 1 <= flying <= c
    requires (a.Some? ==> !After(a.value.blockedUntil, t)) && a'.blockedUntil == Some(t + cooldown)
    ensures Knows(Some(a'), x.(current := 0), flying - 1, c, cooldown, t)
  {
    OpenKnows(a, None, x, flying, flying, 0, c, cooldown, now, t);
  }

  lemma CheckKnows(d: Table, k: string, x: Late, flying: int, c: nat, cooldown: int, now: int, t: int)
    requires cooldown > 0 && Knows(Entry(d, k), x, flying, c, cooldown, now) && now <= t
    ensures Knows(Entry(AfterCheck(d, k, t), k), x, flying + Change(d, Check(k, t), k), c, cooldown, t)
  {
    if After(Lookup(d, k).blockedUntil, t) {
      LaterKnows(Entry(d, k), x, flying, c, cooldown, now, t);
    } else {
      OpenKnows(Entry(d, k), Entry(AfterCheck(d, k, t), k), x, flying, flying + 1, x.current, c, cooldown, now, t);
    }
  }

  /** A failure entry just written survives the pruning that follows. */
  lemma JustWritten(d: Table, k: string, a: Attempt, t: int)
    requires a.lastSeen == Some(t)
    ensures Entry(Pruned(d[k := a], t), k) == Some(a)
  {
  }

  lemma FailKnows(d: Table, k: string, x: Late, flying: int, c: nat, max: int, cooldown: int, now: int, t: int)
    requires cooldown > 0 && Knows(Entry(d, k), x, flying, c, cooldown, now) && now <= t && 1 <= flying <= c
    ensures Knows(Entry(AfterFailure(d, k, t, max, cooldown), k), Noted(d, Fail(k, t), k, x, cooldown), flying - 1, c,
                  cooldown, t)
  {
    hide Knows;
    var a := Lookup(d, k);
    if After(a.blockedUntil, t) {
      LateKnows(a, x, flying, c, cooldown, now, t);
    } else {
      var a' := Counted(a, t, max, cooldown);
      JustWritten(d, k, a', t);
      if a'.blockedUntil.Some? {
        BlockKnows(Entry(d, k), a', x, flying, c, cooldown, now, t);
      } else {
        OpenKnows(Entry(d, k), Some(a'), x, flying, flying - 1, 0, c, cooldown, now, t);
      }
    }
  }

  /** Calls of other keys touch this one only by pruning a block that is over or a count. */
  lemma OtherEntry(d: Table, e: Call, k: string, max: int, cooldown: int)
    requires e.key != k
    ensures var a, a' := Entry(d, k), Entry(Apply(d, e, max, cooldown), k);
            a' == a || (a'.None? && a.Some? && !After(a.value.blockedUntil, e.now))
  {
  }

  lemma CallKnows(d: Table, e: Call, k: string, x: Late, flying: int, c: nat, max: int, cooldown: int, now: int)
    requires cooldown > 0 && Knows(Entry(d, k), x, flying, c, cooldown, now) && now <= e.now
    requires !(e.Forget? && e.key == k) && 0 <= flying <= c && (Fails(e, k) ==> flying >= 1)
    ensures Knows(Entry(Apply(d, e, max, cooldown), k), Noted(d, e, k, x, cooldown), flying + Change(d, e, k), c,
                  cooldown, e.now)
  {
    hide Knows;
    if e.key == k {
      if e.Check? {
        CheckKnows(d, k, x, flying, c, cooldown, now, e.now);
      } else {
        FailKnows(d, k, x, flying, c, max, cooldown, now, e.now);
      }
    } else {
      OtherEntry(d, e, k, max, cooldown);
      var a, a' := Entry(d, k), Entry(Apply(d, e, max, cooldown), k);
      hide Apply;
      if a' == a {
        LaterKnows(a, x, flying, c, cooldown, now, e.now);
      } else {
        OpenKnows(a, a', x, flying, flying, x.current, c, cooldown, now, e.now);
      }
    }
  }

  ghost predicate Admissible(es: seq<Call>, k: string, c: nat, max: int, cooldown: int) {
    && c >= 1 && ClockRuns(es) && AtMostInFlight(es, k, c, max, cooldown)
    && forall i :: 0 <= i < |es| ==> !(es[i].Forget? && es[i].key == k)
  }

  lemma {:induction false} PrefixAdmissible(es: seq<Call>, k: string, c: nat, max: int, cooldown: int)
    requires es != [] && Admissible(es, k, c, max, cooldown)
    ensures Admissible(es[..|es| - 1], k, c, max, cooldown)
    ensures 0 <= Flying(es[..|es| - 1], k, max, cooldown) <= c && 0 <= Flying(es, k, max, cooldown) <= c
  {
    hide Flying;
    var before := es[..|es| - 1];
    assert es[..|es|] == es && es[..|before|] == before;
    forall i | 0 <= i <= |before| ensures before[..i] == es[..i] {}
  }

  lemma {:induction false} RunKnows(es: seq<Call>, k: string, c: nat, max: int, cooldown: int)
    requires cooldown > 0 && Admissible(es, k, c, max, cooldown) && es != []
    ensures Knows(Entry(Run(es, max, cooldown), k), LateFailures(es, k, max, cooldown), Flying(es, k, max, cooldown),
                  c, cooldown, es[|es| - 1].now)
  {
    var before, e := es[..|es| - 1], es[|es| - 1];
    PrefixAdmissible(es, k, c, max, cooldown);
    var d, x, f := Run(before, max, cooldown), LateFailures(before, k, max, cooldown), Flying(before, k, max, cooldown);
    var now := if before == [] then e.now else before[|before| - 1].now;
    if before != [] {
      RunKnows(before, k, c, max, cooldown);
      assert before[|before| - 1] == es[|es| - 2];
    }
    CallKnows(d, e, k, x, f, c, max, cooldown, now);
  }

  /** Every failure found the key open or blocked. */
  lemma {:induction false} FailuresSplit(es: seq<Call>, k: string, max: int, cooldown: int, lo: int, hi: int)
    ensures CountIn(Failures(es, k), lo, hi)
            == CountIn(OpenFailures(es, k, max, cooldown), lo, hi)
            + CountIn(LateFailures(es, k, max, cooldown).times, lo, hi)
  {
    if es != [] {
      var before, e := es[..|es| - 1], es[|es| - 1];
      hide Run, CountIn, After;
      FailuresSplit(before, k, max, cooldown, lo, hi);
      CountAppend(Failures(before, k), e.now, lo, hi);
      CountAppend(OpenFailures(before, k, max, cooldown), e.now, lo, hi);
      CountAppend(LateFailures(before, k, max, cooldown).times, e.now, lo, hi);
    }
  }

  /**
    With at most `c` logins of a key in flight, no success in between and all other keys arbitrary, at most
    max * (T / cooldown + 1) + (c - 1) * (T / cooldown + 2) credential checks are rejected in any span T.
   */
  lemma ConcurrentLoginsBounded(es: seq<Call>, k: string, c: nat, max: int, cooldown: int, from: int, T: nat)
    requires max >= 1 && 0 < cooldown <= PRUNE_AGE && Admissible(es, k, c, max, cooldown)
    ensures CountIn(Failures(es, k), from, from + T) <= max * (T / cooldown + 1) + (c - 1) * (T / cooldown + 2)
  {
    FailuresSplit(es, k, max, cooldown, from, from + T);
    hide Failures;
    OpenBounded(es, k, max, cooldown, from, T);
    LateBounded(es, k, c, max, cooldown, from, T);
  }

  lemma OpenBounded(es: seq<Call>, k: string, max: int, cooldown: int, from: int, T: nat)
    requires max >= 1 && 0 < cooldown <= PRUNE_AGE
    requires ClockRuns(es) && forall i :: 0 <= i < |es| ==> !(es[i].Forget? && es[i].key == k)
    ensures CountIn(OpenFailures(es, k, max, cooldown), from, from + T) <= max * (T / cooldown + 1)
  {
    if es != [] {
      OpenFailuresRemembered(es, k, max, cooldown);
      SpanBound(OpenFailures(es, k, max, cooldown), max, cooldown, from, T);
    } else {
      assert max * (T / cooldown + 1) >= 0;
    }
  }

  lemma LateBounded(es: seq<Call>, k: string, c: nat, max: int, cooldown: int, from: int, T: nat)
    requires 0 < cooldown && Admissible(es, k, c, max, cooldown)
    ensures CountIn(LateFailures(es, k, max, cooldown).times, from, from + T) <= (c - 1) * (T / cooldown + 2)
  {
    hide Admissible;
    var x := LateFailures(es, k, max, cooldown);
    if es != [] {
      RunKnows(es, k, c, max, cooldown);
      hide LateFailures, Run, Flying;
      WindowsBound(x.starts, x.times, c - 1, cooldown, from, T);
    } else {
      AtLeastOne(es, k, c, max, cooldown);
      assert (c - 1) * (T / cooldown + 2) >= 0;
    }
  }

  lemma AtLeastOne(es: seq<Call>, k: string, c: nat, max: int, cooldown: int)
    requires Admissible(es, k, c, max, cooldown)
    ensures c >= 1
  {
  }
}
