/**
  The login throttle: after `max` failures for a key every login for it is refused
  for `cooldown`, and a table of more than 10000 keys forgets the idle ones.
  Instants and durations are integer nanoseconds; Go's zero time is `None`.
 */
module LoginThrottle {
  import opened Wrappers
  import opened Counting

  const SECOND: int := 1_000_000_000
  const PRUNE_AGE: int := 600 * SECOND
  const PRUNE_ABOVE: nat := 10000

  datatype Attempt = Attempt(failures: int, blockedUntil: Option<int>, lastSeen: Option<int>)
  const NO_ATTEMPT := Attempt(0, None, None)
  type Table = map<string, Attempt>

  /** Go's `t.After(now)`; the zero time is never after anything. */
  predicate After(t: Option<int>, now: int) {
    t.Some? && t.value > now
  }

  function Remaining(t: Option<int>, now: int): int {
    if After(t, now) then t.value - now else 0
  }

  predicate Idle(a: Attempt, now: int) {
    !After(a.blockedUntil, now) && (a.lastSeen.None? || now - a.lastSeen.value > PRUNE_AGE)
  }

  function Pruned(d: Table, now: int): Table {
    if |d| <= PRUNE_ABOVE then d else map k | k in d && !Idle(d[k], now) :: d[k]
  }

  function Lookup(d: Table, key: string): Attempt {
    if key in d then d[key] else NO_ATTEMPT
  }

  /** The table after `blocked(key)` at `now`: an expired block is forgotten. */
  function AfterCheck(d: Table, key: string, now: int): Table {
    if key in d && d[key].blockedUntil.Some? && !After(d[key].blockedUntil, now) then d - {key} else d
  }

  /** The entry `failed(key)` writes when the key is not blocked. */
  function Counted(a: Attempt, now: int, max: int, cooldown: int): Attempt {
    var failures := (if a.blockedUntil.Some? then 0 else a.failures) + 1;
    if failures >= max then Attempt(0, Some(now + cooldown), Some(now)) else Attempt(failures, None, Some(now))
  }

  function AfterFailure(d: Table, key: string, now: int, max: int, cooldown: int): Table {
    var a := Lookup(d, key);
    if After(a.blockedUntil, now) then d else Pruned(d[key := Counted(a, now, max, cooldown)], now)
  }

  function FailureAnswer(d: Table, key: string, now: int, max: int, cooldown: int): int {
    var a := Lookup(d, key);
    if After(a.blockedUntil, now) then Remaining(a.blockedUntil, now)
    else Remaining(Counted(a, now, max, cooldown).blockedUntil, now)
  }

  /** Whole seconds for the Retry-After header, rounded up. */
  function RetrySeconds(retryAfter: int): (s: int)
    requires retryAfter > 0
    ensures (s - 1) * 1_000_000_000 < retryAfter <= s * 1_000_000_000
  {
    (retryAfter + SECOND - 1) / SECOND
  }

  datatype LoginOutcome = RateLimited(seconds: int) | Rejected | Accepted

  // ----- What the calls mean, entry by entry -----

  /** The instant until which the key is blocked, if it is blocked at `now`. */
  ghost predicate BlockedUntil(d: Table, key: string, now: int, until: int) {
    key in d && d[key].blockedUntil == Some(until) && now < until
  }

  ghost predicate IsOpen(d: Table, key: string, now: int) {
    key in d && d[key].blockedUntil.Some? ==> d[key].blockedUntil.value <= now
  }

  /** Failures recorded since the last block or success. */
  function Recent(d: Table, key: string): int {
    if key in d && d[key].blockedUntil.None? then d[key].failures else 0
  }

  /** Neither blocked nor seen in the last ten minutes. */
  ghost predicate Forgettable(a: Attempt, now: int) {
    && (a.blockedUntil.Some? ==> a.blockedUntil.value <= now)
    && (a.lastSeen.Some? ==> a.lastSeen.value + 600_000_000_000 < now)
  }

  /** Pruning: nothing up to 10000 keys, and beyond that exactly the forgettable ones. */
  ghost predicate PrunedTo(d: Table, d': Table, now: int) {
    forall k :: (k in d' <==> k in d && (|d| > 10000 ==> !Forgettable(d[k], now))) && (k in d' ==> d'[k] == d[k])
  }

  lemma PrunedMeans(d: Table, now: int)
    ensures PrunedTo(d, Pruned(d, now), now)
  {
  }

  /** A failure that is counted: below `max` it is remembered, at `max` the key is blocked for `cooldown`. */
  ghost predicate FailureCounts(d: Table, key: string, now: int, max: int, cooldown: int, d': Table, wait: int) {
    var n := Recent(d, key) + 1;
    var a := if n < max then Attempt(n, None, Some(now)) else Attempt(0, Some(now + cooldown), Some(now));
    && wait == (if n < max || cooldown <= 0 then 0 else cooldown)
    && PrunedTo(d[key := a], d', now) && key in d' && d'[key] == a
  }

  lemma FailureMeans(d: Table, key: string, now: int, max: int, cooldown: int)
    ensures var d', wait := AfterFailure(d, key, now, max, cooldown), FailureAnswer(d, key, now, max, cooldown);
            && (forall until :: BlockedUntil(d, key, now, until) ==> d' == d && wait == until - now)
            && (IsOpen(d, key, now) ==> FailureCounts(d, key, now, max, cooldown, d', wait))
  {
    var a := Counted(Lookup(d, key), now, max, cooldown);
    PrunedMeans(d[key := a], now);
  }

  class Throttle {
    var data: Table
    const max: int
    const cooldown: int

    constructor (max: int, cooldown: int)
      ensures data == map[] && this.max == max && this.cooldown == cooldown
    {
      this.data, this.max, this.cooldown := map[], max, cooldown;
    }

    method Blocked(key: string, now: int) returns (wait: int)
      modifies this`data
      ensures data == AfterCheck(old(data), key, now)
      ensures wait == Remaining(Lookup(old(data), key).blockedUntil, now)
      ensures forall until :: BlockedUntil(old(data), key, now, until) ==> wait == until - now && data == old(data)
      ensures IsOpen(old(data), key, now) ==>
                wait == 0 && Recent(data, key) == Recent(old(data), key) && IsOpen(data, key, now)
      ensures forall k :: k != key ==> (k in data <==> k in old(data)) && (k in data ==> data[k] == old(data)[k])
    {
      if key !in data {
        return 0;
      }
      var attempt := data[key];
      if After(attempt.blockedUntil, now) {
        return attempt.blockedUntil.value - now;
      }
      if attempt.blockedUntil.Some? {
        data := data - {key};
      }
      wait := 0;
    }

    /** Deletes while ranging over the map, in any key order. */
    method Prune(now: int)
      modifies this`data
      ensures data == Pruned(old(data), now)
      ensures PrunedTo(old(data), data, now)
    {
      PrunedMeans(data, now);
      if |data| <= PRUNE_ABOVE {
        return;
      }
      var todo := data.Keys;
      while todo != {}
        invariant todo <= data.Keys <= old(data).Keys
        invariant forall k :: k in data ==> data[k] == old(data)[k]
        invariant forall k :: k in old(data) && k !in todo ==> (k in data <==> !Idle(old(data)[k], now))
        decreases |todo|
      {
        var k :| k in todo;
        todo := todo - {k};
        if Idle(data[k], now) {
          data := data - {k};
        }
      }
    }

    method Failed(key: string, now: int) returns (wait: int)
      modifies this`data
      ensures data == AfterFailure(old(data), key, now, max, cooldown)
      ensures wait == FailureAnswer(old(data), key, now, max, cooldown)
      ensures forall until :: BlockedUntil(old(data), key, now, until) ==> data == old(data) && wait == until - now
      ensures IsOpen(old(data), key, now) ==> FailureCounts(old(data), key, now, max, cooldown, data, wait)
    {
      FailureMeans(data, key, now, max, cooldown);
      hide FailureCounts, PrunedTo;
      var attempt := if key in data then data[key] else NO_ATTEMPT;
      if After(attempt.blockedUntil, now) {
        return attempt.blockedUntil.value - now;
      }
      if attempt.blockedUntil.Some? {
        attempt := NO_ATTEMPT;
      }
      attempt := attempt.(failures := attempt.failures + 1, lastSeen := Some(now));
      if attempt.failures >= max {
        attempt := attempt.(failures := 0, blockedUntil := Some(now + cooldown));
      }
      data := data[key := attempt];
      Prune(now);
      wait := Remaining(attempt.blockedUntil, now);
    }

    /** The key is open at every instant and its count starts over; no other key is affected. */
    method Clear(key: string)
      modifies this`data
      ensures data == old(data) - {key}
      ensures forall now :: !After(Lookup(data, key).blockedUntil, now)
      ensures max > 1 ==> forall now :: FailureAnswer(data, key, now, max, cooldown) == 0
      ensures forall k :: k != key ==> Lookup(data, k) == Lookup(old(data), k)
    {
      data := data - {key};
    }

    /**
      One sequential login: the block is checked at `t1`, credentials are verified with
      the verdict `ok`, and a failure is recorded at `t2`. A refused caller who waits out
      the announced seconds is past the block.
     */
    method Login(key: string, ok: bool, t1: int, t2: int) returns (out: LoginOutcome)
      requires t1 <= t2
      modifies this`data
      ensures out.RateLimited? && data == old(data) ==>
                forall t :: t >= t1 + out.seconds * SECOND ==> !After(Lookup(data, key).blockedUntil, t)
      ensures out.RateLimited? && data != old(data) ==>
                forall t :: t >= t2 + out.seconds * SECOND ==> !After(Lookup(data, key).blockedUntil, t)
      ensures out.Accepted? <==> ok && IsOpen(old(data), key, t1)
      ensures out.Accepted? ==> data == old(data) - {key}
      ensures After(Lookup(old(data), key).blockedUntil, t1) ==>
                data == old(data)
                && out == RateLimited(RetrySeconds(Remaining(Lookup(old(data), key).blockedUntil, t1)))
      ensures !ok && !After(Lookup(old(data), key).blockedUntil, t1) ==>
                var checked := AfterCheck(old(data), key, t1);
                var wait := FailureAnswer(checked, key, t2, max, cooldown);
                data == AfterFailure(checked, key, t2, max, cooldown)
                && out == if wait > 0 then RateLimited(RetrySeconds(wait)) else Rejected
    {
      var wait := Blocked(key, t1);
      if wait > 0 {
        return RateLimited(RetrySeconds(wait));
      }
      if !ok {
        wait := Failed(key, t2);
        if wait > 0 {
          return RateLimited(RetrySeconds(wait));
        }
        return Rejected;
      }
      Clear(key);
      out := Accepted;
    }
  }

  // ----- Every interleaving of the locked calls -----

  datatype Call =
    | Check(key: string, now: int)
    | Fail(key: string, now: int)
    | Forget(key: string, now: int)

  ghost predicate ClockRuns(es: seq<Call>) {
    forall i, j :: 0 <= i <= j < |es| ==> es[i].now <= es[j].now
  }

  function Apply(d: Table, e: Call, max: int, cooldown: int): Table {
    match e
    case Check(k, t) => AfterCheck(d, k, t)
    case Fail(k, t) => AfterFailure(d, k, t, max, cooldown)
    case Forget(k, _) => d - {k}
  }

  function Run(es: seq<Call>, max: int, cooldown: int): Table {
    if es == [] then map[] else Apply(Run(es[..|es| - 1], max, cooldown), es[|es| - 1], max, cooldown)
  }

  /** Is `e` a failure of key `k` that the table `d` counts (the key is not blocked)? */
  predicate Counts(d: Table, e: Call, k: string) {
    e.Fail? && e.key == k && !After(Lookup(d, k).blockedUntil, e.now)
  }

  /** Instants of the calls `failed(k)` that found the key open. */
  function OpenFailures(es: seq<Call>, k: string, max: int, cooldown: int): seq<int> {
    if es == [] then [] else
      var before, e := es[..|es| - 1], es[|es| - 1];
      var ts := OpenFailures(before, k, max, cooldown);
      if Counts(Run(before, max, cooldown), e, k) then ts + [e.now] else ts
  }

  /** Instants of the calls `failed(k)` that answered 0. */
  function ZeroAnswers(es: seq<Call>, k: string, max: int, cooldown: int): seq<int> {
    if es == [] then [] else
      var before, e := es[..|es| - 1], es[|es| - 1];
      var ts, d := ZeroAnswers(before, k, max, cooldown), Run(before, max, cooldown);
      if e.Fail? && e.key == k && FailureAnswer(d, k, e.now, max, cooldown) == 0 then ts + [e.now] else ts
  }

  /** Instants of all calls `failed(k)`. */
  function Failures(es: seq<Call>, k: string): seq<int> {
    if es == [] then [] else
      var ts, e := Failures(es[..|es| - 1], k), es[|es| - 1];
      if e.Fail? && e.key == k then ts + [e.now] else ts
  }

  function Entry(d: Table, k: string): Option<Attempt> {
    if k in d then Some(d[k]) else None
  }

  /**
    What the entry of a key remembers about the instants `ts` recorded so far, in groups of
    at most `g`: an open entry holds the size of the current group; with no entry or a
    block, the next group cannot begin until `cooldown` after the last instant.
   */
  ghost predicate Remembers(a: Option<Attempt>, ts: seq<int>, g: nat, max: int, cooldown: int, now: int) {
    && Paced(ts, g, cooldown)
    && (ts != [] ==> ts[|ts| - 1] <= now)
    && match a
       case None => ts == [] || ts[|ts| - 1] + cooldown <= now
       case Some(Attempt(_, Some(until), _)) => ts == [] || ts[|ts| - 1] + cooldown <= until
       case Some(Attempt(f, None, seen)) =>
         && 1 <= f < max && f <= |ts| && seen == Some(ts[|ts| - 1])
         && (f < |ts| ==> ts[|ts| - f - 1] + cooldown <= ts[|ts| - f])
  }

  /** A counted failure keeps `Remembers`, whether or not the blocking failure is itself recorded. */
  lemma CountedKeeps(before: Option<Attempt>, ts: seq<int>, g: nat, max: int, cooldown: int, now: int, t: int)
    requires max >= 1 && 0 < cooldown
    requires g == max || g == max - 1
    requires Remembers(before, ts, g, max, cooldown, now) && now <= t
    requires before.Some? ==> !After(before.value.blockedUntil, t)
    ensures var a := Counted(if before.Some? then before.value else NO_ATTEMPT, t, max, cooldown);
            var us := if g == max || a.blockedUntil.None? then ts + [t] else ts;
            Remembers(Some(a), us, g, max, cooldown, t)
  {
    var a := Counted(if before.Some? then before.value else NO_ATTEMPT, t, max, cooldown);
    var f := if before.Some? && before.value.blockedUntil.None? then before.value.failures else 0;
    if g == max || a.blockedUntil.None? {
      PacedAppend(ts, g, cooldown, t, f);
    }
  }

  /** Pruning forgets an entry only when its last instant is a cooldown old. */
  lemma PruneKeeps(d: Table, k: string, ts: seq<int>, g: nat, max: int, cooldown: int, now: int, t: int)
    requires 0 < cooldown <= PRUNE_AGE && now <= t
    requires Remembers(Entry(d, k), ts, g, max, cooldown, now)
    ensures Remembers(Entry(Pruned(d, t), k), ts, g, max, cooldown, t)
  {
  }

  /** The instants recorded after call `e`: all open failures (g == max), or only those answered 0. */
  ghost function Recorded(d: Table, e: Call, k: string, ts: seq<int>, g: nat, max: int, cooldown: int): seq<int> {
    if Counts(d, e, k) && (g == max || FailureAnswer(d, k, e.now, max, cooldown) == 0) then ts + [e.now] else ts
  }

  lemma FailKeeps(d: Table, j: string, k: string, ts: seq<int>, g: nat, max: int, cooldown: int, now: int, t: int)
    requires max >= 1 && 0 < cooldown <= PRUNE_AGE
    requires g == max || g == max - 1
    requires Remembers(Entry(d, k), ts, g, max, cooldown, now) && now <= t
    requires !After(Lookup(d, j).blockedUntil, t)
    ensures Remembers(Entry(AfterFailure(d, j, t, max, cooldown), k), Recorded(d, Fail(j, t), k, ts, g, max, cooldown),
                      g, max, cooldown, t)
  {
    var c := Counted(Lookup(d, j), t, max, cooldown);
    var us := Recorded(d, Fail(j, t), k, ts, g, max, cooldown);
    if j == k {
      assert us == if g == max || c.blockedUntil.None? then ts + [t] else ts;
      CountedKeeps(Entry(d, k), ts, g, max, cooldown, now, t);
      PruneKeeps(d[k := c], k, us, g, max, cooldown, t, t);
    } else {
      PruneKeeps(d[j := c], k, ts, g, max, cooldown, now, t);
    }
  }

  /** One call of any kind keeps `Remembers`. */
  lemma CallKeeps(d: Table, e: Call, k: string, ts: seq<int>, g: nat, max: int, cooldown: int, now: int)
    requires max >= 1 && 0 < cooldown <= PRUNE_AGE
    requires g == max || g == max - 1
    requires Remembers(Entry(d, k), ts, g, max, cooldown, now) && now <= e.now
    requires !(e.Forget? && e.key == k)
    ensures Remembers(Entry(Apply(d, e, max, cooldown), k), Recorded(d, e, k, ts, g, max, cooldown), g, max, cooldown,
                      e.now)
  {
    if e.Fail? && !After(Lookup(d, e.key).blockedUntil, e.now) {
      FailKeeps(d, e.key, k, ts, g, max, cooldown, now, e.now);
    }
  }

  lemma {:induction false} OpenFailuresRemembered(es: seq<Call>, k: string, max: int, cooldown: int)
    requires max >= 1 && 0 < cooldown <= PRUNE_AGE
    requires ClockRuns(es) && forall i :: 0 <= i < |es| ==> !(es[i].Forget? && es[i].key == k)
    ensures es != [] ==>
              Remembers(Entry(Run(es, max, cooldown), k), OpenFailures(es, k, max, cooldown), max, max, cooldown,
                        es[|es| - 1].now)
  {
    if es != [] {
      var before, e := es[..|es| - 1], es[|es| - 1];
      OpenFailuresRemembered(before, k, max, cooldown);
      var now := if before == [] then e.now else before[|before| - 1].now;
      CallKeeps(Run(before, max, cooldown), e, k, OpenFailures(before, k, max, cooldown), max, max, cooldown, now);
    }
  }

  lemma {:induction false} ZeroAnswersRemembered(es: seq<Call>, k: string, max: int, cooldown: int)
    requires max >= 1 && 0 < cooldown <= PRUNE_AGE
    requires ClockRuns(es) && forall i :: 0 <= i < |es| ==> !(es[i].Forget? && es[i].key == k)
    ensures es != [] ==>
              Remembers(Entry(Run(es, max, cooldown), k), ZeroAnswers(es, k, max, cooldown), max - 1, max, cooldown,
                        es[|es| - 1].now)
  {
    if es != [] {
      var before, e := es[..|es| - 1], es[|es| - 1];
      ZeroAnswersRemembered(before, k, max, cooldown);
      var now := if before == [] then e.now else before[|before| - 1].now;
      var d, ts := Run(before, max, cooldown), ZeroAnswers(before, k, max, cooldown);
      assert ZeroAnswers(es, k, max, cooldown) == Recorded(d, e, k, ts, max - 1, max, cooldown);
      CallKeeps(d, e, k, ts, max - 1, max, cooldown, now);
    }
  }

  /**
    Under any interleaving of the locked calls of all keys, with no success for `k`,
    `failed(k)` answers 0 at most (max - 1) * (T / cooldown + 1) times in any span T.
   */
  lemma ZeroAnswersBounded(es: seq<Call>, k: string, max: int, cooldown: int, from: int, T: nat)
    requires max >= 1 && 0 < cooldown <= PRUNE_AGE
    requires ClockRuns(es) && forall i :: 0 <= i < |es| ==> !(es[i].Forget? && es[i].key == k)
    ensures CountIn(ZeroAnswers(es, k, max, cooldown), from, from + T) <= (max - 1) * (T / cooldown + 1)
  {
    if es != [] {
      ZeroAnswersRemembered(es, k, max, cooldown);
      SpanBound(ZeroAnswers(es, k, max, cooldown), max - 1, cooldown, from, T);
    } else {
      assert (max - 1) * (T / cooldown + 1) >= 0;
    }
  }

  // ----- The first max - 1 failures are let pass -----

  /** Pruning never forgot the key, and no success cleared it. */
  ghost predicate Kept(es: seq<Call>, k: string, max: int, cooldown: int) {
    && (forall i :: 0 <= i < |es| ==> !(es[i].Forget? && es[i].key == k))
    && forall i :: 0 <= i < |es| && k in Run(es[..i], max, cooldown) ==> k in Run(es[..i + 1], max, cooldown)
  }

  lemma {:induction false} PrefixKept(es: seq<Call>, k: string, max: int, cooldown: int)
    requires es != [] && Kept(es, k, max, cooldown)
    ensures Kept(es[..|es| - 1], k, max, cooldown)
    ensures k in Run(es[..|es| - 1], max, cooldown) ==> k in Run(es, max, cooldown)
  {
    hide Run;
    var n := |es| - 1;
    assert es[..n + 1] == es;
    forall i | 0 <= i <= n ensures es[..n][..i] == es[..i] {}
    forall i | 0 <= i < n ensures es[..n][i] == es[i] {}
  }

  /** As long as fewer than `max` failures came, the entry counts exactly them. */
  lemma {:induction false} CountsUp(es: seq<Call>, k: string, max: int, cooldown: int)
    requires max >= 1 && Kept(es, k, max, cooldown) && |Failures(es, k)| < max
    ensures var d := Run(es, max, cooldown);
            && Recent(d, k) == |Failures(es, k)| && (k in d ==> d[k].blockedUntil.None?)
  {
    if es != [] {
      var before, e := es[..|es| - 1], es[|es| - 1];
      PrefixKept(es, k, max, cooldown);
      CountsUp(before, k, max, cooldown);
      CountStep(Run(before, max, cooldown), e, k, max, cooldown);
    }
  }

  lemma CountStep(d: Table, e: Call, k: string, max: int, cooldown: int)
    requires (k in d ==> d[k].blockedUntil.None?) && !(e.Forget? && e.key == k)
    requires k in d ==> k in Apply(d, e, max, cooldown)
    requires e.Fail? && e.key == k ==> Recent(d, k) + 1 < max
    ensures var d' := Apply(d, e, max, cooldown);
            && (k in d' ==> d'[k].blockedUntil.None?)
            && Recent(d', k) == Recent(d, k) + if e.Fail? && e.key == k then 1 else 0
  {
    if e.Fail? && IsOpen(d, e.key, e.now) { FailureMeans(d, e.key, e.now, max, cooldown); }
  }

  /**
    In every interleaving with the calls of other keys, while nothing makes the throttle forget the key, its
    first max - 1 failures are answered 0 and the max-th is answered `cooldown`.
   */
  lemma {:induction false} AnswersInARow(es: seq<Call>, k: string, t: int, max: int, cooldown: int)
    requires max >= 1 && cooldown > 0 && Kept(es, k, max, cooldown) && |Failures(es, k)| < max
    ensures FailureAnswer(Run(es, max, cooldown), k, t, max, cooldown)
            == if |Failures(es, k)| + 1 < max then 0 else cooldown
  {
    CountsUp(es, k, max, cooldown);
    FailureMeans(Run(es, max, cooldown), k, t, max, cooldown);
  }

  // ----- Sequential logins of one key -----

  /** Was the last call for `k` a check that answered 0? */
  ghost predicate Passed(es: seq<Call>, k: string, max: int, cooldown: int) {
    es != [] &&
    var before, e := es[..|es| - 1], es[|es| - 1];
    if e.key == k
    then e.Check? && !After(Lookup(Run(before, max, cooldown), k).blockedUntil, e.now)
    else Passed(before, k, max, cooldown)
  }

  /** Logins of `k` one at a time: each failure comes right after its own check let it through. */
  ghost predicate Sequential(es: seq<Call>, k: string, max: int, cooldown: int) {
    forall i :: 0 <= i < |es| && es[i].Fail? && es[i].key == k ==> Passed(es[..i], k, max, cooldown)
  }

  lemma {:induction false} PassedIsOpen(es: seq<Call>, k: string, max: int, cooldown: int)
    requires ClockRuns(es) && Passed(es, k, max, cooldown)
    ensures !After(Lookup(Run(es, max, cooldown), k).blockedUntil, es[|es| - 1].now)
  {
    var before, e := es[..|es| - 1], es[|es| - 1];
    if e.key != k {
      PassedIsOpen(before, k, max, cooldown);
      assert before[|before| - 1].now <= e.now;
    }
  }

  lemma {:induction false} SequentialFailuresAreOpen(es: seq<Call>, k: string, max: int, cooldown: int)
    requires ClockRuns(es) && Sequential(es, k, max, cooldown)
    ensures Failures(es, k) == OpenFailures(es, k, max, cooldown)
  {
    if es != [] {
      var n := |es| - 1;
      var before, e := es[..n], es[n];
      forall i | 0 <= i < n ensures before[..i] == es[..i] && before[i] == es[i] {}
      SequentialFailuresAreOpen(before, k, max, cooldown);
      if e.Fail? && e.key == k {
        PassedIsOpen(before, k, max, cooldown);
        assert before[n - 1].now <= e.now;
      }
    }
  }

  /**
    Sequential logins of one key, no success in between, all other keys arbitrary:
    at most max * (T / cooldown + 1) rejected credential checks in any span T, although
    pruning may forget the counter.
   */
  lemma RejectedLoginsBounded(es: seq<Call>, k: string, max: int, cooldown: int, from: int, T: nat)
    requires max >= 1 && 0 < cooldown <= PRUNE_AGE
    requires ClockRuns(es) && forall i :: 0 <= i < |es| ==> !(es[i].Forget? && es[i].key == k)
    requires Sequential(es, k, max, cooldown)
    ensures CountIn(Failures(es, k), from, from + T) <= max * (T / cooldown + 1)
  {
    SequentialFailuresAreOpen(es, k, max, cooldown);
    if es != [] {
      OpenFailuresRemembered(es, k, max, cooldown);
      SpanBound(OpenFailures(es, k, max, cooldown), max, cooldown, from, T);
    } else {
      assert max * (T / cooldown + 1) >= 0;
    }
  }
}
