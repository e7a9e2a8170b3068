/**
  The fixed-window limiter: per key a counter that restarts when a call arrives after the
  window closed, and a table of more than 10000 keys evicts the closed windows.
 */
module Limiter {
  import opened Wrappers
  import opened Counting

  const EVICT_ABOVE: nat := 10000

  /** `reset` is `None` for the zero bucket of a missing key. */
  datatype Bucket = Bucket(count: int, reset: Option<int>)
  type Table = map<string, Bucket>

  predicate Closed(b: Bucket, now: int) {
    b.reset.None? || now > b.reset.value
  }

  /** The bucket a call at `now` leaves behind. */
  function Counted(d: Table, key: string, now: int, window: int): Bucket {
    var b := if key in d then d[key] else Bucket(0, None);
    if Closed(b, now) then Bucket(1, Some(now + window)) else b.(count := b.count + 1)
  }

  function Evicted(d: Table, now: int): Table {
    if |d| <= EVICT_ABOVE then d else map k | k in d && !Closed(d[k], now) :: d[k]
  }

  // ----- What a call means, entry by entry -----

  /** The key has a window that is still open at `now`. */
  ghost predicate IsOpen(d: Table, key: string, now: int) {
    key in d && d[key].reset.Some? && now <= d[key].reset.value
  }

  /** The bucket after the call: one more in an open window, or the first of a window of full length. */
  ghost predicate CountedAs(d: Table, key: string, now: int, window: int, b: Bucket) {
    if IsOpen(d, key, now) then b == Bucket(d[key].count + 1, d[key].reset) else b == Bucket(1, Some(now + window))
  }

  /** Nothing is evicted up to 10000 keys, and beyond that exactly the windows that are over. */
  ghost predicate EvictedTo(d: Table, d': Table, now: int) {
    forall k :: (k in d' <==> k in d && (|d| > 10000 ==> d[k].reset.Some? && now <= d[k].reset.value))
                && (k in d' ==> d'[k] == d[k])
  }

  lemma CallMeans(d: Table, key: string, now: int, window: int)
    ensures CountedAs(d, key, now, window, Counted(d, key, now, window))
    ensures forall d: Table :: EvictedTo(d, Evicted(d, now), now)
  {
  }

  class Window {
    var data: Table
    const max: int
    const window: int

    constructor (max: int, window: int)
      ensures data == map[] && this.max == max && this.window == window
    {
      this.data, this.max, this.window := map[], max, window;
    }

    method Allow(key: string, now: int) returns (ok: bool)
      modifies this`data
      ensures data == Evicted(old(data)[key := Counted(old(data), key, now, window)], now)
      ensures ok == (Counted(old(data), key, now, window).count <= max)
      ensures exists b :: CountedAs(old(data), key, now, window, b) && ok == (b.count <= max)
                          && EvictedTo(old(data)[key := b], data, now)
    {
      CallMeans(data, key, now, window);
      var b := if key in data then data[key] else Bucket(0, None);
      if Closed(b, now) {
        b := Bucket(0, Some(now + window));
      }
      b := b.(count := b.count + 1);
      data := data[key := b];
      ghost var full := data;
      if |data| > EVICT_ABOVE {
        var todo := data.Keys;
        while todo != {}
          invariant todo <= data.Keys <= full.Keys
          invariant forall k :: k in data ==> data[k] == full[k]
          invariant forall k :: k in full && k !in todo ==> (k in data <==> !Closed(full[k], now))
          decreases |todo|
        {
          var k :| k in todo;
          todo := todo - {k};
          if Closed(data[k], now) {
            data := data - {k};
          }
        }
        assert data == Evicted(full, now);
      }
      ok := b.count <= max;
    }
  }

  // ----- Runs of calls, with and without eviction -----

  datatype Call = Call(key: string, now: int)

  ghost predicate ClockRuns(cs: seq<Call>) {
    forall i, j :: 0 <= i <= j < |cs| ==> cs[i].now <= cs[j].now
  }

  function Step(d: Table, c: Call, window: int, evict: bool): Table {
    var d' := d[c.key := Counted(d, c.key, c.now, window)];
    if evict then Evicted(d', c.now) else d'
  }

  function Run(cs: seq<Call>, window: int, evict: bool): Table {
    if cs == [] then map[] else Step(Run(cs[..|cs| - 1], window, evict), cs[|cs| - 1], window, evict)
  }

  predicate Answer(d: Table, c: Call, max: int, window: int) {
    Counted(d, c.key, c.now, window).count <= max
  }

  /** Every answer given along a run, in order. */
  function Answers(cs: seq<Call>, max: int, window: int, evict: bool): (r: seq<bool>)
    ensures |r| == |cs|
  {
    if cs == [] then [] else
      var before, c := cs[..|cs| - 1], cs[|cs| - 1];
      Answers(before, max, window, evict) + [Answer(Run(before, window, evict), c, max, window)]
  }

  /** The evicting table lost nothing but closed windows. */
  ghost predicate Refines(e: Table, full: Table, now: int) {
    && (forall k :: k in e ==> k in full && e[k] == full[k])
    && (forall k :: k in full && k !in e ==> Closed(full[k], now))
  }

  lemma StepRefines(e: Table, full: Table, now: int, c: Call, max: int, window: int)
    requires Refines(e, full, now) && now <= c.now
    ensures Counted(e, c.key, c.now, window) == Counted(full, c.key, c.now, window)
    ensures Refines(Step(e, c, window, true), Step(full, c, window, false), c.now)
  {
  }

  lemma {:induction false} RunRefines(cs: seq<Call>, window: int, max: int)
    requires ClockRuns(cs)
    ensures cs != [] ==> Refines(Run(cs, window, true), Run(cs, window, false), cs[|cs| - 1].now)
    ensures Answers(cs, max, window, true) == Answers(cs, max, window, false)
  {
    if cs != [] {
      var before, c := cs[..|cs| - 1], cs[|cs| - 1];
      RunRefines(before, window, max);
      var now := if before == [] then c.now else before[|before| - 1].now;
      StepRefines(Run(before, window, true), Run(before, window, false), now, c, max, window);
    }
  }

  /**
    Evicting above 10000 keys is invisible: every call of every run gets the answer of the limiter that never
    evicts.
   */
  lemma {:induction false} EvictionIsInvisible(cs: seq<Call>, max: int, window: int)
    requires ClockRuns(cs)
    ensures Answers(cs, max, window, true) == Answers(cs, max, window, false)
  {
    RunRefines(cs, window, max);
  }

  // ----- The rate bound -----

  /** Instants at which `k` was let through, by the answers given. */
  function Allowed(cs: seq<Call>, answers: seq<bool>, k: string): seq<int>
    requires |cs| == |answers|
  {
    if cs == [] then [] else
      var n := |cs| - 1;
      var ts := Allowed(cs[..n], answers[..n], k);
      if cs[n].key == k && answers[n] then ts + [cs[n].now] else ts
  }

  /** For each of those calls, the instant its window opened, in the limiter that never evicts. */
  ghost function Opened(cs: seq<Call>, k: string, max: int, window: int): seq<int> {
    if cs == [] then [] else
      var before, c := cs[..|cs| - 1], cs[|cs| - 1];
      var ss, d := Opened(before, k, max, window), Run(before, window, false);
      if c.key == k && Answer(d, c, max, window)
      then ss + [Counted(d, k, c.now, window).reset.value - window] else ss
  }

  /** Call i of `ts` falls in the window that opened at `ss[i]`. */
  ghost predicate Inside(ss: seq<int>, ts: seq<int>, window: int) {
    |ss| == |ts| && forall i :: 0 <= i < |ss| ==> ss[i] <= ts[i] <= ss[i] + window
  }

  /** The bucket of a key against the openings recorded so far: the current window holds its last `count` of them. */
  ghost predicate Tracks(d: Table, k: string, ss: seq<int>, max: nat, window: int) {
    && Paced(ss, max, window + 1)
    && (k !in d ==> ss == [])
    && (k in d ==>
          && d[k].reset.Some? && d[k].count >= 1
          && var f, open := if d[k].count <= max then d[k].count else max, d[k].reset.value - window;
          && f <= |ss|
          && (|ss| > 0 ==> ss[|ss| - 1] <= open)
          && (f > 0 ==> ss[|ss| - f] == open && ss[|ss| - 1] == open)
          && (f < |ss| ==> ss[|ss| - f - 1] + window + 1 <= open))
  }

  lemma CallTracks(d: Table, c: Call, k: string, ss: seq<int>, max: nat, window: int)
    requires window >= 0 && Tracks(d, k, ss, max, window)
    ensures var b := Counted(d, k, c.now, window);
            var us := if c.key == k && b.count <= max then ss + [b.reset.value - window] else ss;
            c.key == k ==> b.reset.Some? && Tracks(d[k := b], k, us, max, window)
  {
    if c.key == k {
      var b := Counted(d, k, c.now, window);
      var open := b.reset.value - window;
      if b.count <= max {
        PacedAppend(ss, max, window + 1, open, b.count - 1);
      }
    }
  }

  lemma {:induction false} RunTracks(cs: seq<Call>, k: string, max: nat, window: int)
    requires window >= 0 && ClockRuns(cs)
    ensures Tracks(Run(cs, window, false), k, Opened(cs, k, max, window), max, window)
  {
    if cs != [] {
      var before, c := cs[..|cs| - 1], cs[|cs| - 1];
      RunTracks(before, k, max, window);
      CallTracks(Run(before, window, false), c, k, Opened(before, k, max, window), max, window);
    }
  }

  lemma {:induction false} CallsInsideWindows(cs: seq<Call>, k: string, max: nat, window: int)
    requires window >= 0 && ClockRuns(cs)
    ensures Inside(Opened(cs, k, max, window), Allowed(cs, Answers(cs, max, window, false), k), window)
  {
    if cs != [] {
      var before, c := cs[..|cs| - 1], cs[|cs| - 1];
      CallsInsideWindows(before, k, max, window);
      WindowsOpenInThePast(before, k, max, window);
      assert Answers(cs, max, window, false)[..|cs| - 1] == Answers(before, max, window, false);
    }
  }

  /** An open window was opened at or before the last call. */
  lemma {:induction false} WindowsOpenInThePast(cs: seq<Call>, k: string, max: nat, window: int)
    requires window >= 0 && ClockRuns(cs)
    ensures k in Run(cs, window, false) ==>
              && Run(cs, window, false)[k].reset.Some?
              && Run(cs, window, false)[k].reset.value - window <= cs[|cs| - 1].now
  {
    if cs != [] {
      var before := cs[..|cs| - 1];
      WindowsOpenInThePast(before, k, max, window);
      if before != [] { assert before[|before| - 1].now <= cs[|cs| - 1].now; }
    }
  }

  lemma {:induction false} AllowedSorted(cs: seq<Call>, answers: seq<bool>, k: string)
    requires ClockRuns(cs) && |answers| == |cs|
    ensures Sorted(Allowed(cs, answers, k))
    ensures var ts := Allowed(cs, answers, k); ts != [] ==> cs != [] && ts[|ts| - 1] <= cs[|cs| - 1].now
  {
    if cs != [] {
      var n := |cs| - 1;
      AllowedSorted(cs[..n], answers[..n], k);
      if n > 0 { assert cs[n - 1].now <= cs[n].now; }
    }
  }

  /** ceil(T / window) windows cover a span of length T. */
  function CeilDiv(T: int, window: int): (q: int)
    requires window > 0 && T >= 0
    ensures q >= 0 && T <= q * window && (T > 0 ==> (q - 1) * window < T)
  {
    var q := (T + window - 1) / window;
    assert T + window - 1 == window * q + (T + window - 1) % window;
    q
  }

  lemma WindowsCover(T: nat, window: int)
    requires window > 0
    ensures var q := CeilDiv(T, window) + 1; q * (window + 1) > T + window
    ensures T == window ==> CeilDiv(T, window) == 1
  {
    var c := CeilDiv(T, window);
    assert (c + 1) * (window + 1) == c * window + window + c + 1;
    if T == window {
      assert window * 1 == window;
      assert (2 * window - 1) / window == 1;
    }
  }

  /** `q` windows further on, more than T has passed. */
  lemma FarApart(ss: seq<int>, ts: seq<int>, max: nat, window: int, a: nat, j: nat, q: nat, T: nat)
    requires window > 0 && Paced(ss, max, window + 1) && Inside(ss, ts, window)
    requires q >= 1 && j == a + max * q < |ts| && q * (window + 1) > T + window
    ensures ts[a] + T < ts[j]
  {
    PacedIsSpaced(ss, max, window + 1);
    SpacedFar(ss, max, window + 1, a, q);
  }

  /** Calls inside windows that open more than `window` apart, at most `max` to a window. */
  lemma WindowedBound(ss: seq<int>, ts: seq<int>, max: nat, window: int, from: int, T: nat)
    requires window > 0 && Paced(ss, max, window + 1) && Inside(ss, ts, window) && Sorted(ts)
    ensures CountIn(ts, from, from + T) <= max * (CeilDiv(T, window) + 1)
  {
    var a, b := SpanIsBlock(ts, from, from + T);
    var q := CeilDiv(T, window) + 1;
    WindowsCover(T, window);
    var most := max * q;
    if b - a > most {
      FarApart(ss, ts, max, window, a, a + most, q, T);
      assert false;
    }
  }

  function CallsOf(cs: seq<Call>, k: string): nat {
    if cs == [] then 0 else CallsOf(cs[..|cs| - 1], k) + if cs[|cs| - 1].key == k then 1 else 0
  }

  /** A bucket counts no more calls than were made. */
  lemma {:induction false} CountsOnlyCalls(cs: seq<Call>, k: string, window: int, evict: bool)
    ensures var d := Run(cs, window, evict); k in d ==> 1 <= d[k].count <= CallsOf(cs, k)
  {
    if cs != [] {
      CountsOnlyCalls(cs[..|cs| - 1], k, window, evict);
    }
  }

  /** The first `max` calls of a key are allowed, whatever the others do. */
  lemma {:induction false} FirstCallsAllowed(cs: seq<Call>, c: Call, max: int, window: int)
    requires max >= 1 && CallsOf(cs, c.key) < max
    ensures Answer(Run(cs, window, true), c, max, window)
  {
    CountsOnlyCalls(cs, c.key, window, true);
  }

  /**
    The evicting limiter lets at most max * (ceil(T / window) + 1) calls of a key through in any
    closed span of length T, so at most 2 * max in one window.
   */
  lemma AllowedBounded(cs: seq<Call>, k: string, max: nat, window: int, from: int, T: nat)
    requires window > 0 && ClockRuns(cs)
    ensures var ts := Allowed(cs, Answers(cs, max, window, true), k);
            && CountIn(ts, from, from + T) <= max * (CeilDiv(T, window) + 1)
            && (T == window ==> CountIn(ts, from, from + T) <= 2 * max)
  {
    EvictionIsInvisible(cs, max, window);
    var ts := Allowed(cs, Answers(cs, max, window, false), k);
    AllowedSorted(cs, Answers(cs, max, window, false), k);
    RunTracks(cs, k, max, window);
    CallsInsideWindows(cs, k, max, window);
    WindowedBound(Opened(cs, k, max, window), ts, max, window, from, T);
    WindowsCover(T, window);
  }
}
