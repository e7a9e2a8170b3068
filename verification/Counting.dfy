/** Counting instants in a closed time span, for the two rate limiters. */
module Counting {

  ghost predicate Sorted(ts: seq<int>) {
    forall i, j :: 0 <= i <= j < |ts| ==> ts[i] <= ts[j]
  }

  /** Entries that are `g` or more places apart are at least `gap` apart in time. */
  ghost predicate Spaced(ts: seq<int>, g: nat, gap: int) {
    forall i, j :: 0 <= i && i + g <= j < |ts| ==> ts[i] + gap <= ts[j]
  }

  /** A sequence built one entry at a time, each no earlier than the last and `gap` after the one `g` places back. */
  ghost predicate Paced(ts: seq<int>, g: nat, gap: int) {
    ts != [] ==>
      var n := |ts| - 1;
      && Paced(ts[..n], g, gap)
      && (n > 0 ==> ts[n - 1] <= ts[n])
      && (n >= g ==> ts[n - g] + gap <= ts[n])
  }

  lemma {:induction false} PacedIsSorted(ts: seq<int>, g: nat, gap: int)
    requires Paced(ts, g, gap)
    ensures Sorted(ts)
  {
    if ts != [] {
      var n := |ts| - 1;
      PacedIsSorted(ts[..n], g, gap);
      forall i, j | 0 <= i <= j < |ts| ensures ts[i] <= ts[j] {
        if i < j == n {
          assert ts[..n][i] <= ts[..n][n - 1];
        } else if j < n {
          assert ts[..n][i] <= ts[..n][j];
        }
      }
    }
  }

  lemma {:induction false} PacedIsSpaced(ts: seq<int>, g: nat, gap: int)
    requires Paced(ts, g, gap)
    ensures Spaced(ts, g, gap)
  {
    if ts != [] {
      var n := |ts| - 1;
      PacedIsSpaced(ts[..n], g, gap);
      PacedIsSorted(ts, g, gap);
      forall i, j | 0 <= i && i + g <= j < |ts| ensures ts[i] + gap <= ts[j] {
        if j == n {
          assert ts[i] <= ts[n - g];
        } else {
          assert ts[..n][i] + gap <= ts[..n][j];
        }
      }
    }
  }

  /** Appending to a group of `f < g` entries that began `gap` after the previous group keeps the pace. */
  lemma {:induction false} PacedAppend(ts: seq<int>, g: nat, gap: int, t: int, f: nat)
    requires Paced(ts, g, gap)
    requires f < g && f <= |ts|
    requires ts != [] ==> ts[|ts| - 1] <= t
    requires f < |ts| ==> ts[|ts| - f - 1] + gap <= if f == 0 then t else ts[|ts| - f]
    ensures Paced(ts + [t], g, gap)
  {
    PacedIsSorted(ts, g, gap);
    var us := ts + [t];
    assert us[..|ts|] == ts;
    if |ts| >= g {
      assert us[|ts| - g] == ts[|ts| - g] <= ts[|ts| - f - 1];
    }
  }

  /** The number of entries in the closed span [lo, hi]. */
  function CountIn(ts: seq<int>, lo: int, hi: int): nat {
    if ts == [] then 0
    else CountIn(ts[..|ts| - 1], lo, hi) + if lo <= ts[|ts| - 1] <= hi then 1 else 0
  }

  /** In a sorted sequence the entries of a span are one contiguous block. */
  lemma {:induction false} SpanIsBlock(ts: seq<int>, lo: int, hi: int) returns (a: nat, b: nat)
    requires Sorted(ts) && lo <= hi
    ensures a <= b <= |ts| && CountIn(ts, lo, hi) == b - a
    ensures forall i :: 0 <= i < a ==> ts[i] < lo
    ensures forall i :: a <= i < b ==> lo <= ts[i] <= hi
    ensures forall i :: b <= i < |ts| ==> hi < ts[i]
  {
    if ts == [] {
      a, b := 0, 0;
    } else {
      var n := |ts| - 1;
      a, b := SpanIsBlock(ts[..n], lo, hi);
      forall i | 0 <= i < n ensures ts[..n][i] == ts[i] <= ts[n] {}
      if ts[n] < lo {
        a, b := |ts|, |ts|;
      } else if ts[n] <= hi {
        if b < n { assert ts[b] <= ts[n]; }
        b := |ts|;
      }
    }
  }

  /** Spacing multiplies: `k` strides of `g` places cost `k` gaps. */
  lemma {:induction false} SpacedFar(ts: seq<int>, g: nat, gap: int, i: nat, k: nat)
    requires Spaced(ts, g, gap) && gap >= 0
    requires k >= 1 && i + g * k < |ts|
    ensures ts[i] + k * gap <= ts[i + g * k]
  {
    if k > 1 {
      assert g * (k - 1) == g * k - g;
      assert (k - 1) * gap == k * gap - gap;
      SpacedFar(ts, g, gap, i, k - 1);
      assert ts[i + g * (k - 1)] + gap <= ts[i + g * k];
    }
  }

  lemma DivCovers(T: nat, gap: int)
    requires gap > 0
    ensures T < (T / gap + 1) * gap
  {
    assert T == gap * (T / gap) + T % gap;
  }

  /** A paced sequence has at most g * (T / gap + 1) entries in any closed span of length T. */
  lemma SpanBound(ts: seq<int>, g: nat, gap: int, lo: int, T: nat)
    requires Paced(ts, g, gap) && gap > 0
    ensures CountIn(ts, lo, lo + T) <= g * (T / gap + 1)
  {
    PacedIsSorted(ts, g, gap);
    var a, b := SpanIsBlock(ts, lo, lo + T);
    var k := T / gap + 1;
    DivCovers(T, gap);
    if b - a > g * k {
      PacedIsSpaced(ts, g, gap);
      SpacedFar(ts, g, gap, a, k);
      assert false;
    }
  }

  lemma BeyondSpan(T: nat, gap: int)
    requires gap > 0
    ensures T + gap < (T / gap + 2) * gap
  {
    DivCovers(T, gap);
    assert (T / gap + 2) * gap == (T / gap + 1) * gap + gap;
  }

  lemma {:induction false} CountAppend(ts: seq<int>, t: int, lo: int, hi: int)
    ensures CountIn(ts + [t], lo, hi) == CountIn(ts, lo, hi) + if lo <= t <= hi then 1 else 0
  {
    assert (ts + [t])[..|ts|] == ts;
  }

  /**
    Instants inside windows of length `gap` that open at a pace of at most `g` instants to a window: at most
    g * (T / gap + 2) of them in any closed span of length T, because the first window may have begun before it.
   */
  lemma WindowsBound(ss: seq<int>, ts: seq<int>, g: nat, gap: int, lo: int, T: nat)
    requires gap > 0 && Paced(ss, g, gap) && Sorted(ts) && |ss| == |ts|
    requires forall i :: 0 <= i < |ss| ==> ss[i] <= ts[i] < ss[i] + gap
    ensures CountIn(ts, lo, lo + T) <= g * (T / gap + 2)
  {
    hide Paced, CountIn;
    var a, b := SpanIsBlock(ts, lo, lo + T);
    var k: nat := T / gap + 2;
    BeyondSpan(T, gap);
    var most: nat := g * k;
    if b - a > most {
      FarWindows(ss, ts, g, gap, a, k, T);
      assert false;
    }
  }

  lemma {:induction false} FarWindows(ss: seq<int>, ts: seq<int>, g: nat, gap: int, a: nat, k: nat, T: nat)
    requires gap > 0 && Paced(ss, g, gap) && |ss| == |ts| && k >= 1 && a + g * k < |ts| && T + gap < k * gap
    requires forall i :: 0 <= i < |ss| ==> ss[i] <= ts[i] < ss[i] + gap
    ensures ts[a] + T < ts[a + g * k]
  {
    PacedIsSpaced(ss, g, gap);
    hide Paced;
    SpacedFar(ss, g, gap, a, k);
  }
}
