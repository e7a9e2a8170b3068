/**
  Audit retention. Every Audit inserts one event and then deletes all but the 100000 with the greatest
  timestamps; RecoverPassword inserts without deleting. Timestamps are texts under byte order, and
  ties are broken by the engine as it likes.
 */
module Audit {
  import opened Wrappers
  import opened Timestamps

  const RETAINED: nat := 100000

  /** Events by id, each with its timestamp. */
  type Events = map<string, string>

  /** The rows that are not older than `t`. */
  ghost function NotOlder(table: Events, t: string): set<string> {
    set k | k in table && !Less(table[k], t)
  }

  function Restrict(table: Events, kept: set<string>): Events {
    map k | k in table && k in kept :: table[k]
  }

  /** ids ordered by timestamp, newest first: a result of ORDER BY timestamp DESC. */
  ghost predicate NewestFirst(table: Events, order: seq<string>) {
    && (forall k :: k in order <==> k in table)
    && (forall i, j :: 0 <= i < j < |order| ==> order[i] != order[j] && !Less(table[order[i]], table[order[j]]))
  }

  /** What the DELETE may leave: as many rows as allowed, none older than a deleted one. */
  ghost predicate IsPruned(table: Events, kept: set<string>, cap: nat) {
    && kept <= table.Keys && |kept| == (if |table| <= cap then |table| else cap)
    && forall k, d :: k in kept && d in table && d !in kept ==> !Less(table[k], table[d])
  }

  class Log {
    var events: Events

    constructor ()
      ensures events == map[]
    {
      events := map[];
    }

    /** `order` is how the engine sorts the table after the insert; everything past the limit goes. */
    method Audit(id: string, timestamp: string, order: seq<string>) returns (ok: bool)
      requires id !in events ==> NewestFirst(events[id := timestamp], order)
      modifies this
      ensures ok == (id !in old(events))
      ensures !ok ==> events == old(events)
      ensures ok ==> forall k :: k in events ==> if k == id then events[k] == timestamp
                                                 else k in old(events) && events[k] == old(events)[k]
      ensures ok ==>
                IsPruned(old(events)[id := timestamp], events.Keys, 100000)
                && events == Restrict(old(events)[id := timestamp], events.Keys)
    {
      if id in events {
        return false;
      }
      events := events[id := timestamp];
      ghost var full := events;
      var n := if |order| <= RETAINED then |order| else RETAINED;
      events := Restrict(events, set i | 0 <= i < n :: order[i]);
      TopOfOrder(full, order, n, RETAINED);
      assert events.Keys == set i | 0 <= i < n :: order[i];
      ok := true;
    }

    /** ListAudit: the newest events, at most 1000 and 200 by default. */
    method ListAudit(limit: int, order: seq<string>) returns (out: seq<string>)
      requires NewestFirst(events, order)
      ensures out <= order
      ensures var n := if limit < 1 || limit > 1000 then 200 else limit; |out| == if |order| <= n then |order| else n
    {
      var n := if limit < 1 || limit > 1000 then 200 else limit;
      out := if |order| <= n then order else order[..n];
    }
  }

  lemma {:induction false} DistinctCount(order: seq<string>, n: nat)
    requires n <= |order| && forall i, j :: 0 <= i < j < |order| ==> order[i] != order[j]
    ensures |set i | 0 <= i < n :: order[i]| == n
  {
    if n > 0 {
      DistinctCount(order, n - 1);
      assert (set i | 0 <= i < n :: order[i]) == (set i | 0 <= i < n - 1 :: order[i]) + {order[n - 1]};
    }
  }

  lemma TopOfOrder(table: Events, order: seq<string>, n: nat, cap: nat)
    requires NewestFirst(table, order) && n == if |order| <= cap then |order| else cap
    ensures IsPruned(table, set i | 0 <= i < n :: order[i], cap)
  {
    DistinctCount(order, n);
    DistinctCount(order, |order|);
    assert (set i | 0 <= i < |order| :: order[i]) == table.Keys by {
      forall k ensures k in (set i | 0 <= i < |order| :: order[i]) <==> k in table {
        if k in table {
          var i :| 0 <= i < |order| && order[i] == k;
        }
      }
    }
    assert |table| == |order|;
    var kept := set i | 0 <= i < n :: order[i];
    forall k, d | k in kept && d in table && d !in kept ensures !Less(table[k], table[d]) {
      var i :| 0 <= i < n && order[i] == k;
      var j :| 0 <= j < |order| && order[j] == d;
      assert i < j;
    }
  }

  // ----- The stream -----

  /** Insert alone is RecoverPassword, or an Audit whose DELETE failed; Audit inserts and prunes. */
  datatype Step = Insert(id: string, timestamp: string) | Prune(kept: set<string>)

  /** The table, and everything ever deleted from it. */
  datatype History = History(table: Events, dropped: Events)

  /** Ids are random: never one that was used before. */
  ghost predicate Possible(h: History, s: Step, cap: nat) {
    match s
    case Insert(id, _) => id !in h.table && id !in h.dropped
    case Prune(kept) => IsPruned(h.table, kept, cap)
  }

  ghost function Apply(h: History, s: Step): History {
    match s
    case Insert(id, t) => History(h.table[id := t], h.dropped)
    case Prune(kept) => History(Restrict(h.table, kept), h.dropped + (h.table - kept))
  }

  ghost function Play(steps: seq<Step>, cap: nat): Option<History> {
    if steps == [] then Some(History(map[], map[])) else
      var before, s := Play(steps[..|steps| - 1], cap), steps[|steps| - 1];
      if before.Some? && Possible(before.value, s, cap) then Some(Apply(before.value, s)) else None
  }

  function Inserted(steps: seq<Step>): Events {
    if steps == [] then map[] else
      var before, s := Inserted(steps[..|steps| - 1]), steps[|steps| - 1];
      match s case Insert(id, t) => before[id := t] case Prune(_) => before
  }

  /** For everything dropped, the table still has at least `cap` rows that are not older. */
  ghost predicate Covered(h: History, cap: nat) {
    && h.table.Keys !! h.dropped.Keys
    && forall d :: d in h.dropped ==> |NotOlder(h.table, h.dropped[d])| >= cap
  }

  lemma SubsetCount(a: set<string>, b: set<string>)
    requires a <= b
    ensures |a| <= |b| && (|a| == |b| ==> a == b)
  {
    assert b == a + (b - a);
  }

  lemma InsertKeeps(h: History, id: string, t: string, cap: nat)
    requires Covered(h, cap) && id !in h.table && id !in h.dropped
    ensures Covered(Apply(h, Insert(id, t)), cap)
  {
    forall d | d in h.dropped ensures |NotOlder(h.table[id := t], h.dropped[d])| >= cap {
      SubsetCount(NotOlder(h.table, h.dropped[d]), NotOlder(h.table[id := t], h.dropped[d]));
    }
  }

  /** If `cap` rows are not older than `t`, the pruned table has no row older than `t`. */
  lemma TopIsNotOlder(table: Events, kept: set<string>, cap: nat, t: string)
    requires IsPruned(table, kept, cap) && |NotOlder(table, t)| >= cap
    ensures |kept| == cap && NotOlder(Restrict(table, kept), t) == kept
  {
    SubsetCount(NotOlder(table, t), table.Keys);
    forall k | k in kept ensures !Less(table[k], t) {
      if Less(table[k], t) {
        var a := OneLeftOut(NotOlder(table, t), kept, k);
        if Less(table[a], table[k]) || Less(table[k], table[a]) || table[k] == table[a] {
          LessTotal(table[a], table[k]);
        }
        LessTransitive(t, table[a], table[k]);
        assert false;
      }
    }
  }

  /**
    Two sets, the first at least as large: a member of the second outside the first leaves a member of the
    first outside the second.
   */
  lemma OneLeftOut(a: set<string>, b: set<string>, k: string) returns (x: string)
    requires |a| >= |b| && k in b && k !in a
    ensures x in a && x !in b
  {
    if a <= b {
      SubsetCount(a, b - {k});
      assert false;
    }
    x :| x in a && x !in b;
  }

  /** After pruning, no kept row is older than anything ever dropped. */
  lemma DroppedIsOlder(h: History, kept: set<string>, cap: nat, d: string)
    requires Covered(h, cap) && IsPruned(h.table, kept, cap)
    requires d in h.dropped + (h.table - kept)
    ensures var t := (h.dropped + (h.table - kept))[d];
            |kept| == cap && NotOlder(Restrict(h.table, kept), t) == kept
  {
    if d in h.dropped {
      TopIsNotOlder(h.table, kept, cap, h.dropped[d]);
    } else {
      SubsetCount(kept, h.table.Keys);
    }
  }

  lemma PruneKeeps(h: History, kept: set<string>, cap: nat)
    requires Covered(h, cap) && IsPruned(h.table, kept, cap)
    ensures Covered(Apply(h, Prune(kept)), cap)
    ensures var h' := Apply(h, Prune(kept));
            forall k, d :: k in h'.table && d in h'.dropped ==> !Less(h'.table[k], h'.dropped[d])
  {
    var h' := Apply(h, Prune(kept));
    assert h'.table.Keys == kept && h'.table.Keys !! h'.dropped.Keys;
    forall d | d in h'.dropped
      ensures |NotOlder(h'.table, h'.dropped[d])| >= cap
      ensures forall k :: k in h'.table ==> !Less(h'.table[k], h'.dropped[d])
    {
      DroppedIsOlder(h, kept, cap, d);
      assert forall k :: k in kept ==> k in NotOlder(h'.table, h'.dropped[d]);
    }
  }

  lemma {:induction false} PlayCovered(steps: seq<Step>, cap: nat)
    requires Play(steps, cap).Some?
    ensures Covered(Play(steps, cap).value, cap)
  {
    if steps != [] {
      var before, s := Play(steps[..|steps| - 1], cap).value, steps[|steps| - 1];
      PlayCovered(steps[..|steps| - 1], cap);
      match s
      case Insert(id, t) => InsertKeeps(before, id, t, cap);
      case Prune(kept) => PruneKeeps(before, kept, cap);
    }
  }

  /** Moving rows from the table to the dropped ones changes neither their number nor their contents. */
  lemma SplitUnion(table: Events, dropped: Events, kept: set<string>)
    requires table.Keys !! dropped.Keys
    ensures var table', dropped' := Restrict(table, kept), dropped + (table - kept);
            table'.Keys !! dropped'.Keys && table' + dropped' == table + dropped
  {
  }

  lemma UnionKept(h: History, s: Step)
    requires h.table.Keys !! h.dropped.Keys && (s.Insert? ==> s.id !in h.table && s.id !in h.dropped)
    ensures var h' := Apply(h, s);
            && h'.table.Keys !! h'.dropped.Keys
            && h'.table + h'.dropped
               == match s { case Insert(id, t) => (h.table + h.dropped)[id := t] case Prune(_) => h.table + h.dropped }
  {
    match s {
      case Insert(id, t) =>
        assert h.table[id := t] + h.dropped == (h.table + h.dropped)[id := t];
      case Prune(kept) =>
        SplitUnion(h.table, h.dropped, kept);
    }
  }

  lemma {:induction false} NothingLost(steps: seq<Step>, cap: nat)
    requires Play(steps, cap).Some?
    ensures var h := Play(steps, cap).value; h.table.Keys !! h.dropped.Keys && h.table + h.dropped == Inserted(steps)
  {
    if steps != [] {
      hide IsPruned, Apply;
      NothingLost(steps[..|steps| - 1], cap);
      UnionKept(Play(steps[..|steps| - 1], cap).value, steps[|steps| - 1]);
    }
  }

  /** How many rows a prune leaves, counted against everything ever inserted. */
  lemma PrunedSize(h: History, kept: set<string>, cap: nat)
    requires Covered(h, cap) && IsPruned(h.table, kept, cap)
    ensures var all := h.table.Keys + h.dropped.Keys; |kept| == if |all| <= cap then |all| else cap
  {
    if h.dropped.Keys == {} {
      assert h.table.Keys + h.dropped.Keys == h.table.Keys;
    } else {
      var d :| d in h.dropped.Keys;
      SubsetCount(NotOlder(h.table, h.dropped[d]), h.table.Keys);
    }
  }

  /**
    Streaming top-k: after every successful Audit the table holds the `cap` newest of all events ever
    inserted (the program keeps RETAINED), or all of them while there are fewer, and nothing dropped is
    newer than anything kept; inserts in between, without pruning, do not disturb this.
   */
  lemma {:induction false} NewestRetained(steps: seq<Step>, cap: nat)
    requires steps != [] && steps[|steps| - 1].Prune? && Play(steps, cap).Some?
    ensures var h, all := Play(steps, cap).value, Inserted(steps);
            && h.table.Keys !! h.dropped.Keys && h.table + h.dropped == all
            && |h.table| == (if |all| <= cap then |all| else cap)
            && forall k, d :: k in h.table && d in h.dropped ==> !Less(h.table[k], h.dropped[d])
  {
    var init := steps[..|steps| - 1];
    var before, kept := Play(init, cap).value, steps[|steps| - 1].kept;
    LastPrune(steps, cap);
    hide Covered, IsPruned, Apply, Play, Possible, Inserted, Restrict;
    PlayCovered(init, cap);
    PruneKeeps(before, kept, cap);
    PrunedSize(before, kept, cap);
    NothingLost(steps, cap);
    NothingLost(init, cap);
    assert Inserted(init).Keys == before.table.Keys + before.dropped.Keys;
  }

  lemma LastPrune(steps: seq<Step>, cap: nat)
    requires steps != [] && steps[|steps| - 1].Prune? && Play(steps, cap).Some?
    ensures var init, kept := steps[..|steps| - 1], steps[|steps| - 1].kept;
            && Play(init, cap).Some? && IsPruned(Play(init, cap).value.table, kept, cap)
            && Play(steps, cap).value == Apply(Play(init, cap).value, Prune(kept))
               && Apply(Play(init, cap).value, Prune(kept)).table.Keys == kept
            && Inserted(steps) == Inserted(init)
  {
  }
}
