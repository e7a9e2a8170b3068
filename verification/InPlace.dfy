/**
  maskInspect as it works: it rewrites the maps and arrays of a decoded document in place. A decoded
  document is a tree, so no map or array is reached twice.
 */
module InPlace {
  import opened Json
  import opened Secrets
  import opened Masking

  /** map[string]interface{} and []interface{}: references that are shared when copied. */
  class Table {
    var fields: map<string, Value>
    constructor (m: map<string, Value>)
      ensures fields == m
    {
      fields := m;
    }
  }

  class List {
    var items: seq<Value>
    constructor (xs: seq<Value>)
      ensures items == xs
    {
      items := xs;
    }
  }

  /** A value of the empty interface as the decoder produces it; `Plain` is never an object or an array. */
  datatype Value = Plain(j: Json) | Map(table: Table) | Slice(list: List)

  /** Which maps and arrays a document is made of, and where; `foot` covers all of a part. */
  datatype Tree =
    | Tip
    | Branch(table: Table, fields: map<string, Tree>, foot: set<object>)
    | Row(list: List, items: seq<Tree>, foot: set<object>)

  function Foot(t: Tree): set<object> {
    if t.Tip? then {} else t.foot
  }

  /** No map or array occurs twice. */
  ghost predicate Separate(t: Tree) {
    match t
    case Tip => true
    case Branch(x, kids, foot) =>
      && x in foot
      && (forall k :: k in kids ==> Separate(kids[k]) && Foot(kids[k]) <= foot - {x})
      && (forall k, l :: k in kids && l in kids && k != l ==> Foot(kids[k]) !! Foot(kids[l]))
    case Row(x, kids, foot) =>
      && x in foot
      && (forall i :: 0 <= i < |kids| ==> Separate(kids[i]) && Foot(kids[i]) <= foot - {x})
      && (forall i, j :: 0 <= i < j < |kids| ==> Foot(kids[i]) !! Foot(kids[j]))
  }

  /** The heap below `v` holds the document `j`. */
  ghost predicate Holds(v: Value, t: Tree, j: Json)
    requires Separate(t)
    reads Foot(t)
    decreases t
  {
    match t
    case Tip => v == Plain(j) && !j.Obj? && !j.Arr?
    case Branch(x, kids, _) =>
      && v == Map(x) && j.Obj? && x.fields.Keys == kids.Keys == j.fields.Keys
      && forall k :: k in kids ==> Holds(x.fields[k], kids[k], j.fields[k])
    case Row(x, kids, _) =>
      && v == Slice(x) && j.Arr? && |x.items| == |kids| == |j.items|
      && forall i :: 0 <= i < |kids| ==> Holds(x.items[i], kids[i], j.items[i])
  }

  method MaskInspect(v: Value, ghost t: Tree, ghost j: Json) returns (ghost t': Tree)
    requires Separate(t) && Holds(v, t, j)
    modifies Foot(t)
    ensures Separate(t') && Foot(t') <= Foot(t) && Holds(v, t', Mask(j))
    decreases t, 1
  {
    match v
    case Map(x) => t' := MaskTable(x, t, j);
    case Slice(x) => t' := MaskList(x, t, j);
    case _ => t' := t;
  }

  method MaskList(x: List, ghost t: Tree, ghost j: Json) returns (ghost t': Tree)
    requires Separate(t) && Holds(Slice(x), t, j)
    modifies Foot(t)
    ensures Separate(t') && Foot(t') <= Foot(t) && Holds(Slice(x), t', Mask(j))
    decreases t, 0
  {
    ghost var kids := t.items;
    for i := 0 to |x.items|
      invariant |x.items| == |kids| == |t.items| == |j.items|
      invariant forall l :: 0 <= l < |kids| ==> Separate(kids[l]) && Foot(kids[l]) <= Foot(t.items[l])
      invariant forall l :: i <= l < |kids| ==> kids[l] == t.items[l]
      invariant forall l :: 0 <= l < |kids| ==>
                  Holds(x.items[l], kids[l], if l < i then Mask(j.items[l]) else j.items[l])
    {
      ghost var kid := MaskInspect(x.items[i], kids[i], j.items[i]);
      kids := kids[i := kid];
    }
    t' := Row(x, kids, t.foot);
  }

  ghost predicate Apart(x: object, kids: map<string, Tree>, foot: set<object>) {
    && x in foot
    && (forall k :: k in kids ==> Foot(kids[k]) <= foot - {x})
    && (forall k, l :: k in kids && l in kids && k != l ==> Foot(kids[k]) !! Foot(kids[l]))
  }

  /** Shrinking the parts keeps them apart. */
  lemma StillApart(x: object, kids: map<string, Tree>, smaller: map<string, Tree>, foot: set<object>)
    requires Apart(x, kids, foot) && smaller.Keys == kids.Keys
    requires forall k :: k in kids ==> Foot(smaller[k]) <= Foot(kids[k])
    ensures Apart(x, smaller, foot)
  {
  }

  lemma Others(x: object, kids: map<string, Tree>, foot: set<object>, k: string)
    requires Apart(x, kids, foot) && k in kids
    ensures x in foot && x !in Foot(kids[k]) && Foot(kids[k]) <= foot
    ensures forall l :: l in kids && l != k ==> Foot(kids[l]) !! Foot(kids[k]) && x !in Foot(kids[l])
  {
  }

  lemma {:induction false} OpenTable(x: Table, t: Tree, j: Json)
    requires Separate(t) && Holds(Map(x), t, j)
    ensures t.Branch? && t.table == x && Apart(x, t.fields, t.foot)
    ensures forall k :: k in t.fields ==> Separate(t.fields[k])
    ensures j.Obj? && x.fields.Keys == t.fields.Keys == j.fields.Keys
    ensures forall k :: k in t.fields ==> Holds(x.fields[k], t.fields[k], j.fields[k])
  {
  }

  lemma CloseTable(x: Table, kids: map<string, Tree>, foot: set<object>, m: map<string, Json>)
    requires Apart(x, kids, foot) && (forall k :: k in kids ==> Separate(kids[k]))
    requires x.fields.Keys == kids.Keys == m.Keys
    requires forall k :: k in kids ==> Holds(x.fields[k], kids[k], m[k])
    ensures Separate(Branch(x, kids, foot)) && Holds(Map(x), Branch(x, kids, foot), Obj(m))
  {
  }

  lemma MaskedFields(j: Json) returns (masked: map<string, Json>)
    requires j.Obj?
    ensures Mask(j) == Obj(masked) && masked.Keys == j.fields.Keys
    ensures forall k :: k in masked ==> masked[k] == MaskField(k, j.fields[k])
  {
    masked := Mask(j).fields;
  }

  /** The entries in `todo` still hold what is in `before`, the others what is in `after`. */
  ghost predicate Midway(x: Table, kids: map<string, Tree>, foot: set<object>, todo: set<string>,
                         before: map<string, Json>, after: map<string, Json>)
    reads foot
    requires Apart(x, kids, foot) && forall k :: k in kids ==> Separate(kids[k])
  {
    && todo <= kids.Keys == x.fields.Keys == before.Keys == after.Keys
    && forall k :: k in kids ==> Holds(x.fields[k], kids[k], if k in todo then before[k] else after[k])
  }

  /** The body of the loop over the entries of a map. */
  method MaskNext(x: Table, k: string, ghost kids: map<string, Tree>, ghost foot: set<object>, ghost todo: set<string>,
                  ghost before: map<string, Json>, ghost after: map<string, Json>)
    returns (ghost kids': map<string, Tree>)
    requires Apart(x, kids, foot) && (forall k :: k in kids ==> Separate(kids[k]))
    requires Midway(x, kids, foot, todo, before, after)
    requires k in todo && after[k] == MaskField(k, before[k])
    modifies foot
    ensures kids'.Keys == kids.Keys && (forall l :: l in kids && l != k ==> kids'[l] == kids[l])
    ensures Apart(x, kids', foot) && (forall k :: k in kids' ==> Separate(kids'[k]))
    ensures Midway(x, kids', foot, todo - {k}, before, after)
    decreases kids[k], 3
  {
    hide Separate, Holds, MaskField, Apart;
    Others(x, kids, foot, k);
    ghost var kid := MaskEntry(x, k, kids[k], before[k]);
    kids' := kids[k := kid];
    StillApart(x, kids, kids', foot);
  }

  /** The keys of a map come in any order. */
  method NextKey(todo: set<string>) returns (k: string, rest: set<string>)
    requires todo != {}
    ensures k in todo && rest == todo - {k} && |rest| < |todo|
  {
    k :| k in todo;
    rest := todo - {k};
  }

  method MaskTable(x: Table, ghost t: Tree, ghost j: Json) returns (ghost t': Tree)
    requires Separate(t) && Holds(Map(x), t, j)
    modifies Foot(t)
    ensures Separate(t') && Foot(t') <= Foot(t) && Holds(Map(x), t', Mask(j))
    decreases t, 0
  {
    hide Separate, Holds, Mask, MaskField, Apart;
    OpenTable(x, t, j);
    ghost var kids := t.fields;
    ghost var masked := MaskedFields(j);
    var todo := x.fields.Keys;
    while todo != {}
      invariant kids.Keys == t.fields.Keys && Apart(x, kids, t.foot) && forall l :: l in kids ==> Separate(kids[l])
      invariant Midway(x, kids, t.foot, todo, j.fields, masked)
      invariant todo <= kids.Keys && forall l :: l in todo ==> kids[l] == t.fields[l]
      decreases |todo|
    {
      hide Midway;
      var k, rest := NextKey(todo);
      kids := MaskNext(x, k, kids, t.foot, todo, j.fields, masked);
      todo := rest;
    }
    t' := Branch(x, kids, t.foot);
    CloseTable(x, kids, t.foot, masked);
  }

  /** One entry: a sensitive one is overwritten, an Env array masked item by item, anything else masked recursively. */
  method MaskEntry(x: Table, k: string, ghost t: Tree, ghost j: Json) returns (ghost t': Tree)
    requires k in x.fields && Separate(t) && x !in Foot(t) && Holds(x.fields[k], t, j)
    modifies x, Foot(t)
    ensures x.fields.Keys == old(x.fields.Keys)
    ensures forall l :: l in x.fields && l != k ==> x.fields[l] == old(x.fields[l])
    ensures Separate(t') && Foot(t') <= Foot(t) && Holds(x.fields[k], t', MaskField(k, j))
    decreases t, 2
  {
    hide Sensitive;
    var val := x.fields[k];
    var secret := SensitiveKey(k);
    t' := t;
    if secret {
      x.fields := x.fields[k := Plain(MASKED)];
      t' := Tip;
    } else if k == ENV {
      if val.Slice? {
        MaskEnvItems(val.list, t, j);
      }
    } else {
      t' := MaskInspect(val, t, j);
    }
  }

  method MaskEnvItems(arr: List, ghost t: Tree, ghost j: Json)
    requires Separate(t) && Holds(Slice(arr), t, j)
    modifies arr
    ensures Holds(Slice(arr), t, MaskEnvValue(j))
  {
    for i := 0 to |arr.items|
      invariant |arr.items| == |t.items| == |j.items|
      invariant forall l :: 0 <= l < |j.items| ==>
                  Holds(arr.items[l], t.items[l], if l < i then MaskEnvItem(j.items[l]) else j.items[l])
    {
      if arr.items[i].Plain? && arr.items[i].j.Str? {
        var masked := MaskEnv([arr.items[i].j.value], false);
        arr.items := arr.items[i := Plain(Str(masked[0]))];
      }
    }
  }
}
