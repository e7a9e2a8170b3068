/** Documents decoded from JSON into Go's interface{} values. */
module Json {
  datatype Json =
    | Null
    | Bool(flag: bool)
    | Number(text: string)
    | Str(value: string)
    | Arr(items: seq<Json>)
    | Obj(fields: map<string, Json>)
}

/** Which keys carry secrets, and how KEY=value items are masked. */
module Secrets {

  /**
    strings.ToUpper as far as ASCII results go: besides the ASCII letters only the long s and
    the dotless i have an ASCII capital.
   */
  function UpperChar(c: char): char {
    if 'a' <= c <= 'z' then c - 32 as char
    else if c == '\U{017F}' then 'S'
    else if c == '\U{0131}' then 'I'
    else c
  }

  function Upper(s: string): (u: string)
    ensures |u| == |s| && forall i :: 0 <= i < |s| ==> u[i] == UpperChar(s[i])
  {
    seq(|s|, i requires 0 <= i < |s| => UpperChar(s[i]))
  }

  predicate Contains(s: string, t: string) {
    exists i :: 0 <= i <= |s| && t <= s[i..]
  }

  const FRAGMENTS: seq<string> :=
    ["PASSWORD", "PASS", "SECRET", "TOKEN", "PRIVATE", "CREDENTIAL", "AUTH", "API_KEY", "ACCESS_KEY"]

  predicate HasFragment(u: string, fragment: string) {
    u == fragment || Contains(u, "_" + fragment) || fragment + "_" <= u
  }

  predicate Sensitive(key: string) {
    var u := Upper(key);
    u == "DATABASE_URL" || u == "REDIS_URL" || exists f :: f in FRAGMENTS && HasFragment(u, f)
  }

  // ----- Which keys these are, letter by letter -----

  /** `u` is `key` in upper case. */
  ghost predicate IsUpperCase(key: string, u: string) {
    |u| == |key| && forall i :: 0 <= i < |key| ==>
      u[i] == if 'a' <= key[i] <= 'z' then (key[i] as int - 'a' as int + 'A' as int) as char
              else if key[i] == '\U{017F}' then 'S' else if key[i] == '\U{0131}' then 'I' else key[i]
  }

  /** The word stands alone, before an underscore at the start, or after an underscore anywhere. */
  ghost predicate Mentions(u: string, word: string) {
    || u == word
    || (|word| < |u| && u[..|word|] == word && u[|word|] == '_')
    || exists i :: 0 <= i < |u| - |word| && u[i] == '_' && u[i + 1..i + 1 + |word|] == word
  }

  ghost const SECRET_WORDS: set<string> :=
    {"PASSWORD", "PASS", "SECRET", "TOKEN", "PRIVATE", "CREDENTIAL", "AUTH", "API_KEY", "ACCESS_KEY"}

  ghost predicate NamesSecret(u: string) {
    u == "DATABASE_URL" || u == "REDIS_URL" || exists word :: word in SECRET_WORDS && Mentions(u, word)
  }

  lemma {:induction false} MentionsFragment(u: string, f: string)
    ensures Mentions(u, f) <==> HasFragment(u, f)
  {
    var before, after := "_" + f, f + "_";
    assert before[0] == '_' && before[1..] == f && |before| == |f| + 1;
    assert after[..|f|] == f && after[|f|] == '_' && |after| == |f| + 1;
    forall i | 0 <= i <= |u|
      ensures before <= u[i..] <==> i < |u| - |f| && u[i] == '_' && u[i + 1..i + 1 + |f|] == f
    {
      if i < |u| - |f| {
        assert u[i..][..|before|] == u[i..i + 1 + |f|] == [u[i]] + u[i + 1..i + 1 + |f|];
        assert before == ['_'] + f;
      }
    }
    if |f| < |u| {
      assert u[..|after|] == u[..|f|] + [u[|f|]];
      assert after == f + ['_'];
    }
  }

  lemma UpperIsUpperCase(key: string, u: string)
    ensures IsUpperCase(key, u) <==> u == Upper(key)
  {
  }

  lemma SameWords()
    ensures forall f :: f in FRAGMENTS <==> f in SECRET_WORDS
  {
  }

  /** The sensitive keys are exactly those that name a secret. */
  lemma SensitiveMeans(key: string)
    ensures forall u :: IsUpperCase(key, u) ==> (Sensitive(key) <==> NamesSecret(u))
  {
    SameWords();
    hide FRAGMENTS, SECRET_WORDS, HasFragment, Mentions, Upper, IsUpperCase;
    forall u | IsUpperCase(key, u) ensures Sensitive(key) <==> NamesSecret(u) {
      UpperIsUpperCase(key, u);
      forall f { MentionsFragment(u, f); }
    }
  }

  method SensitiveKey(key: string) returns (b: bool)
    ensures b == Sensitive(key)
    ensures forall u :: IsUpperCase(key, u) ==> (b <==> NamesSecret(u))
  {
    SensitiveMeans(key);
    hide NamesSecret, IsUpperCase;
    var u := Upper(key);
    if u == "DATABASE_URL" || u == "REDIS_URL" {
      return true;
    }
    for i := 0 to |FRAGMENTS|
      invariant forall f :: f in FRAGMENTS[..i] ==> !HasFragment(u, f)
    {
      if HasFragment(u, FRAGMENTS[i]) {
        return true;
      }
    }
    b := false;
  }

  /** Without an underscore only a bare fragment is sensitive. */
  lemma PlainKey(key: string)
    requires '_' !in Upper(key) && Upper(key) !in FRAGMENTS
    ensures !Sensitive(key)
  {
    var u := Upper(key);
    assert "DATABASE_URL"[8] == '_' && "REDIS_URL"[5] == '_';
    forall f | f in FRAGMENTS ensures !HasFragment(u, f) {
      NoUnderscore(u, f);
    }
  }

  lemma NoUnderscore(u: string, f: string)
    requires '_' !in u && u != f
    ensures !HasFragment(u, f)
  {
    var before, after := "_" + f, f + "_";
    assert before[0] == '_' && after[|f|] == '_';
    forall i | 0 <= i < |u| ensures !(before <= u[i..]) {
      assert u[i..][0] == u[i];
    }
  }

  // ----- KEY=value items -----

  const STARS := "********"

  /** strings.Cut(item, "="): the place of the first '=', or the length. */
  function CutAt(s: string): (n: nat)
    ensures n <= |s| && '=' !in s[..n] && (n < |s| ==> s[n] == '=')
  {
    if s == [] || s[0] == '=' then 0 else
      var n := CutAt(s[1..]);
      assert s[..n + 1] == [s[0]] + s[1..][..n];
      n + 1
  }

  predicate SecretItem(s: string) {
    CutAt(s) < |s| && Sensitive(s[..CutAt(s)])
  }

  function MaskItem(s: string): string {
    if SecretItem(s) then s[..CutAt(s)] + "=" + STARS else s
  }

  /** An item KEY=value keeps its key, and its value exactly if the key names no secret. */
  lemma ItemMeans(key: string, value: string, u: string)
    requires '=' !in key && IsUpperCase(key, u)
    ensures MaskItem(key + "=" + value) == if NamesSecret(u) then key + "=" + "********" else key + "=" + value
  {
    var s, n := key + "=" + value, |key|;
    assert s[..n] == key && s[n] == '=';
    CutUnique(s, n);
    SensitiveMeans(key);
    hide NamesSecret, IsUpperCase, Sensitive;
  }

  /** An item without '=' is shown. */
  lemma NoKeyMeans(item: string)
    requires '=' !in item
    ensures MaskItem(item) == item
  {
  }

  method MaskEnv(values: seq<string>, show: bool) returns (out: seq<string>)
    ensures |out| == |values|
    ensures forall i :: 0 <= i < |values| ==> out[i] == if show then values[i] else MaskItem(values[i])
  {
    out := [];
    for i := 0 to |values|
      invariant |out| == i
      invariant forall j :: 0 <= j < i ==> out[j] == if show then values[j] else MaskItem(values[j])
    {
      var item := MaskOne(values[i], show);
      out := out + [item];
    }
  }

  method MaskOne(item: string, show: bool) returns (r: string)
    ensures r == if show then item else MaskItem(item)
  {
    var n := CutAt(item);
    var secret := SensitiveKey(item[..n]);
    r := if n < |item| && secret && !show then item[..n] + "=" + STARS else item;
  }

  /** Equal items, or items that differ only in the value of one sensitive key. */
  predicate SameItem(s: string, t: string) {
    s == t || (SecretItem(s) && SecretItem(t) && s[..CutAt(s)] == t[..CutAt(t)])
  }

  /** A first '=' is where the text before it has none. */
  lemma {:induction false} CutUnique(s: string, n: nat)
    requires n < |s| && s[n] == '=' && '=' !in s[..n]
    ensures CutAt(s) == n
  {
  }

  lemma {:induction false} MaskedItemCut(s: string)
    requires SecretItem(s)
    ensures var m := MaskItem(s); CutAt(m) == CutAt(s) && m[..CutAt(m)] == s[..CutAt(s)] && SecretItem(m)
  {
    var m, n := MaskItem(s), CutAt(s);
    assert m[..n] == s[..n];
    CutUnique(m, n);
  }

  /** Masked items agree exactly when the items differ in a secret value only. */
  lemma MaskItemCanonical(s: string, t: string)
    ensures MaskItem(s) == MaskItem(t) <==> SameItem(s, t)
  {
    if SecretItem(s) { MaskedItemCut(s); }
    if SecretItem(t) { MaskedItemCut(t); }
  }

  lemma MaskItemIdempotent(s: string)
    ensures SameItem(MaskItem(s), s)
  {
    if SecretItem(s) { MaskedItemCut(s); }
  }
}

/** maskInspect: the recursive masking of an inspect document. */
module Masking {
  import opened Json
  import opened Secrets

  const ENV := "Env"
  const MASKED := Str(STARS)

  function MaskEnvItem(v: Json): Json {
    if v.Str? then Str(MaskItem(v.value)) else v
  }

  /** Only the texts of an Env array are masked; any other Env value is left alone. */
  function MaskEnvValue(v: Json): Json {
    if v.Arr? then Arr(seq(|v.items|, i requires 0 <= i < |v.items| => MaskEnvItem(v.items[i]))) else v
  }

  function MaskField(k: string, v: Json): Json
    decreases v, 1
  {
    if Sensitive(k) then MASKED else if k == ENV then MaskEnvValue(v) else Mask(v)
  }

  function Mask(v: Json): Json
    decreases v, 0
  {
    match v
    case Obj(m) => Obj(map k | k in m :: MaskField(k, m[k]))
    case Arr(xs) => Arr(seq(|xs|, i requires 0 <= i < |xs| => Mask(xs[i])))
    case _ => v
  }

  // ----- Field by field -----

  /** A field whose key names a secret becomes eight stars; an Env array is masked item by item; the rest is entered. */
  lemma FieldMeans(m: map<string, Json>, k: string, u: string)
    requires k in m && IsUpperCase(k, u)
    ensures Mask(Obj(m)).Obj? && Mask(Obj(m)).fields.Keys == m.Keys
    ensures var v := Mask(Obj(m)).fields[k];
            if NamesSecret(u) then v == Str("********")
            else if k == "Env" then if m[k].Arr? then ItemsMasked(m[k].items, v) else v == m[k]
            else v == Mask(m[k])
  {
    SensitiveMeans(k);
    hide NamesSecret, IsUpperCase, Sensitive;
  }

  ghost predicate ItemsMasked(xs: seq<Json>, v: Json) {
    && v.Arr? && |v.items| == |xs|
    && forall i :: 0 <= i < |xs| ==> v.items[i] == if xs[i].Str? then Str(MaskItem(xs[i].value)) else xs[i]
  }

  /** Arrays are masked element by element, everything else is shown. */
  lemma {:induction false} ElementsMean(xs: seq<Json>, v: Json)
    ensures Mask(Arr(xs)).Arr? && |Mask(Arr(xs)).items| == |xs|
    ensures forall i :: 0 <= i < |xs| ==> Mask(Arr(xs)).items[i] == Mask(xs[i])
    ensures !v.Obj? && !v.Arr? ==> Mask(v) == v
  {
  }

  // ----- What masking hides, and nothing else -----

  predicate AgreeEnvItem(a: Json, b: Json) {
    if a.Str? && b.Str? then SameItem(a.value, b.value) else a == b
  }

  predicate AgreeEnv(a: Json, b: Json) {
    if a.Arr? && b.Arr?
    then |a.items| == |b.items| && forall i :: 0 <= i < |a.items| ==> AgreeEnvItem(a.items[i], b.items[i])
    else a == b
  }

  ghost predicate AgreeField(k: string, a: Json, b: Json)
    decreases a, 1
  {
    Sensitive(k) || if k == ENV then AgreeEnv(a, b) else Agree(a, b)
  }

  /**
    Two documents alike everywhere except in values under sensitive keys and in the values of
    sensitive KEY=value texts of Env arrays.
   */
  ghost predicate Agree(a: Json, b: Json)
    decreases a, 0
  {
    match a
    case Obj(m) => b.Obj? && m.Keys == b.fields.Keys && forall k :: k in m ==> AgreeField(k, m[k], b.fields[k])
    case Arr(xs) => b.Arr? && |xs| == |b.items| && forall i :: 0 <= i < |xs| ==> Agree(xs[i], b.items[i])
    case _ => a == b
  }

  lemma EnvCanonical(a: Json, b: Json)
    ensures MaskEnvValue(a) == MaskEnvValue(b) <==> AgreeEnv(a, b)
  {
    if a.Arr? && b.Arr? {
      var x, y := MaskEnvValue(a).items, MaskEnvValue(b).items;
      forall i | 0 <= i < |a.items| && i < |b.items|
        ensures x[i] == y[i] <==> AgreeEnvItem(a.items[i], b.items[i])
      {
        if a.items[i].Str? && b.items[i].Str? {
          MaskItemCanonical(a.items[i].value, b.items[i].value);
        }
      }
      if x == y { assert |a.items| == |x| == |y| == |b.items|; }
    }
  }

  lemma {:induction false} FieldCanonical(k: string, a: Json, b: Json)
    ensures MaskField(k, a) == MaskField(k, b) <==> AgreeField(k, a, b)
    decreases a, 1
  {
    EnvCanonical(a, b);
    MaskCanonical(a, b);
  }

  /** Masking is a canonical form: it identifies exactly the documents that agree outside the secrets. */
  lemma {:induction false} MaskCanonical(a: Json, b: Json)
    ensures Mask(a) == Mask(b) <==> Agree(a, b)
    decreases a, 0
  {
    match (a, b)
    case (Obj(m), Obj(n)) =>
      var x, y := Mask(a).fields, Mask(b).fields;
      assert x.Keys == m.Keys && y.Keys == n.Keys;
      forall k | k in m && k in n ensures x[k] == y[k] <==> AgreeField(k, m[k], n[k]) {
        FieldCanonical(k, m[k], n[k]);
      }
    case (Arr(xs), Arr(ys)) =>
      var x, y := Mask(a).items, Mask(b).items;
      assert |x| == |xs| && |y| == |ys|;
      forall i | 0 <= i < |xs| && i < |ys| ensures x[i] == y[i] <==> Agree(xs[i], ys[i]) {
        MaskCanonical(xs[i], ys[i]);
      }
    case _ =>
  }

  lemma {:induction false} MaskedAgrees(v: Json)
    ensures Agree(Mask(v), v)
    decreases v
  {
    match v
    case Obj(m) =>
      forall k | k in m ensures AgreeField(k, MaskField(k, m[k]), m[k]) {
        MaskedAgrees(m[k]);
        MaskedEnvAgrees(m[k]);
      }
    case Arr(xs) =>
      forall i | 0 <= i < |xs| ensures Agree(Mask(xs[i]), xs[i]) {
        MaskedAgrees(xs[i]);
      }
    case _ =>
  }

  lemma MaskedEnvAgrees(v: Json)
    ensures AgreeEnv(MaskEnvValue(v), v)
  {
    if v.Arr? {
      forall i | 0 <= i < |v.items| ensures AgreeEnvItem(MaskEnvValue(v).items[i], v.items[i]) {
        if v.items[i].Str? { MaskItemIdempotent(v.items[i].value); }
      }
    }
  }

  /** A masked document differs from its original only in the secrets, and masking again changes nothing. */
  lemma {:induction false} MaskIdempotent(v: Json)
    ensures Agree(Mask(v), v) && Mask(Mask(v)) == Mask(v)
  {
    MaskedAgrees(v);
    MaskCanonical(Mask(v), v);
  }

  // ----- The same along paths -----

  datatype Step = Key(k: string) | Index(i: nat)

  /** The part of a document a path leads to. */
  function At(v: Json, path: seq<Step>): seq<Json> {
    if path == [] then [v]
    else if v.Obj? && path[0].Key? && path[0].k in v.fields then At(v.fields[path[0].k], path[1..])
    else if v.Arr? && path[0].Index? && path[0].i < |v.items| then At(v.items[path[0].i], path[1..])
    else []
  }

  predicate Open(path: seq<Step>) {
    forall i :: 0 <= i < |path| ==> path[i].Key? ==> !Sensitive(path[i].k) && path[i].k != ENV
  }

  /** Along a path without sensitive keys and outside Env, masking commutes with looking. */
  lemma {:induction false} OpenPathsVisible(v: Json, path: seq<Step>)
    requires Open(path)
    ensures At(Mask(v), path) == if At(v, path) == [] then [] else [Mask(At(v, path)[0])]
  {
    if path != [] {
      var s := path[0];
      if v.Obj? && s.Key? && s.k in v.fields {
        OpenPathsVisible(v.fields[s.k], path[1..]);
      } else if v.Arr? && s.Index? && s.i < |v.items| {
        OpenPathsVisible(v.items[s.i], path[1..]);
      }
    }
  }
}
