/**
  How the two layers read the immutable labels from one inspect document: the Server keeps the
  text-valued labels of a decoded document, the Gateway decodes into a typed structure and
  gives up when any label is not a text.
 */
module Inspect {
  import opened Wrappers
  import opened Json
  import opened Policies
  import opened Risk

  const CONFIG := "Config"
  const LABELS := "Labels"
  const NAME := "Name"
  const SYSTEM_LABEL := "dockerview.system"
  const PROTECTED_LABEL := "dockerview.protected"

  /** strings.EqualFold(s, "true"); no other letter folds to t, r, u or e. */
  predicate IsTrue(s: string) {
    |s| == 4 && UpperAscii(s[0]) == 'T' && UpperAscii(s[1]) == 'R' && UpperAscii(s[2]) == 'U' && UpperAscii(s[3]) == 'E'
  }

  function UpperAscii(c: char): char {
    if 'a' <= c <= 'z' then c - 32 as char else c
  }

  function LabelText(labels: map<string, string>, k: string): string {
    if k in labels then labels[k] else ""
  }

  function RawLabels(doc: map<string, Json>): map<string, Json> {
    FieldsAt(FieldsAt(doc, CONFIG), LABELS)
  }

  /** inspectResource on the Server: labels that are not texts are skipped. */
  function ResourceOf(doc: map<string, Json>): Resource {
    var name, raw := StringAt(doc, NAME), RawLabels(doc);
    var labels := map k | k in raw && raw[k].Str? :: raw[k].value;
    Resource(if "/" <= name then name[1..] else name, labels,
             IsTrue(LabelText(labels, SYSTEM_LABEL)), IsTrue(LabelText(labels, PROTECTED_LABEL)))
  }

  // ----- Where each value comes from -----

  /** The word "true" in any case. */
  ghost predicate SaysTrue(s: string) {
    && |s| == 4 && (s[0] == 't' || s[0] == 'T') && (s[1] == 'r' || s[1] == 'R')
    && (s[2] == 'u' || s[2] == 'U') && (s[3] == 'e' || s[3] == 'E')
  }

  /** The label map of the document, Config.Labels, if both are objects. */
  ghost predicate LabelsOf(doc: map<string, Json>, labels: map<string, Json>) {
    exists config :: ObjectOf(doc, "Config", config) && ObjectOf(config, "Labels", labels)
  }

  ghost predicate LabelledTrue(labels: map<string, Json>, k: string) {
    k in labels && labels[k].Str? && SaysTrue(labels[k].value)
  }

  /** Name without its slash, the labels that are texts, and the two immutable labels. */
  ghost predicate ReadAs(doc: map<string, Json>, r: Resource) {
    && (exists name :: TextOf(doc, "Name", name) && r.name == if name != "" && name[0] == '/' then name[1..] else name)
    && exists labels: map<string, Json> :: LabelsOf(doc, labels)
         && (forall k :: k in r.labels <==> k in labels && labels[k].Str?)
         && (forall k :: k in r.labels ==> r.labels[k] == labels[k].value)
         && (r.system <==> LabelledTrue(labels, "dockerview.system"))
         && (r.isProtected <==> LabelledTrue(labels, "dockerview.protected"))
  }

  lemma TrueMeans(s: string)
    ensures IsTrue(s) <==> SaysTrue(s)
  {
  }

  lemma ResourceMeans(doc: map<string, Json>)
    ensures ReadAs(doc, ResourceOf(doc))
  {
    var r, labels, name := ResourceOf(doc), RawLabels(doc), StringAt(doc, NAME);
    assert TextOf(doc, "Name", name);
    assert "/" <= name <==> name != "" && name[0] == '/';
    assert ObjectOf(doc, "Config", FieldsAt(doc, CONFIG)) && LabelsOf(doc, labels);
    forall s ensures IsTrue(s) <==> SaysTrue(s) { TrueMeans(s); }
    assert !IsTrue("");
    hide IsTrue, SaysTrue, RawLabels, LabelsOf;
  }

  /**
    What the Gateway's typed decoder makes of the same path: nothing may be of another type, a null is an
    empty text.
   */
  ghost predicate Decodes(doc: map<string, Json>, labels: map<string, Json>) {
    && LabelsOf(doc, labels)
    && ("Config" in doc ==> doc["Config"].Obj? || doc["Config"].Null?)
    && (forall config: map<string, Json> :: ObjectOf(doc, "Config", config) && "Labels" in config ==>
          config["Labels"].Obj? || config["Labels"].Null?)
    && forall k :: k in labels ==> labels[k].Str? || labels[k].Null?
  }

  ghost predicate DecodedTrue(doc: map<string, Json>, k: string) {
    exists labels: map<string, Json> :: Decodes(doc, labels) && LabelledTrue(labels, k)
  }

  /** The Gateway sees an immutable label exactly if the document decodes and carries it. */
  lemma GatewayMeans(doc: map<string, Json>)
    ensures IsSystem(doc) <==> DecodedTrue(doc, "dockerview.system")
    ensures IsProtected(doc) <==> DecodedTrue(doc, "dockerview.protected")
  {
    EnabledMeans(doc, SYSTEM_LABEL);
    EnabledMeans(doc, PROTECTED_LABEL);
  }

  lemma EnabledMeans(doc: map<string, Json>, key: string)
    ensures HasEnabledLabel(doc, key) <==> DecodedTrue(doc, key)
  {
    var labels := RawLabels(doc);
    DecodesMeans(doc);
    forall s ensures IsTrue(s) <==> SaysTrue(s) { TrueMeans(s); }
    assert !IsTrue("");
    hide IsTrue, SaysTrue;
    if TypedLabels(doc).Some? {
      assert Decodes(doc, labels);
    }
    forall l | Decodes(doc, l) ensures l == labels && TypedLabels(doc).Some? { OnlyLabels(doc, l); }
    hide Decodes;
  }

  lemma OnlyLabels(doc: map<string, Json>, labels: map<string, Json>)
    requires LabelsOf(doc, labels)
    ensures labels == RawLabels(doc)
  {
  }

  lemma DecodesMeans(doc: map<string, Json>)
    ensures TypedLabels(doc).Some? <==> Decodes(doc, RawLabels(doc))
  {
    assert ObjectOf(doc, "Config", FieldsAt(doc, CONFIG));
    assert ObjectOf(FieldsAt(doc, CONFIG), "Labels", RawLabels(doc));
    assert LabelsOf(doc, RawLabels(doc));
  }

  method InspectResource(doc: map<string, Json>) returns (r: Resource)
    ensures r == ResourceOf(doc)
    ensures ReadAs(doc, r)
  {
    ResourceMeans(doc);
    hide ReadAs;
    var name := StringAt(doc, NAME);
    if "/" <= name {
      name := name[1..];
    }
    var labels: map<string, string> := map[];
    var raw := RawLabels(doc);
    var todo := raw.Keys;
    while todo != {}
      invariant todo <= raw.Keys
      invariant labels == map k | k in raw && raw[k].Str? && k !in todo :: raw[k].value
      decreases |todo|
    {
      var k :| k in todo;
      todo := todo - {k};
      if raw[k].Str? {
        labels := labels[k := raw[k].value];
      }
    }
    r := Resource(name, labels, IsTrue(LabelText(labels, SYSTEM_LABEL)), IsTrue(LabelText(labels, PROTECTED_LABEL)));
  }

  /** A value the typed decoder takes for an object: an object, or null, or nothing at all. */
  predicate ObjectLike(m: map<string, Json>, k: string) {
    k in m ==> m[k].Obj? || m[k].Null?
  }

  /** The label map the Gateway decodes, or None when decoding fails. A null label decodes to the empty text. */
  function TypedLabels(doc: map<string, Json>): Option<map<string, string>> {
    var raw := RawLabels(doc);
    if !ObjectLike(doc, CONFIG) || !ObjectLike(FieldsAt(doc, CONFIG), LABELS) then None
    else if exists k :: k in raw && !raw[k].Str? && !raw[k].Null? then None
    else Some(map k | k in raw :: if raw[k].Str? then raw[k].value else "")
  }

  /** hasEnabledLabel on the Gateway: a document that does not decode carries no label. */
  predicate HasEnabledLabel(doc: map<string, Json>, key: string) {
    TypedLabels(doc).Some? && IsTrue(LabelText(TypedLabels(doc).value, key))
  }

  predicate IsSystem(doc: map<string, Json>) { HasEnabledLabel(doc, SYSTEM_LABEL) }
  predicate IsProtected(doc: map<string, Json>) { HasEnabledLabel(doc, PROTECTED_LABEL) }

  /**
    On one document both layers see the same immutable labels exactly when the Server sees none
    or the document decodes: a single label that is not a text hides all labels from the Gateway.
   */
  lemma LayersAgree(doc: map<string, Json>)
    ensures var r := ResourceOf(doc);
            (IsSystem(doc) == r.system && IsProtected(doc) == r.isProtected)
            <==> (TypedLabels(doc).Some? || (!r.system && !r.isProtected))
  {
    var r, t := ResourceOf(doc), TypedLabels(doc);
    if t.Some? {
      SameText(doc, SYSTEM_LABEL);
      SameText(doc, PROTECTED_LABEL);
    }
  }

  lemma SameText(doc: map<string, Json>, k: string)
    requires TypedLabels(doc).Some?
    ensures LabelText(TypedLabels(doc).value, k) == LabelText(ResourceOf(doc).labels, k)
  {
  }

  /** A labelled system container with one more label that is a number: the Server refuses it, the Gateway would not. */
  lemma LayersDisagree()
    ensures exists doc :: ResourceOf(doc).system && !IsSystem(doc)
  {
    var labels := map[SYSTEM_LABEL := Str("true"), "n" := Number("1")];
    var doc := map[CONFIG := Obj(map[LABELS := Obj(labels)])];
    assert FieldsAt(doc, CONFIG) == map[LABELS := Obj(labels)];
    assert RawLabels(doc) == labels;
    assert labels["n"] == Number("1");
    assert ResourceOf(doc).labels[SYSTEM_LABEL] == "true";
    assert ResourceOf(doc).system && !IsSystem(doc);
  }
}
