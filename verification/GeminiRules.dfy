/** What Gemini is promised of a rewritten schema node, told from the fields before and after alone. */
module GeminiRules {
  import opened Sequences
  import opened Json
  import opened GeminiSchema

  predicate Carries(fields: seq<Field>, key: string) {
    exists i :: 0 <= i < |fields| && fields[i].key == key
  }

  predicate Combines(fields: seq<Field>) {
    exists i :: 0 <= i < |fields| && fields[i].value.Arr? && fields[i].key in {"anyOf", "oneOf", "allOf"}
  }

  predicate SchemaKey(key: string) {
    || key == "type" || key == "properties" || key == "items" || key == "prefixItems" || key == "enum"
    || key == "const" || key == "$ref" || key == "additionalProperties" || key == "patternProperties"
    || key == "required" || key == "not" || key == "if" || key == "then" || key == "else"
  }

  predicate SaysNothing(fields: seq<Field>) {
    !Combines(fields) && forall i :: 0 <= i < |fields| ==> !SchemaKey(fields[i].key)
  }

  predicate Falsy(j: Json) {
    j == Null || j == Bool(false) || j == Num(0.0) || j == Str("")
  }

  // ---------- the two vocabularies ----------

  lemma GetIs(fields: seq<Field>, key: string, v: Json)
    requires DistinctKeys(fields)
    ensures Get(fields, key) == Some(v) <==> Field(key, v) in fields
  {
    IndexOfKeyNone(fields, key);
    if Field(key, v) in fields {
      var i :| 0 <= i < |fields| && fields[i] == Field(key, v);
      assert IndexOfKey(fields, key) == Some(i);
    }
  }

  lemma HasIs(fields: seq<Field>, key: string)
    ensures Has(fields, key) <==> Carries(fields, key)
  {
    IndexOfKeyNone(fields, key);
  }

  lemma ArrayUnder(fields: seq<Field>, key: string)
    requires DistinctKeys(fields)
    ensures IsArr(Get(fields, key)) <==> exists i :: 0 <= i < |fields| && fields[i].key == key && fields[i].value.Arr?
  {
    IndexOfKeyNone(fields, key);
    forall i | 0 <= i < |fields| && fields[i].key == key && fields[i].value.Arr? ensures IsArr(Get(fields, key)) {
      GetIs(fields, key, fields[i].value);
    }
  }

  lemma CombinesIs(fields: seq<Field>)
    requires DistinctKeys(fields)
    ensures HasCombiner(fields) <==> Combines(fields)
  {
    ArrayUnder(fields, "anyOf");
    ArrayUnder(fields, "oneOf");
    ArrayUnder(fields, "allOf");
  }

  lemma SaysNothingIs(fields: seq<Field>)
    requires DistinctKeys(fields)
    ensures !HasIntent(fields) <==> SaysNothing(fields)
  {
    CombinesIs(fields);
    forall i | 0 <= i < |fields| && SchemaKey(fields[i].key) ensures HasIntent(fields) {
      HasIs(fields, fields[i].key);
    }
    forall key | SchemaKey(key) && Has(fields, key) ensures !SaysNothing(fields) { HasIs(fields, key); }
  }

  // ---------- the node before and after ----------

  /** `after` is the sanitized form of `before`. */
  ghost predicate Becomes(rt: Runtime, before: seq<Field>, after: seq<Field>) {
    rt.Sane() && WellFormed(Obj(before)) && Sanitize(rt, Obj(before)) == Some(Obj(after))
  }

  lemma AfterIsDistinct(rt: Runtime, before: seq<Field>, after: seq<Field>)
    requires Becomes(rt, before, after)
    ensures DistinctKeys(after)
  {
    SanitizedNormal(rt, Obj(before));
  }

  /** An enumeration becomes the texts of its members, in order. */
  lemma EnumBecomesStrings(rt: Runtime, before: seq<Field>, after: seq<Field>, items: seq<Json>)
    returns (texts: seq<Json>)
    requires Becomes(rt, before, after) && Field("enum", Arr(items)) in before
    ensures Field("enum", Arr(texts)) in after && |texts| == |items|
    ensures forall i :: 0 <= i < |items| ==> texts[i] == Str(rt.text(items[i]))
  {
    texts := Texts(rt, items);
    AfterIsDistinct(rt, before, after);
    GetIs(before, "enum", Arr(items));
    NodeMeaning(rt, before, "enum");
    GetIs(after, "enum", Arr(texts));
  }

  lemma EnumBehind(before: seq<Field>, i: nat)
    requires DistinctKeys(before) && i < |before| && before[i].key == "type"
    ensures EnumAfterType(before)
      <==> exists j :: i < j < |before| && before[j].key == "enum" && before[j].value.Arr?
  {
    EnumAfterTypeIff(before);
    ArrayUnder(before, "enum");
    GetIs(before, "type", before[i].value);
    HasIs(before, "enum");
  }

  /** A textual type stays, but integer and number become string where an array of members follows. */
  lemma TypeOutcome(rt: Runtime, before: seq<Field>, after: seq<Field>, i: nat, kind: string)
    requires Becomes(rt, before, after) && i < |before| && before[i] == Field("type", Str(kind))
    ensures var toString := kind in {"integer", "number"}
        && exists j :: i < j < |before| && before[j].key == "enum" && before[j].value.Arr?;
      Field("type", Str(if toString then "string" else kind)) in after
  {
    AfterIsDistinct(rt, before, after);
    EnumBehind(before, i);
    GetIs(before, "type", Str(kind));
    NodeMeaning(rt, before, "type");
    GetIs(after, "type", Str("string"));
    GetIs(after, "type", Str(kind));
  }

  lemma ItemsAreMissing(rt: Runtime, before: seq<Field>)
    requires CopyFields(rt, before, []).Some? && Get(before, "type") == Some(Str("array")) && !HasCombiner(before)
    requires Get(before, "items") == None || Get(before, "items") == Some(Null)
    ensures CopiedView(rt, before).Items() == Some(Obj([Field("type", Str("string"))]))
  {
    ArrayIsCopied(rt, before);
    assert Sanitize(rt, Null) == Some(Null);
  }

  /** An array without combiner whose items are missing or null gets strings for items. */
  lemma MissingItems(rt: Runtime, before: seq<Field>, after: seq<Field>)
    requires Becomes(rt, before, after) && Field("type", Str("array")) in before && !Combines(before)
    requires !Carries(before, "items") || Field("items", Null) in before
    ensures Field("items", Obj([Field("type", Str("string"))])) in after
  {
    AfterIsDistinct(rt, before, after);
    GetIs(before, "type", Str("array"));
    CombinesIs(before);
    HasIs(before, "items");
    GetIs(before, "items", Null);
    ItemsAreMissing(rt, before);
    NodeMeaning(rt, before, "items");
    GetIs(after, "items", Obj([Field("type", Str("string"))]));
  }

  /** Items that say nothing get the type string; all others stay as sanitized. */
  lemma ItemsOutcome(rt: Runtime, before: seq<Field>, after: seq<Field>, v: Json) returns (s: Json)
    requires Becomes(rt, before, after) && Field("items", v) in before && v != Null
    ensures Sanitize(rt, v) == Some(s)
    ensures var completed := Field("type", Str("array")) in before && !Combines(before)
        && s.Obj? && SaysNothing(s.fields);
      Field("items", if completed then Obj(s.fields + [Field("type", Str("string"))]) else s) in after
  {
    AfterIsDistinct(rt, before, after);
    GetIs(before, "items", v);
    GetIs(before, "type", Str("array"));
    CombinesIs(before);
    NodeMeaning(rt, before, "items");
    CopiedSome(rt, before, "items");
    s := Sanitize(rt, v).value;
    ArrayIsCopied(rt, before);
    if s.Obj? {
      SanitizedNormal(rt, v);
      SaysNothingIs(s.fields);
      if SaysNothing(s.fields) { TypeIsAppended(s.fields); }
    }
    GetIs(after, "items", s);
    if s.Obj? { GetIs(after, "items", Obj(s.fields + [Field("type", Str("string"))])); }
  }

  lemma TypeIsAppended(fields: seq<Field>)
    requires SaysNothing(fields)
    ensures Set(fields, "type", Str("string")) == fields + [Field("type", Str("string"))]
  {
    HasIs(fields, "type");
  }

  lemma ArrayIsCopied(rt: Runtime, before: seq<Field>)
    requires CopyFields(rt, before, []).Some?
    ensures CopiedValue(rt, before, "type") == Some(Str("array")) <==> Get(before, "type") == Some(Str("array"))
  {
    if Has(before, "type") { CopiedSome(rt, before, "type"); }
  }

  /** Typed nodes that are not objects lose both keys; other nodes lose neither. */
  lemma ObjectKeysOutcome(rt: Runtime, before: seq<Field>, after: seq<Field>)
    requires Becomes(rt, before, after)
    ensures var stripped := !Combines(before)
        && exists kind :: Field("type", kind) in before && !Falsy(kind) && kind != Str("object");
      && (Carries(after, "properties") <==> Carries(before, "properties") && !stripped)
      && (Carries(after, "required") <==> Carries(before, "required") && !stripped)
  {
    StripsWhen(before);
    KeySurvives(rt, before, after, "properties");
    KeySurvives(rt, before, after, "required");
  }

  lemma StripsWhen(before: seq<Field>)
    requires DistinctKeys(before)
    ensures Strips(before) <==>
      !Combines(before) && exists kind :: Field("type", kind) in before && !Falsy(kind) && kind != Str("object")
  {
    CombinesIs(before);
    forall kind | Field("type", kind) in before ensures Get(before, "type") == Some(kind) {
      GetIs(before, "type", kind);
    }
    if Has(before, "type") { GetIs(before, "type", Get(before, "type").value); }
  }

  lemma KeySurvives(rt: Runtime, before: seq<Field>, after: seq<Field>, key: string)
    requires Becomes(rt, before, after) && (key == "properties" || key == "required")
    ensures Carries(after, key) <==> Carries(before, key) && !Strips(before)
  {
    HasIs(before, key);
    HasIs(after, key);
    if Has(before, key) {
      PropertySurvivesIff(rt, before, key);
    } else {
      NodeMeaning(rt, before, key);
      CopiedStrips(rt, before);
    }
  }

  function Names(names: seq<string>): (r: seq<Json>)
    ensures |r| == |names| && forall i :: 0 <= i < |r| ==> r[i] == Str(names[i])
  {
    seq(|names|, i requires 0 <= i < |names| => Str(names[i]))
  }

  /** The names that are declared, or that every object has, in order. */
  function Declared(rt: Runtime, properties: seq<Field>, names: seq<string>): seq<string> {
    if names == [] then []
    else
      var rest := Declared(rt, properties, names[1..]);
      if Carries(properties, names[0]) || rt.inherited(names[0]) then [names[0]] + rest else rest
  }

  lemma NamesStay(rt: Runtime, names: seq<string>)
    requires rt.Sane()
    ensures Sanitize(rt, Arr(Names(names))) == Some(Arr(Names(names)))
  {
    SanitizeNormal(rt, Arr(Names(names)));
  }

  lemma NamesCons(n: string, rest: seq<string>)
    ensures Names([n] + rest) == [Str(n)] + Names(rest) && Names([n] + rest)[1..] == Names(rest)
  {
  }

  lemma {:induction false} KeptNames(rt: Runtime, properties: seq<Field>, names: seq<string>)
    requires rt.Sane()
    ensures KeepFound(rt, Obj(properties), Names(names)) == Some(Names(Declared(rt, properties, names)))
  {
    if names == [] {
      assert Names(names) == [] && Names([]) == [];
    } else {
      var n, rest := names[0], names[1..];
      HasIs(properties, n);
      KeptNames(rt, properties, rest);
      HeadTail(names);
      NamesCons(n, rest);
      NamesCons(n, Declared(rt, properties, rest));
      assert [] + Names(Declared(rt, properties, rest)) == Names(Declared(rt, properties, rest));
    }
  }

  lemma ViewFilters(rt: Runtime, v: View, properties: seq<Field>, names: seq<string>)
    requires rt.Sane() && v.kind == Some(Str("object"))
    requires v.properties == Some(Obj(properties)) && v.required == Some(Arr(Names(names)))
    ensures v.Required(rt) == Some(Arr(Names(Declared(rt, properties, names))))
  {
    KeptNames(rt, properties, names);
  }

  /** What was required of an object node with properties and is found among them, in order. */
  lemma RequiredOutcome(
    rt: Runtime, before: seq<Field>, after: seq<Field>, declared: seq<Field>, properties: seq<Field>,
    names: seq<string>)
    requires Becomes(rt, before, after) && Becomes(rt, declared, properties)
    requires Field("type", Str("object")) in before && Field("properties", Obj(declared)) in before
    requires Field("required", Arr(Names(names))) in before
    ensures Field("required", Arr(Names(Declared(rt, properties, names)))) in after
  {
    AfterIsDistinct(rt, before, after);
    GetIs(before, "type", Str("object"));
    GetIs(before, "properties", Obj(declared));
    GetIs(before, "required", Arr(Names(names)));
    NamesStay(rt, names);
    CopiedObject(rt, before);
    ViewFilters(rt, CopiedView(rt, before), properties, names);
    NodeMeaning(rt, before, "required");
    GetIs(after, "required", Arr(Names(Declared(rt, properties, names))));
  }

  /** Every other key keeps its sanitized value, and no key is new but the items of an array. */
  lemma OtherKeysStay(rt: Runtime, before: seq<Field>, after: seq<Field>, key: string, v: Json)
    requires Becomes(rt, before, after) && key !in {"type", "enum", "items", "properties", "required"}
    ensures Field(key, v) in after <==> exists w :: Field(key, w) in before && Sanitize(rt, w) == Some(v)
  {
    AfterIsDistinct(rt, before, after);
    NodeMeaning(rt, before, key);
    GetIs(after, key, v);
    forall w | Field(key, w) in before ensures Get(before, key) == Some(w) { GetIs(before, key, w); }
    if Has(before, key) { GetIs(before, key, Get(before, key).value); }
  }
}
