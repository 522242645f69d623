/** Rewriting JSON schemas for Gemini models. */
module GeminiSchema {
  import opened Sequences
  import opened Json

  /** What the rewriting takes from the JavaScript runtime: the text of a value that has one, property
      names every object inherits, and names found on an array of a given length. */
  datatype Runtime = Runtime(text: Json -> string, inherited: string -> bool, onArray: (nat, string) -> bool) {
    ghost predicate Sane() {
      forall s :: text(Str(s)) == s
    }
  }

  /** Has no text: an object whose own `toString` hides the inherited one, which is data and cannot be
      called, or an array with such an element. Converting it throws. */
  predicate Textless(j: Json)
    decreases j
  {
    match j
    case Obj(fields) => Has(fields, "toString")
    case Arr(items) => exists i :: 0 <= i < |items| && Textless(items[i])
    case _ => false
  }

  predicate AllTextual(items: seq<Json>) {
    forall i :: 0 <= i < |items| ==> !Textless(items[i])
  }

  predicate IsArr(j: Option<Json>) {
    j.Some? && j.value.Arr?
  }

  predicate HasCombiner(fields: seq<Field>) {
    IsArr(Get(fields, "anyOf")) || IsArr(Get(fields, "oneOf")) || IsArr(Get(fields, "allOf"))
  }

  predicate HasIntent(fields: seq<Field>) {
    || HasCombiner(fields)
    || Has(fields, "type") || Has(fields, "properties") || Has(fields, "items") || Has(fields, "prefixItems")
    || Has(fields, "enum") || Has(fields, "const") || Has(fields, "$ref") || Has(fields, "additionalProperties")
    || Has(fields, "patternProperties") || Has(fields, "required") || Has(fields, "not") || Has(fields, "if")
    || Has(fields, "then") || Has(fields, "else")
  }

  predicate Numeric(t: Option<Json>) {
    t == Some(Str("integer")) || t == Some(Str("number"))
  }

  /** `field in properties`; `None` where the operand is not an object, or the name has no text, and
      the program throws. */
  function FoundIn(rt: Runtime, properties: Json, field: Json): Option<bool> {
    if Textless(field) then None
    else match properties
    case Obj(fields) => Some(Has(fields, rt.text(field)) || rt.inherited(rt.text(field)))
    case Arr(items) => Some(rt.onArray(|items|, rt.text(field)))
    case _ => None
  }

  function KeepFound(rt: Runtime, properties: Json, required: seq<Json>): Option<seq<Json>> {
    if required == [] then Some([])
    else
      match FoundIn(rt, properties, required[0])
      case None => None
      case Some(found) =>
        match KeepFound(rt, properties, required[1..])
        case None => None
        case Some(rest) => Some((if found then [required[0]] else []) + rest)
  }

  function Texts(rt: Runtime, items: seq<Json>): (r: seq<Json>)
    ensures |r| == |items| && forall i :: 0 <= i < |r| ==> r[i] == Str(rt.text(items[i]))
  {
    seq(|items|, i requires 0 <= i < |items| => Str(rt.text(items[i])))
  }

  // ---------- the three repairs after the fields are copied ----------

  /** On object nodes, `required` keeps only the fields found in `properties`. */
  function FilterRequired(rt: Runtime, fields: seq<Field>): Option<seq<Field>> {
    var properties, required := Get(fields, "properties"), Get(fields, "required");
    if Get(fields, "type") == Some(Str("object")) && properties.Some? && Truthy(properties.value)
      && IsArr(required) then
      match KeepFound(rt, properties.value, required.value.items)
      case None => None
      case Some(kept) => Some(Set(fields, "required", Arr(kept)))
    else Some(fields)
  }

  /** Array nodes get items, and empty items get a type. */
  function CompleteItems(fields: seq<Field>): seq<Field> {
    if Get(fields, "type") == Some(Str("array")) && !HasCombiner(fields) then
      var items := Get(fields, "items");
      if items.None? || items.value.Null? then Set(fields, "items", Obj([Field("type", Str("string"))]))
      else if items.value.Obj? && !HasIntent(items.value.fields) then
        Set(fields, "items", Obj(Set(items.value.fields, "type", Str("string"))))
      else fields
    else fields
  }

  predicate Strips(fields: seq<Field>) {
    var t := Get(fields, "type");
    t.Some? && Truthy(t.value) && t.value != Str("object") && !HasCombiner(fields)
  }

  /** Typed non-object nodes lose `properties` and `required`. */
  function StripObjectKeys(fields: seq<Field>): seq<Field> {
    if Strips(fields) then Delete(Delete(fields, "properties"), "required") else fields
  }

  function Finish(rt: Runtime, fields: seq<Field>): Option<seq<Field>> {
    match FilterRequired(rt, fields)
    case None => None
    case Some(fs) => Some(StripObjectKeys(CompleteItems(fs)))
  }

  // ---------- sanitizeGemini ----------

  function AddEnum(rt: Runtime, acc: seq<Field>, items: seq<Json>): seq<Field> {
    var r := Set(acc, "enum", Arr(Texts(rt, items)));
    if Numeric(Get(r, "type")) then Set(r, "type", Str("string")) else r
  }

  function Sanitize(rt: Runtime, j: Json): Option<Json>
    decreases j, 1
  {
    match j
    case Arr(items) => (match SanitizeAll(rt, items) case None => None case Some(r) => Some(Arr(r)))
    case Obj(fields) =>
      (match CopyFields(rt, fields, [])
       case None => None
       case Some(acc) => match Finish(rt, acc) case None => None case Some(r) => Some(Obj(r)))
    case _ => Some(j)
  }

  function SanitizeAll(rt: Runtime, items: seq<Json>): Option<seq<Json>>
    decreases items, 0
  {
    if items == [] then Some([])
    else
      match Sanitize(rt, items[0])
      case None => None
      case Some(first) => match SanitizeAll(rt, items[1..]) case None => None case Some(rest) => Some([first] + rest)
  }

  /** The loop over the entries of an object, filling `acc`. */
  function CopyFields(rt: Runtime, fields: seq<Field>, acc: seq<Field>): Option<seq<Field>>
    decreases fields, 0
  {
    if fields == [] then Some(acc)
    else if fields[0].key == "enum" && fields[0].value.Arr? then
      if !AllTextual(fields[0].value.items) then None
      else CopyFields(rt, fields[1..], AddEnum(rt, acc, fields[0].value.items))
    else
      match Sanitize(rt, fields[0].value)
      case None => None
      case Some(v) => CopyFields(rt, fields[1..], Set(acc, fields[0].key, v))
  }

  method SanitizeGemini(rt: Runtime, j: Json) returns (r: Option<Json>)
    ensures r == Sanitize(rt, j)
    decreases j
  {
    match j {
      case Arr(items) =>
        var out: seq<Json> := [];
        assert SanitizeAll(rt, items).Some? ==> out + SanitizeAll(rt, items).value == SanitizeAll(rt, items).value;
        for i := 0 to |items|
          invariant match SanitizeAll(rt, items[i..])
            case None => SanitizeAll(rt, items) == None
            case Some(rest) => SanitizeAll(rt, items) == Some(out + rest)
        {
          assert items[i..][0] == items[i] && items[i..][1..] == items[i + 1..];
          var v := SanitizeGemini(rt, items[i]);
          if v.None? { return None; }
          ghost var rest := SanitizeAll(rt, items[i + 1..]);
          if rest.Some? { Assoc(out, [v.value], rest.value); }
          out := out + [v.value];
        }
        assert out + [] == out;
        return Some(Arr(out));
      case Obj(fields) =>
        var result: seq<Field> := [];
        for i := 0 to |fields|
          invariant CopyFields(rt, fields[i..], result) == CopyFields(rt, fields, [])
        {
          assert fields[i..][0] == fields[i] && fields[i..][1..] == fields[i + 1..];
          if fields[i].key == "enum" && fields[i].value.Arr? {
            if !AllTextual(fields[i].value.items) { return None; }
            result := Set(result, "enum", Arr(Texts(rt, fields[i].value.items)));
            if Numeric(Get(result, "type")) { result := Set(result, "type", Str("string")); }
          } else {
            var v := SanitizeGemini(rt, fields[i].value);
            if v.None? { return None; }
            result := Set(result, fields[i].key, v.value);
          }
        }
        var done := Finish(rt, result);
        return if done.None? then None else Some(Obj(done.value));
      case _ => return Some(j);
    }
  }

  // ---------- normal schemas ----------

  predicate StringsOnly(items: seq<Json>) {
    forall i :: 0 <= i < |items| ==> items[i].Str?
  }

  predicate EnumArray(f: Field) {
    f.key == "enum" && f.value.Arr?
  }

  /** No numeric type stands before an enumeration. */
  predicate NumericAfterEnum(fields: seq<Field>) {
    forall i, j :: 0 <= i < j < |fields| && fields[i].key == "type" && Numeric(Some(fields[i].value)) ==>
        !EnumArray(fields[j])
  }

  predicate AllFound(rt: Runtime, properties: Json, required: seq<Json>) {
    forall i :: 0 <= i < |required| ==> FoundIn(rt, properties, required[i]) == Some(true)
  }

  /** On an object node with properties, everything required is a property. */
  predicate RequiredOk(rt: Runtime, fields: seq<Field>) {
    var properties, required := Get(fields, "properties"), Get(fields, "required");
    Get(fields, "type") == Some(Str("object")) && properties.Some? && Truthy(properties.value) && IsArr(required) ==>
      AllFound(rt, properties.value, required.value.items)
  }

  /** An array node without combiner has items, and object items say something. */
  predicate ItemsOk(fields: seq<Field>) {
    Get(fields, "type") == Some(Str("array")) && !HasCombiner(fields) ==>
      var items := Get(fields, "items");
      items.Some? && !items.value.Null? && (items.value.Obj? ==> HasIntent(items.value.fields))
  }

  /** A typed non-object node without combiner has neither properties nor required. */
  predicate StrippedOk(fields: seq<Field>) {
    Strips(fields) ==> !Has(fields, "properties") && !Has(fields, "required")
  }

  predicate NodeOk(rt: Runtime, fields: seq<Field>) {
    DistinctKeys(fields) && NumericAfterEnum(fields) && RequiredOk(rt, fields) && ItemsOk(fields) && StrippedOk(fields)
  }

  /** Every node of the tree is in order. */
  predicate Normal(rt: Runtime, j: Json)
    decreases j, 1
  {
    match j
    case Arr(items) => forall i :: 0 <= i < |items| ==> Normal(rt, items[i])
    case Obj(fields) => NodeOk(rt, fields) && FieldsNormal(rt, fields)
    case _ => true
  }

  predicate FieldsNormal(rt: Runtime, fields: seq<Field>)
    decreases fields, 0
  {
    forall i :: 0 <= i < |fields| ==>
      if EnumArray(fields[i]) then StringsOnly(fields[i].value.items) else Normal(rt, fields[i].value)
  }

  // ---------- normal schemas are left alone ----------

  lemma {:induction false} KeepAllFound(rt: Runtime, properties: Json, required: seq<Json>)
    requires AllFound(rt, properties, required)
    ensures KeepFound(rt, properties, required) == Some(required)
  {
    if required != [] {
      assert forall i :: 0 <= i < |required[1..]| ==> required[1..][i] == required[i + 1];
      KeepAllFound(rt, properties, required[1..]);
      assert [required[0]] + required[1..] == required;
    }
  }

  lemma SetSame(fields: seq<Field>, key: string)
    requires Has(fields, key)
    ensures Set(fields, key, Get(fields, key).value) == fields
  {
  }

  lemma FinishNormal(rt: Runtime, fields: seq<Field>)
    requires NodeOk(rt, fields)
    ensures Finish(rt, fields) == Some(fields)
  {
    var properties, required := Get(fields, "properties"), Get(fields, "required");
    if Get(fields, "type") == Some(Str("object")) && properties.Some? && Truthy(properties.value) && IsArr(required) {
      KeepAllFound(rt, properties.value, required.value.items);
      SetSame(fields, "required");
    }
    assert FilterRequired(rt, fields) == Some(fields);
    assert CompleteItems(fields) == fields;
    if Strips(fields) { assert Delete(fields, "properties") == fields; }
  }

  lemma {:induction false} SanitizeNormal(rt: Runtime, j: Json)
    requires rt.Sane() && Normal(rt, j)
    ensures Sanitize(rt, j) == Some(j)
    decreases j, 1
  {
    match j
    case Arr(items) => SanitizeAllNormal(rt, items);
    case Obj(fields) =>
      CopyNormal(rt, fields, []);
      assert [] + fields == fields;
      FinishNormal(rt, fields);
    case _ =>
  }

  lemma {:induction false} SanitizeAllNormal(rt: Runtime, items: seq<Json>)
    requires rt.Sane() && forall i :: 0 <= i < |items| ==> Normal(rt, items[i])
    ensures SanitizeAll(rt, items) == Some(items)
    decreases items, 0
  {
    if items != [] {
      SanitizeNormal(rt, items[0]);
      SanitizeAllNormal(rt, items[1..]);
      assert [items[0]] + items[1..] == items;
    }
  }

  lemma SetNew(acc: seq<Field>, f: Field, rest: seq<Field>)
    requires DistinctKeys(acc + [f] + rest)
    ensures Set(acc, f.key, f.value) == acc + [f] && IndexOfKey(acc, f.key).None?
  {
    IndexOfKeyNone(acc, f.key);
    var all := acc + [f] + rest;
    assert all[|acc|] == f;
    assert forall i :: 0 <= i < |acc| ==> all[i] == acc[i];
  }

  lemma {:induction false} CopyNormal(rt: Runtime, fields: seq<Field>, acc: seq<Field>)
    requires rt.Sane() && DistinctKeys(acc + fields) && NumericAfterEnum(acc + fields) && FieldsNormal(rt, fields)
    ensures CopyFields(rt, fields, acc) == Some(acc + fields)
    decreases fields, 0
  {
    if fields == [] {
      assert acc + fields == acc;
    } else {
      var f, rest := fields[0], fields[1..];
      assert acc + fields == acc + [f] + rest;
      SetNew(acc, f, rest);
      if EnumArray(f) {
        assert Texts(rt, f.value.items) == f.value.items;
        EnumKeepsType(rt, acc, f, rest);
      } else {
        SanitizeNormal(rt, f.value);
      }
      CopyNormal(rt, rest, acc + [f]);
    }
  }

  lemma EnumKeepsType(rt: Runtime, acc: seq<Field>, f: Field, rest: seq<Field>)
    requires EnumArray(f) && DistinctKeys(acc + [f] + rest) && NumericAfterEnum(acc + [f] + rest)
    requires Texts(rt, f.value.items) == f.value.items
    ensures AddEnum(rt, acc, f.value.items) == acc + [f]
  {
    SetNew(acc, f, rest);
    var r, all := acc + [f], acc + [f] + rest;
    assert forall i :: 0 <= i < |r| ==> r[i] == all[i];
    var k := IndexOfKey(r, "type");
    if k.Some? {
      assert r[k.value].key == "type" && k.value < |acc|;
      assert all[|acc|] == f;
      assert !Numeric(Some(all[k.value].value));
    }
  }

  // ---------- sanitizing makes normal schemas ----------

  lemma {:induction false} KeepFoundOk(rt: Runtime, properties: Json, required: seq<Json>)
    requires KeepFound(rt, properties, required).Some?
    ensures AllFound(rt, properties, KeepFound(rt, properties, required).value)
    ensures forall x :: x in KeepFound(rt, properties, required).value ==> x in required
    ensures forall x :: x in required && FoundIn(rt, properties, x) == Some(true) ==>
        x in KeepFound(rt, properties, required).value
  {
    if required != [] { KeepFoundOk(rt, properties, required[1..]); }
  }

  /** What the copying loop guarantees. */
  predicate Copied(rt: Runtime, fields: seq<Field>) {
    DistinctKeys(fields) && NumericAfterEnum(fields) && FieldsNormal(rt, fields)
  }

  /** Setting a key that is neither a type nor an enumeration keeps what the copying loop built. */
  lemma SetQuiet(rt: Runtime, fields: seq<Field>, key: string, value: Json)
    requires Copied(rt, fields) && key != "type" && key != "enum" && Normal(rt, value)
    ensures Copied(rt, Set(fields, key, value))
  {
    GetSet(fields, key, value, "type");
    var r := Set(fields, key, value);
    forall i, j | 0 <= i < j < |r| && r[i].key == "type" && Numeric(Some(r[i].value)) ensures !EnumArray(r[j]) {
      assert i < |fields| && r[i] == fields[i];
      assert r[j] == Field(key, value) || (j < |fields| && r[j] == fields[j]);
    }
  }

  lemma DeleteQuiet(rt: Runtime, fields: seq<Field>, key: string)
    requires Copied(rt, fields)
    ensures Copied(rt, Delete(fields, key))
  {
    GetDelete(fields, key, key);
    if Has(fields, key) {
      var k, r := IndexOfKey(fields, key).value, Delete(fields, key);
      assert forall i :: 0 <= i < |r| ==> r[i] == fields[if i < k then i else i + 1];
    }
  }

  /** The node with everything the repairs look at. */
  lemma FilterRequiredOk(rt: Runtime, fields: seq<Field>)
    requires Copied(rt, fields) && FilterRequired(rt, fields).Some?
    ensures var r := FilterRequired(rt, fields).value;
      && Copied(rt, r) && RequiredOk(rt, r) && Get(r, "type") == Get(fields, "type")
      && (Get(fields, "type") != Some(Str("object")) ==> r == fields)
  {
    var properties, required := Get(fields, "properties"), Get(fields, "required");
    if Get(fields, "type") == Some(Str("object")) && properties.Some? && Truthy(properties.value) && IsArr(required) {
      var kept := KeepFound(rt, properties.value, required.value.items).value;
      KeepFoundOk(rt, properties.value, required.value.items);
      var k := IndexOfKey(fields, "required").value;
      assert Normal(rt, fields[k].value);
      assert Normal(rt, Arr(kept)) by {
        forall i | 0 <= i < |kept| ensures Normal(rt, kept[i]) { assert kept[i] in required.value.items; }
      }
      SetQuiet(rt, fields, "required", Arr(kept));
      GetSet(fields, "required", Arr(kept), "type");
      GetSet(fields, "required", Arr(kept), "properties");
    }
  }

  lemma SetKeepsCombiner(fields: seq<Field>, key: string, value: Json)
    requires DistinctKeys(fields) && key != "anyOf" && key != "oneOf" && key != "allOf"
    ensures HasCombiner(Set(fields, key, value)) == HasCombiner(fields)
  {
    GetSet(fields, key, value, "anyOf");
    GetSet(fields, key, value, "oneOf");
    GetSet(fields, key, value, "allOf");
  }

  lemma DeleteKeepsCombiner(fields: seq<Field>, key: string)
    requires DistinctKeys(fields) && key != "anyOf" && key != "oneOf" && key != "allOf"
    ensures HasCombiner(Delete(fields, key)) == HasCombiner(fields)
  {
    GetDelete(fields, key, "anyOf");
    GetDelete(fields, key, "oneOf");
    GetDelete(fields, key, "allOf");
  }

  /** Giving a type to an object that says nothing keeps it normal. */
  lemma TypedItemsNormal(rt: Runtime, fields: seq<Field>)
    requires Copied(rt, fields) && !HasIntent(fields)
    ensures var r := Set(fields, "type", Str("string")); Normal(rt, Obj(r)) && HasIntent(r)
  {
    var r := Set(fields, "type", Str("string"));
    GetSet(fields, "type", Str("string"), "properties");
    GetSet(fields, "type", Str("string"), "required");
    GetSet(fields, "type", Str("string"), "items");
    assert r == fields + [Field("type", Str("string"))];
    IndexOfKeyNone(fields, "type");
    assert forall i :: 0 <= i < |r| && r[i].key == "type" ==> r[i].value == Str("string");
  }

  lemma CompleteItemsOk(rt: Runtime, fields: seq<Field>)
    requires Copied(rt, fields)
    ensures var r := CompleteItems(fields);
      && Copied(rt, r) && ItemsOk(r) && Get(r, "type") == Get(fields, "type") && HasCombiner(r) == HasCombiner(fields)
      && (Get(fields, "type") != Some(Str("array")) ==> r == fields)
  {
    if Get(fields, "type") == Some(Str("array")) && !HasCombiner(fields) {
      var items := Get(fields, "items");
      if items.None? || items.value.Null? {
        assert Set([], "type", Str("string")) == [Field("type", Str("string"))];
        TypedItemsNormal(rt, []);
        SetItems(rt, fields, Set([], "type", Str("string")));
      } else if items.value.Obj? && !HasIntent(items.value.fields) {
        assert Normal(rt, fields[IndexOfKey(fields, "items").value].value);
        TypedItemsNormal(rt, items.value.fields);
        SetItems(rt, fields, Set(items.value.fields, "type", Str("string")));
      }
    }
  }

  lemma SetItems(rt: Runtime, fields: seq<Field>, items: seq<Field>)
    requires Copied(rt, fields) && Normal(rt, Obj(items)) && HasIntent(items)
    ensures var r := Set(fields, "items", Obj(items));
      Copied(rt, r) && Get(r, "items") == Some(Obj(items)) && Get(r, "type") == Get(fields, "type")
        && HasCombiner(r) == HasCombiner(fields)
  {
    SetQuiet(rt, fields, "items", Obj(items));
    GetSet(fields, "items", Obj(items), "type");
    SetKeepsCombiner(fields, "items", Obj(items));
  }

  lemma StripOk(rt: Runtime, fields: seq<Field>)
    requires Copied(rt, fields) && ItemsOk(fields)
    ensures var r := StripObjectKeys(fields);
      && Copied(rt, r) && ItemsOk(r) && StrippedOk(r)
      && (Get(fields, "type") == Some(Str("object")) ==> r == fields) && Get(r, "type") == Get(fields, "type")
  {
    if Strips(fields) {
      var a := Delete(fields, "properties");
      DeleteQuiet(rt, fields, "properties");
      DeleteQuiet(rt, a, "required");
      DeleteKeepsCombiner(fields, "properties");
      DeleteKeepsCombiner(a, "required");
      GetDelete(fields, "properties", "type");
      GetDelete(fields, "properties", "items");
      GetDelete(a, "required", "type");
      GetDelete(a, "required", "items");
      GetDelete(a, "required", "properties");
    }
  }

  lemma FinishOk(rt: Runtime, fields: seq<Field>)
    requires Copied(rt, fields) && Finish(rt, fields).Some?
    ensures Normal(rt, Obj(Finish(rt, fields).value))
  {
    var a := FilterRequired(rt, fields).value;
    FilterRequiredOk(rt, fields);
    CompleteItemsOk(rt, a);
    StripOk(rt, CompleteItems(a));
  }

  lemma {:induction false} SanitizedNormal(rt: Runtime, j: Json)
    requires rt.Sane() && WellFormed(j) && Sanitize(rt, j).Some?
    ensures Normal(rt, Sanitize(rt, j).value)
    decreases j, 1
  {
    match j
    case Arr(items) => SanitizedAllNormal(rt, items);
    case Obj(fields) =>
      assert [] + fields == fields;
      CopiedOk(rt, fields, []);
      FinishOk(rt, CopyFields(rt, fields, []).value);
    case _ =>
  }

  lemma {:induction false} SanitizedAllNormal(rt: Runtime, items: seq<Json>)
    requires rt.Sane() && SanitizeAll(rt, items).Some? && forall i :: 0 <= i < |items| ==> WellFormed(items[i])
    ensures forall i :: 0 <= i < |SanitizeAll(rt, items).value| ==> Normal(rt, SanitizeAll(rt, items).value[i])
    decreases items, 0
  {
    if items != [] {
      SanitizedNormal(rt, items[0]);
      SanitizedAllNormal(rt, items[1..]);
    }
  }

  ghost predicate KeysApart(acc: seq<Field>, fields: seq<Field>) {
    forall i, j :: 0 <= i < |acc| && 0 <= j < |fields| ==> acc[i].key != fields[j].key
  }

  lemma AppendOk(rt: Runtime, acc: seq<Field>, f: Field)
    requires Copied(rt, acc) && IndexOfKey(acc, f.key).None? && !EnumArray(f) && Normal(rt, f.value)
    ensures Set(acc, f.key, f.value) == acc + [f] && Copied(rt, acc + [f])
  {
    IndexOfKeyNone(acc, f.key);
    var r := acc + [f];
    forall i, j | 0 <= i < j < |r| && r[i].key == "type" && Numeric(Some(r[i].value)) ensures !EnumArray(r[j]) {
      if j < |acc| { assert r[i] == acc[i] && r[j] == acc[j]; }
    }
  }

  /** Adding an enumeration turns an earlier numeric type into a string type. */
  lemma AddEnumOk(rt: Runtime, acc: seq<Field>, items: seq<Json>)
    requires Copied(rt, acc) && IndexOfKey(acc, "enum").None?
    ensures var r := AddEnum(rt, acc, items);
      && Copied(rt, r) && |r| == |acc| + 1 && r[|acc|].key == "enum"
      && forall i :: 0 <= i < |acc| ==> r[i].key == acc[i].key
  {
    var f := Field("enum", Arr(Texts(rt, items)));
    var a, r := acc + [f], AddEnum(rt, acc, items);
    IndexOfKeyNone(acc, "enum");
    assert Set(acc, "enum", f.value) == a && DistinctKeys(a);
    forall i | 0 <= i < |r| && r[i].key == "type" ensures !Numeric(Some(r[i].value)) {
      IndexOfKeyAt(a, i);
    }
  }

  lemma {:induction false} CopiedOk(rt: Runtime, fields: seq<Field>, acc: seq<Field>)
    requires rt.Sane() && CopyFields(rt, fields, acc).Some? && Copied(rt, acc)
    requires DistinctKeys(fields) && KeysApart(acc, fields)
    requires forall i :: 0 <= i < |fields| ==> WellFormed(fields[i].value)
    ensures Copied(rt, CopyFields(rt, fields, acc).value)
    decreases fields, 0
  {
    if fields != [] {
      var f, rest := fields[0], fields[1..];
      IndexOfKeyNone(acc, f.key);
      if EnumArray(f) {
        AddEnumOk(rt, acc, f.value.items);
        CopiedOk(rt, rest, AddEnum(rt, acc, f.value.items));
      } else {
        SanitizedNormal(rt, f.value);
        var v := Sanitize(rt, f.value).value;
        assert v.Arr? <==> f.value.Arr?;
        AppendOk(rt, acc, Field(f.key, v));
        CopiedOk(rt, rest, acc + [Field(f.key, v)]);
      }
    }
  }

  /** Sanitizing is idempotent. */
  lemma Idempotent(rt: Runtime, j: Json)
    requires rt.Sane() && WellFormed(j) && Sanitize(rt, j).Some?
    ensures Sanitize(rt, Sanitize(rt, j).value) == Sanitize(rt, j)
  {
    SanitizedNormal(rt, j);
    SanitizeNormal(rt, Sanitize(rt, j).value);
  }

  /** A schema is left unchanged exactly when every node of it is in order. */
  lemma UnchangedIff(rt: Runtime, j: Json)
    requires rt.Sane() && WellFormed(j)
    ensures Sanitize(rt, j) == Some(j) <==> Normal(rt, j)
  {
    if Sanitize(rt, j) == Some(j) { SanitizedNormal(rt, j); }
    if Normal(rt, j) { SanitizeNormal(rt, j); }
  }

  // ---------- what a node keeps ----------

  /** Does an enumeration follow the type? */
  predicate EnumAfterType(fields: seq<Field>) {
    if fields == [] then false
    else if fields[0].key == "type" then IsArr(Get(fields[1..], "enum"))
    else EnumAfterType(fields[1..])
  }

  /** The value a key gets from the copying loop: enumerations as text, a numeric type before an
      enumeration as string type, everything else sanitized. */
  ghost function CopiedValue(rt: Runtime, fields: seq<Field>, key: string): Option<Json> {
    match Get(fields, key)
    case None => None
    case Some(v) =>
      if key == "enum" && v.Arr? then Some(Arr(Texts(rt, v.items)))
      else if key == "type" && Numeric(Some(v)) && EnumAfterType(fields) then Some(Str("string"))
      else Sanitize(rt, v)
  }

  lemma GetHead(fields: seq<Field>, key: string)
    requires fields != [] && DistinctKeys(fields)
    ensures Get(fields, key) == if fields[0].key == key then Some(fields[0].value) else Get(fields[1..], key)
    ensures fields[0].key == key ==> Get(fields[1..], key) == None
  {
    IndexOfKeyNone(fields[1..], key);
  }

  lemma AddEnumKeys(rt: Runtime, acc: seq<Field>, items: seq<Json>, key: string)
    requires DistinctKeys(acc) && IndexOfKey(acc, "enum").None?
    ensures var r := AddEnum(rt, acc, items);
      && DistinctKeys(r) && |r| == |acc| + 1 && r[|acc|].key == "enum"
      && (forall i :: 0 <= i < |acc| ==> r[i].key == acc[i].key)
      && Get(r, "enum") == Some(Arr(Texts(rt, items)))
      && (key != "enum" && key != "type" ==> Get(r, key) == Get(acc, key))
      && Get(r, "type") == if Numeric(Get(acc, "type")) then Some(Str("string")) else Get(acc, "type")
  {
    var f := Field("enum", Arr(Texts(rt, items)));
    var a := acc + [f];
    assert Set(acc, "enum", f.value) == a;
    GetSet(acc, "enum", f.value, key);
    GetSet(acc, "enum", f.value, "type");
    GetSet(a, "type", Str("string"), key);
    GetSet(a, "type", Str("string"), "enum");
  }

  /** The accumulated fields after one more entry. */
  function Next(rt: Runtime, acc: seq<Field>, f: Field): seq<Field>
    requires EnumArray(f) || Sanitize(rt, f.value).Some?
  {
    if EnumArray(f) then AddEnum(rt, acc, f.value.items) else Set(acc, f.key, Sanitize(rt, f.value).value)
  }

  lemma CopyStep(rt: Runtime, fields: seq<Field>, acc: seq<Field>)
    requires fields != [] && CopyFields(rt, fields, acc).Some?
    ensures EnumArray(fields[0]) || Sanitize(rt, fields[0].value).Some?
    ensures CopyFields(rt, fields, acc) == CopyFields(rt, fields[1..], Next(rt, acc, fields[0]))
  {
  }

  /** One more entry keeps the keys apart, and touches the type only with its own value or, if it is
      an enumeration that meets a numeric type, with the string type. */
  lemma NextType(rt: Runtime, fields: seq<Field>, acc: seq<Field>, next: seq<Field>)
    requires fields != [] && DistinctKeys(acc) && DistinctKeys(fields) && KeysApart(acc, fields)
    requires (EnumArray(fields[0]) || Sanitize(rt, fields[0].value).Some?) && next == Next(rt, acc, fields[0])
    ensures DistinctKeys(next) && DistinctKeys(fields[1..]) && KeysApart(next, fields[1..])
    ensures Get(next, "type")
         == if fields[0].key == "type" then Sanitize(rt, fields[0].value)
            else if EnumArray(fields[0]) && Numeric(Get(acc, "type")) then Some(Str("string"))
            else Get(acc, "type")
  {
    var f := fields[0];
    IndexOfKeyNone(acc, f.key);
    if EnumArray(f) {
      AddEnumKeys(rt, acc, f.value.items, "type");
    } else {
      GetSet(acc, f.key, Sanitize(rt, f.value).value, "type");
    }
  }

  /** One more entry touches no key but its own and the type. */
  lemma NextGet(rt: Runtime, fields: seq<Field>, acc: seq<Field>, next: seq<Field>, key: string)
    requires fields != [] && DistinctKeys(acc) && DistinctKeys(fields) && KeysApart(acc, fields) && key != "type"
    requires (EnumArray(fields[0]) || Sanitize(rt, fields[0].value).Some?) && next == Next(rt, acc, fields[0])
    ensures Get(next, key) == if fields[0].key == key then CopiedValue(rt, fields, key) else Get(acc, key)
  {
    var f := fields[0];
    GetHead(fields, key);
    IndexOfKeyNone(acc, f.key);
    if EnumArray(f) {
      AddEnumKeys(rt, acc, f.value.items, key);
    } else {
      GetSet(acc, f.key, Sanitize(rt, f.value).value, key);
    }
  }

  /** Keys other than the type: what the loop stores for them. */
  lemma {:induction false} CopyGet(rt: Runtime, fields: seq<Field>, acc: seq<Field>, key: string)
    requires CopyFields(rt, fields, acc).Some? && key != "type"
    requires DistinctKeys(acc) && DistinctKeys(fields) && KeysApart(acc, fields)
    ensures Get(CopyFields(rt, fields, acc).value, key)
         == if Has(fields, key) then CopiedValue(rt, fields, key) else Get(acc, key)
    decreases |fields|
  {
    if fields != [] {
      CopyStep(rt, fields, acc);
      var next := Next(rt, acc, fields[0]);
      NextType(rt, fields, acc, next);
      NextGet(rt, fields, acc, next, key);
      GetHead(fields, key);
      CopyGet(rt, fields[1..], next, key);
    }
  }

  /** The type: kept, unless it is numeric when an enumeration arrives. */
  lemma {:induction false} CopyType(rt: Runtime, fields: seq<Field>, acc: seq<Field>)
    requires CopyFields(rt, fields, acc).Some? && DistinctKeys(acc) && DistinctKeys(fields) && KeysApart(acc, fields)
    requires Has(acc, "type") && !Has(fields, "type")
    ensures Get(CopyFields(rt, fields, acc).value, "type")
         == if Numeric(Get(acc, "type")) && IsArr(Get(fields, "enum")) then Some(Str("string")) else Get(acc, "type")
    decreases |fields|
  {
    if fields != [] {
      CopyStep(rt, fields, acc);
      var next := Next(rt, acc, fields[0]);
      NextType(rt, fields, acc, next);
      GetHead(fields, "type");
      GetHead(fields, "enum");
      CopyType(rt, fields[1..], next);
    }
  }

  lemma CopiedTail(rt: Runtime, fields: seq<Field>)
    requires fields != [] && DistinctKeys(fields) && fields[0].key != "type"
    ensures CopiedValue(rt, fields, "type") == CopiedValue(rt, fields[1..], "type")
  {
    GetHead(fields, "type");
  }

  lemma {:induction false} CopyTypeMeaning(rt: Runtime, fields: seq<Field>, acc: seq<Field>)
    requires CopyFields(rt, fields, acc).Some? && DistinctKeys(acc) && DistinctKeys(fields) && KeysApart(acc, fields)
    requires !Has(acc, "type")
    ensures Get(CopyFields(rt, fields, acc).value, "type") == CopiedValue(rt, fields, "type")
    decreases |fields|
  {
    if fields != [] {
      CopyStep(rt, fields, acc);
      var next := Next(rt, acc, fields[0]);
      NextType(rt, fields, acc, next);
      if fields[0].key == "type" {
        GetHead(fields, "type");
        CopyType(rt, fields[1..], next);
      } else {
        CopiedTail(rt, fields);
        CopyTypeMeaning(rt, fields[1..], next);
      }
    }
  }

  /** What the repairs look at in a node. */
  datatype View = View(
    kind: Option<Json>, properties: Option<Json>, required: Option<Json>, items: Option<Json>, combined: bool)
  {
    predicate Strips() {
      kind.Some? && Truthy(kind.value) && kind.value != Str("object") && !combined
    }

    predicate Filters() {
      kind == Some(Str("object")) && properties.Some? && Truthy(properties.value) && IsArr(required)
    }

    predicate Completes() {
      kind == Some(Str("array")) && !combined
    }

    /** The items of an array node: never missing, null or without any intent. */
    function Items(): Option<Json> {
      if !Completes() then items
      else if items.None? || items.value.Null? then Some(Obj([Field("type", Str("string"))]))
      else if items.value.Obj? && !HasIntent(items.value.fields) then
        Some(Obj(Set(items.value.fields, "type", Str("string"))))
      else items
    }

    /** What is still required: nothing on a stripped node, on an object node with properties what
        is found among them. */
    function Required(rt: Runtime): Option<Json> {
      if Strips() then None
      else if !Filters() then required
      else
        match KeepFound(rt, properties.value, required.value.items)
        case None => None
        case Some(kept) => Some(Arr(kept))
    }

    /** The value of a key after the repairs, if `own` is its value before. */
    function Final(rt: Runtime, key: string, own: Option<Json>): Option<Json> {
      if key == "properties" then (if Strips() then None else properties)
      else if key == "required" then Required(rt)
      else if key == "items" then Items()
      else own
    }
  }

  function ViewOf(fields: seq<Field>): View {
    View(Get(fields, "type"), Get(fields, "properties"), Get(fields, "required"), Get(fields, "items"),
         HasCombiner(fields))
  }

  lemma FilterRequiredGet(rt: Runtime, fields: seq<Field>, key: string)
    requires DistinctKeys(fields) && FilterRequired(rt, fields).Some?
    ensures var r, v := FilterRequired(rt, fields).value, ViewOf(fields);
      && DistinctKeys(r)
      && Get(r, key) == (if key == "required" && v.Filters() then v.Required(rt) else Get(fields, key))
  {
    var v := ViewOf(fields);
    if v.Filters() {
      var kept := Arr(KeepFound(rt, v.properties.value, v.required.value.items).value);
      GetSet(fields, "required", kept, key);
    }
  }

  lemma CompleteItemsGet(fields: seq<Field>, key: string)
    requires DistinctKeys(fields)
    ensures var r := CompleteItems(fields);
      DistinctKeys(r) && Get(r, key) == if key == "items" then ViewOf(fields).Items() else Get(fields, key)
  {
    var v := ViewOf(fields);
    if v.Items().Some? { GetSet(fields, "items", v.Items().value, key); }
  }

  lemma StripGet(fields: seq<Field>, key: string)
    requires DistinctKeys(fields)
    ensures Get(StripObjectKeys(fields), key)
         == if Strips(fields) && (key == "properties" || key == "required") then None else Get(fields, key)
  {
    var c := Delete(fields, "properties");
    GetDelete(fields, "properties", key);
    GetDelete(c, "required", key);
  }

  lemma CombinerGet(a: seq<Field>, b: seq<Field>)
    requires Get(a, "anyOf") == Get(b, "anyOf") && Get(a, "oneOf") == Get(b, "oneOf")
    requires Get(a, "allOf") == Get(b, "allOf")
    ensures HasCombiner(a) == HasCombiner(b)
  {
  }

  lemma FilterRequiredView(rt: Runtime, fields: seq<Field>)
    requires DistinctKeys(fields) && FilterRequired(rt, fields).Some?
    ensures var r, v := FilterRequired(rt, fields).value, ViewOf(fields);
      DistinctKeys(r) && ViewOf(r) == v.(required := if v.Filters() then v.Required(rt) else v.required)
  {
    FilterRequiredGet(rt, fields, "type");
    FilterRequiredGet(rt, fields, "properties");
    FilterRequiredGet(rt, fields, "required");
    FilterRequiredGet(rt, fields, "items");
    FilterRequiredGet(rt, fields, "anyOf");
    FilterRequiredGet(rt, fields, "oneOf");
    FilterRequiredGet(rt, fields, "allOf");
    CombinerGet(FilterRequired(rt, fields).value, fields);
  }

  lemma CompleteItemsStrips(fields: seq<Field>)
    requires DistinctKeys(fields)
    ensures DistinctKeys(CompleteItems(fields)) && Strips(CompleteItems(fields)) == Strips(fields)
  {
    CompleteItemsGet(fields, "type");
    CompleteItemsGet(fields, "anyOf");
    CompleteItemsGet(fields, "oneOf");
    CompleteItemsGet(fields, "allOf");
    CombinerGet(CompleteItems(fields), fields);
  }

  /** What every key of a node is after the repairs. */
  lemma FinishGet(rt: Runtime, fields: seq<Field>, key: string)
    requires DistinctKeys(fields) && Finish(rt, fields).Some?
    ensures Get(Finish(rt, fields).value, key) == ViewOf(fields).Final(rt, key, Get(fields, key))
  {
    var a := FilterRequired(rt, fields).value;
    FilterRequiredView(rt, fields);
    FilterRequiredGet(rt, fields, key);
    CompleteItemsGet(a, key);
    CompleteItemsStrips(a);
    StripGet(CompleteItems(a), key);
  }

  /** A node as the copying loop sees it. */
  ghost function CopiedView(rt: Runtime, fields: seq<Field>): View {
    View(CopiedValue(rt, fields, "type"), CopiedValue(rt, fields, "properties"), CopiedValue(rt, fields, "required"),
         CopiedValue(rt, fields, "items"), HasCombiner(fields))
  }

  lemma CopyArr(rt: Runtime, fields: seq<Field>, acc: seq<Field>, key: string)
    requires CopyFields(rt, fields, []) == Some(acc) && DistinctKeys(fields) && key != "type" && key != "enum"
    ensures IsArr(Get(acc, key)) == IsArr(Get(fields, key))
  {
    CopyGet(rt, fields, [], key);
    if Has(fields, key) { CopySome(rt, fields, [], IndexOfKey(fields, key).value); }
  }

  lemma {:induction false} CopySome(rt: Runtime, fields: seq<Field>, acc: seq<Field>, i: nat)
    requires CopyFields(rt, fields, acc).Some? && i < |fields|
    ensures EnumArray(fields[i]) || Sanitize(rt, fields[i].value).Some?
    decreases |fields|
  {
    if i > 0 {
      if EnumArray(fields[0]) {
        CopySome(rt, fields[1..], AddEnum(rt, acc, fields[0].value.items), i - 1);
      } else {
        CopySome(rt, fields[1..], Set(acc, fields[0].key, Sanitize(rt, fields[0].value).value), i - 1);
      }
    }
  }

  lemma CopiedViewOk(rt: Runtime, fields: seq<Field>, acc: seq<Field>)
    requires CopyFields(rt, fields, []) == Some(acc) && DistinctKeys(fields)
    ensures ViewOf(acc) == CopiedView(rt, fields)
  {
    CopyTypeMeaning(rt, fields, []);
    CopyGet(rt, fields, [], "properties");
    CopyGet(rt, fields, [], "required");
    CopyGet(rt, fields, [], "items");
    CopyArr(rt, fields, acc, "anyOf");
    CopyArr(rt, fields, acc, "oneOf");
    CopyArr(rt, fields, acc, "allOf");
  }

  /** What becomes of every key of every node: each ends with its copied value, but for `items` on
      an array node, and for `properties` and `required`, which a typed non-object node loses and of
      which an object node with properties keeps required what is found among them. */
  lemma NodeMeaning(rt: Runtime, fields: seq<Field>, key: string)
    requires DistinctKeys(fields) && Sanitize(rt, Obj(fields)).Some?
    ensures Sanitize(rt, Obj(fields)).value.Obj?
    ensures Get(Sanitize(rt, Obj(fields)).value.fields, key)
         == CopiedView(rt, fields).Final(rt, key, CopiedValue(rt, fields, key))
  {
    var acc := CopyFields(rt, fields, []).value;
    CopyKeysDistinct(rt, fields, []);
    CopiedViewOk(rt, fields, acc);
    FinishGet(rt, acc, key);
    if key == "type" { CopyTypeMeaning(rt, fields, []); } else { CopyGet(rt, fields, [], key); }
  }

  lemma CopiedStrips(rt: Runtime, fields: seq<Field>)
    requires DistinctKeys(fields) && CopyFields(rt, fields, []).Some?
    ensures CopiedView(rt, fields).Strips() == Strips(fields)
  {
    CopiedObject(rt, fields);
    CopiedTruth(rt, fields);
  }

  lemma CopiedTruth(rt: Runtime, fields: seq<Field>)
    requires CopyFields(rt, fields, []).Some?
    ensures CopiedValue(rt, fields, "type").Some? == Has(fields, "type")
    ensures Has(fields, "type") ==>
      Truthy(CopiedValue(rt, fields, "type").value) == Truthy(Get(fields, "type").value)
  {
    if Has(fields, "type") {
      CopiedSome(rt, fields, "type");
      SanitizedAlike(rt, Get(fields, "type").value);
    }
  }

  // ---------- numeric enumerations ----------

  lemma {:induction false} EnumAfterTypeIff(fields: seq<Field>)
    requires DistinctKeys(fields)
    ensures EnumAfterType(fields) <==>
      && Has(fields, "type") && IsArr(Get(fields, "enum"))
      && IndexOfKey(fields, "type").value < IndexOfKey(fields, "enum").value
  {
    if fields != [] {
      EnumAfterTypeIff(fields[1..]);
      GetHead(fields, "type");
      GetHead(fields, "enum");
    }
  }

  /** Gemini takes enumerations of strings only, so a numeric type should not stay beside one. It does
      exactly when it stands behind the enumeration. */
  lemma NumericEnumIff(rt: Runtime, fields: seq<Field>)
    requires DistinctKeys(fields) && Sanitize(rt, Obj(fields)).Some?
    ensures Sanitize(rt, Obj(fields)).value.Obj?
    ensures var r := Sanitize(rt, Obj(fields)).value.fields;
      IsArr(Get(r, "enum")) && Numeric(Get(r, "type")) <==>
        && IsArr(Get(fields, "enum")) && Numeric(Get(fields, "type"))
        && IndexOfKey(fields, "enum").value < IndexOfKey(fields, "type").value
  {
    NodeMeaning(rt, fields, "enum");
    NodeMeaning(rt, fields, "type");
    EnumAfterTypeIff(fields);
    CopiedNumeric(rt, fields);
    CopiedEnum(rt, fields);
  }

  lemma CopiedNumeric(rt: Runtime, fields: seq<Field>)
    requires CopyFields(rt, fields, []).Some?
    ensures Numeric(CopiedValue(rt, fields, "type")) <==> Numeric(Get(fields, "type")) && !EnumAfterType(fields)
  {
    if Has(fields, "type") { CopySome(rt, fields, [], IndexOfKey(fields, "type").value); }
  }

  lemma CopiedEnum(rt: Runtime, fields: seq<Field>)
    requires CopyFields(rt, fields, []).Some?
    ensures IsArr(CopiedValue(rt, fields, "enum")) <==> IsArr(Get(fields, "enum"))
  {
    if Has(fields, "enum") { CopySome(rt, fields, [], IndexOfKey(fields, "enum").value); }
  }

  const ENUM_BEFORE_TYPE := [Field("enum", Arr([Num(1.0)])), Field("type", Str("integer"))]

  /** The enumeration of the integer 1, with its type behind it, comes out as strings of type integer. */
  lemma NumericEnumStays(rt: Runtime)
    ensures var r := Sanitize(rt, Obj(ENUM_BEFORE_TYPE));
      && r.Some? && r.value.Obj? && Get(r.value.fields, "type") == Some(Str("integer"))
      && Get(r.value.fields, "enum") == Some(Arr([Str(rt.text(Num(1.0)))]))
  {
    var fs := ENUM_BEFORE_TYPE;
    assert IndexOfKey(fs[1..], "type") == Some(0);
    assert IndexOfKey(fs, "type") == Some(1) && IndexOfKey(fs, "enum") == Some(0);
    forall i | 0 <= i < |fs| ensures WellFormed(fs[i].value) && !FieldThrows(fs[i]) { }
    ThrowsIff(rt, Obj(fs));
    NodeMeaning(rt, fs, "enum");
    NodeMeaning(rt, fs, "type");
    EnumAfterTypeIff(fs);
    assert Texts(rt, [Num(1.0)]) == [Str(rt.text(Num(1.0)))];
  }

  // ---------- properties that are lost ----------

  /** The sanitizer treats a map of properties as a node of its own. So a declared property survives
      exactly unless it is called `properties` or `required` and the map also declares a `type` that
      is true and not the word object, and no combiner. */
  lemma PropertySurvivesIff(rt: Runtime, declared: seq<Field>, name: string)
    requires DistinctKeys(declared) && Sanitize(rt, Obj(declared)).Some? && Has(declared, name)
    ensures Sanitize(rt, Obj(declared)).value.Obj?
    ensures Has(Sanitize(rt, Obj(declared)).value.fields, name) <==>
      !(Strips(declared) && (name == "properties" || name == "required"))
  {
    NodeMeaning(rt, declared, name);
    CopiedStrips(rt, declared);
    CopySome(rt, declared, [], IndexOfKey(declared, name).value);
    var v := CopiedView(rt, declared);
    assert CopiedValue(rt, declared, name).Some?;
    if name == "required" && v.Filters() { FinishFilters(rt, declared); }
  }

  lemma FinishFilters(rt: Runtime, fields: seq<Field>)
    requires DistinctKeys(fields) && Sanitize(rt, Obj(fields)).Some? && CopiedView(rt, fields).Filters()
    ensures var v := CopiedView(rt, fields); KeepFound(rt, v.properties.value, v.required.value.items).Some?
  {
    CopiedViewOk(rt, fields, CopyFields(rt, fields, []).value);
  }

  /** On an object node the properties that come out are those of the map, sanitized as a node. */
  lemma ObjectProperties(rt: Runtime, fields: seq<Field>, declared: seq<Field>)
    requires DistinctKeys(fields) && Sanitize(rt, Obj(fields)).Some?
    requires Get(fields, "type") == Some(Str("object")) && Get(fields, "properties") == Some(Obj(declared))
    ensures Sanitize(rt, Obj(fields)).value.Obj?
    ensures Get(Sanitize(rt, Obj(fields)).value.fields, "properties") == Sanitize(rt, Obj(declared))
  {
    NodeMeaning(rt, fields, "properties");
    CopiedStrips(rt, fields);
  }

  const TYPE_AND_REQUIRED := [
    Field("type", Obj([Field("type", Str("string"))])), Field("required", Obj([Field("type", Str("boolean"))]))]

  /** A tool with parameters called `type` and `required` loses the second. */
  lemma RequiredParameterLost(rt: Runtime)
    ensures var r := Sanitize(rt, Obj(TYPE_AND_REQUIRED));
      r.Some? && r.value.Obj? && Has(r.value.fields, "type") && !Has(r.value.fields, "required")
  {
    var fs := TYPE_AND_REQUIRED;
    assert IndexOfKey(fs[1..], "required") == Some(0) && IndexOfKey(fs, "required") == Some(1);
    assert IndexOfKey(fs, "type") == Some(0);
    MapIsQuiet(rt);
    PropertySurvivesIff(rt, fs, "type");
    PropertySurvivesIff(rt, fs, "required");
  }

  lemma MapIsQuiet(rt: Runtime)
    ensures Sanitize(rt, Obj(TYPE_AND_REQUIRED)).Some? && Strips(TYPE_AND_REQUIRED)
  {
    var fs := TYPE_AND_REQUIRED;
    assert Get(fs, "type") == Some(fs[0].value);
    assert !Has(fs, "anyOf") && !Has(fs, "oneOf") && !Has(fs, "allOf");
    forall i | 0 <= i < |fs| ensures WellFormed(fs[i].value) && !FieldThrows(fs[i]) { }
    ThrowsIff(rt, Obj(fs));
  }

  lemma {:induction false} CopyKeysDistinct(rt: Runtime, fields: seq<Field>, acc: seq<Field>)
    requires CopyFields(rt, fields, acc).Some? && DistinctKeys(acc) && DistinctKeys(fields) && KeysApart(acc, fields)
    ensures DistinctKeys(CopyFields(rt, fields, acc).value)
    decreases |fields|
  {
    if fields != [] {
      var f, rest := fields[0], fields[1..];
      IndexOfKeyNone(acc, f.key);
      if EnumArray(f) {
        AddEnumKeys(rt, acc, f.value.items, "type");
        CopyKeysDistinct(rt, rest, AddEnum(rt, acc, f.value.items));
      } else {
        var v := Sanitize(rt, f.value).value;
        GetSet(acc, f.key, v, "type");
        CopyKeysDistinct(rt, rest, Set(acc, f.key, v));
      }
    }
  }

  // ---------- when sanitizing throws ----------

  /** An object node whose membership tests throw: it requires something although its properties are a
      bare true value, or it requires something that has no text. */
  predicate BadRequired(fields: seq<Field>) {
    var properties, required := Get(fields, "properties"), Get(fields, "required");
    && Get(fields, "type") == Some(Str("object"))
    && properties.Some? && Truthy(properties.value) && IsArr(required)
    && if properties.value.Obj? || properties.value.Arr? then !AllTextual(required.value.items)
       else required.value.items != []
  }

  /** Some node outside the enumerations has bad requirements, or an enumeration of something that has
      no text. */
  predicate Throws(j: Json)
    decreases j, 1
  {
    match j
    case Arr(items) => exists i :: 0 <= i < |items| && Throws(items[i])
    case Obj(fields) => BadRequired(fields) || exists i :: 0 <= i < |fields| && FieldThrows(fields[i])
    case _ => false
  }

  predicate FieldThrows(f: Field)
    decreases f, 0
  {
    if EnumArray(f) then !AllTextual(f.value.items) else Throws(f.value)
  }

  lemma {:induction false} KeepFoundThrows(rt: Runtime, properties: Json, required: seq<Json>)
    ensures KeepFound(rt, properties, required).None? <==>
      if properties.Obj? || properties.Arr? then !AllTextual(required) else required != []
  {
    if required != [] {
      KeepFoundThrows(rt, properties, required[1..]);
      assert AllTextual(required) <==> !Textless(required[0]) && AllTextual(required[1..]) by {
        assert required == [required[0]] + required[1..];
      }
    }
  }

  /** Sanitizing does not change whether a value has a text. */
  lemma {:induction false} SanitizedTextless(rt: Runtime, j: Json)
    requires WellFormed(j) && Sanitize(rt, j).Some?
    ensures Textless(Sanitize(rt, j).value) <==> Textless(j)
    decreases j
  {
    match j
    case Arr(items) => SanitizedTextual(rt, items);
    case Obj(fields) =>
      NodeMeaning(rt, fields, "toString");
      if Has(fields, "toString") { CopySome(rt, fields, [], IndexOfKey(fields, "toString").value); }
    case _ =>
  }

  lemma {:induction false} SanitizedTextual(rt: Runtime, items: seq<Json>)
    requires (forall i :: 0 <= i < |items| ==> WellFormed(items[i])) && SanitizeAll(rt, items).Some?
    ensures AllTextual(SanitizeAll(rt, items).value) <==> AllTextual(items)
    ensures |SanitizeAll(rt, items).value| == |items|
    decreases items
  {
    if items != [] {
      var first, rest := Sanitize(rt, items[0]).value, SanitizeAll(rt, items[1..]).value;
      SanitizedTextless(rt, items[0]);
      SanitizedTextual(rt, items[1..]);
      TextualCons(items[0], items[1..]);
      TextualCons(first, rest);
      HeadTail(items);
    }
  }

  lemma TextualCons(x: Json, rest: seq<Json>)
    ensures AllTextual([x] + rest) <==> !Textless(x) && AllTextual(rest)
  {
    var all := [x] + rest;
    assert all[0] == x && forall i :: 0 <= i < |rest| ==> all[i + 1] == rest[i];
  }

  /** Sanitizing throws exactly on the trees with a node of bad requirements or an enumeration that has
      no text. */
  lemma {:induction false} ThrowsIff(rt: Runtime, j: Json)
    requires WellFormed(j)
    ensures Sanitize(rt, j).None? <==> Throws(j)
    decreases j, 1
  {
    match j
    case Arr(items) => ThrowsAllIff(rt, items);
    case Obj(fields) =>
      CopyThrowsIff(rt, fields, []);
      if CopyFields(rt, fields, []).Some? {
        CopiedViewOk(rt, fields, CopyFields(rt, fields, []).value);
        RepairThrows(rt, fields, CopyFields(rt, fields, []).value);
      }
    case _ =>
  }

  lemma CopiedSome(rt: Runtime, fields: seq<Field>, key: string)
    requires CopyFields(rt, fields, []).Some? && Has(fields, key)
    ensures CopiedValue(rt, fields, key).Some?
  {
    CopySome(rt, fields, [], IndexOfKey(fields, key).value);
  }

  lemma RepairThrows(rt: Runtime, fields: seq<Field>, acc: seq<Field>)
    requires CopyFields(rt, fields, []) == Some(acc) && ViewOf(acc) == CopiedView(rt, fields)
    requires forall i :: 0 <= i < |fields| ==> WellFormed(fields[i].value)
    ensures Finish(rt, acc).None? <==> BadRequired(fields)
  {
    var properties, required := Get(acc, "properties"), Get(acc, "required");
    if properties.Some? && IsArr(required) {
      KeepFoundThrows(rt, properties.value, required.value.items);
    }
    CopiedAlike(rt, fields, "properties");
    CopiedAlike(rt, fields, "required");
    CopiedObject(rt, fields);
    if IsArr(Get(fields, "required")) {
      SanitizedTextual(rt, Get(fields, "required").value.items);
    }
  }

  /** Copying keeps whether there is a value, its truth and its kind. */
  predicate Alike(a: Option<Json>, b: Option<Json>) {
    if a.None? || b.None? then a == b
    else a.value.Obj? == b.value.Obj? && a.value.Arr? == b.value.Arr? && Truthy(a.value) == Truthy(b.value)
  }

  lemma SanitizedAlike(rt: Runtime, j: Json)
    requires Sanitize(rt, j).Some?
    ensures Alike(Some(j), Sanitize(rt, j))
  {
  }

  lemma CopiedAlike(rt: Runtime, fields: seq<Field>, key: string)
    requires CopyFields(rt, fields, []).Some? && key != "enum" && key != "type"
    ensures Alike(Get(fields, key), CopiedValue(rt, fields, key))
  {
    if Has(fields, key) {
      CopiedSome(rt, fields, key);
      SanitizedAlike(rt, Get(fields, key).value);
    }
  }

  lemma CopiedObject(rt: Runtime, fields: seq<Field>)
    requires CopyFields(rt, fields, []).Some?
    ensures CopiedValue(rt, fields, "type") == Some(Str("object")) <==> Get(fields, "type") == Some(Str("object"))
  {
    if Has(fields, "type") { CopiedSome(rt, fields, "type"); }
  }

  lemma {:induction false} ThrowsAllIff(rt: Runtime, items: seq<Json>)
    requires forall i :: 0 <= i < |items| ==> WellFormed(items[i])
    ensures SanitizeAll(rt, items).None? <==> exists i :: 0 <= i < |items| && Throws(items[i])
    decreases items, 0
  {
    if items != [] {
      ThrowsIff(rt, items[0]);
      ThrowsAllIff(rt, items[1..]);
      if exists i :: 0 <= i < |items| && Throws(items[i]) {
        var i :| 0 <= i < |items| && Throws(items[i]);
        if i > 0 { assert Throws(items[1..][i - 1]); }
      }
      if exists i :: 0 <= i < |items[1..]| && Throws(items[1..][i]) {
        var i :| 0 <= i < |items[1..]| && Throws(items[1..][i]);
        assert Throws(items[i + 1]);
      }
    }
  }

  lemma {:induction false} CopyThrowsIff(rt: Runtime, fields: seq<Field>, acc: seq<Field>)
    requires forall i :: 0 <= i < |fields| ==> WellFormed(fields[i].value)
    ensures CopyFields(rt, fields, acc).None? <==> exists i :: 0 <= i < |fields| && FieldThrows(fields[i])
    decreases fields, 0
  {
    if fields != [] {
      var f, rest := fields[0], fields[1..];
      SomeThrows(f, rest);
      HeadTail(fields);
      if EnumArray(f) {
        if AllTextual(f.value.items) { CopyThrowsIff(rt, rest, AddEnum(rt, acc, f.value.items)); }
      } else {
        ThrowsIff(rt, f.value);
        if Sanitize(rt, f.value).Some? { CopyThrowsIff(rt, rest, Set(acc, f.key, Sanitize(rt, f.value).value)); }
      }
    }
  }

  lemma SomeThrows(f: Field, rest: seq<Field>)
    ensures var fields := [f] + rest;
      (exists i :: 0 <= i < |fields| && FieldThrows(fields[i])) <==>
        FieldThrows(f) || exists i :: 0 <= i < |rest| && FieldThrows(rest[i])
  {
    var fields := [f] + rest;
    if FieldThrows(f) { assert FieldThrows(fields[0]); }
    if i :| 0 <= i < |rest| && FieldThrows(rest[i]) { assert FieldThrows(fields[i + 1]); }
    if i :| 0 <= i < |fields| && FieldThrows(fields[i]) { if i > 0 { assert FieldThrows(rest[i - 1]); } }
  }

  const BARE_PROPERTIES := [
    Field("type", Str("object")), Field("properties", Bool(true)), Field("required", Arr([Str("a")]))]

  /** A schema whose properties are the value true throws as soon as something is required. */
  lemma BarePropertiesThrow(rt: Runtime)
    ensures Sanitize(rt, Obj(BARE_PROPERTIES)) == None
  {
    var fs := BARE_PROPERTIES;
    assert fs[1..][0] == fs[1] && fs[1..][1..][0] == fs[2];
    assert IndexOfKey(fs[1..], "properties") == Some(0) && IndexOfKey(fs[1..][1..], "required") == Some(0);
    assert IndexOfKey(fs[1..], "required") == Some(1);
    assert BadRequired(fs);
    ThrowsIff(rt, Obj(fs));
  }

  const NO_TEXT := Obj([Field("toString", Num(1.0))])

  /** An enumeration of an object with a key `toString` throws. */
  lemma EnumWithoutTextThrows(rt: Runtime)
    ensures Sanitize(rt, Obj([Field("enum", Arr([NO_TEXT]))])) == None
  {
    var items := [NO_TEXT];
    assert Textless(items[0]);
    assert !AllTextual(items);
  }

  const REQUIRES_NO_TEXT := [
    Field("type", Str("object")), Field("properties", Obj([])), Field("required", Arr([NO_TEXT]))]

  /** So does an object that requires one. */
  lemma RequiredWithoutTextThrows(rt: Runtime)
    ensures Sanitize(rt, Obj(REQUIRES_NO_TEXT)) == None
  {
    var fs := REQUIRES_NO_TEXT;
    assert fs[1..][0] == fs[1] && fs[1..][1..][0] == fs[2];
    assert IndexOfKey(fs[1..], "properties") == Some(0) && IndexOfKey(fs[1..][1..], "required") == Some(0);
    assert IndexOfKey(fs[1..], "required") == Some(1);
    assert fs[2].value.items == [NO_TEXT] && Textless([NO_TEXT][0]);
    assert BadRequired(fs);
    assert WellFormed(NO_TEXT);
    assert forall i :: 0 <= i < |fs| ==> WellFormed(fs[i].value);
    ThrowsIff(rt, Obj(fs));
  }
}
