/** JSON values. Objects are lists of fields in key order, as the program iterates them. */
module Json {
  import opened Sequences

  datatype Field = Field(key: string, value: Json)

  datatype Json =
    | Null
    | Bool(b: bool)
    | Num(n: real)
    | Str(s: string)
    | Arr(items: seq<Json>)
    | Obj(fields: seq<Field>)

  /** Truth value in the sense of a JavaScript condition. */
  predicate Truthy(j: Json) {
    match j
    case Null => false
    case Bool(b) => b
    case Num(n) => n != 0.0
    case Str(s) => s != ""
    case Arr(_) => true
    case Obj(_) => true
  }

  function IndexOfKey(fields: seq<Field>, key: string): (r: Option<nat>)
    ensures r.Some? ==> r.value < |fields| && fields[r.value].key == key
  {
    if fields == [] then None
    else if fields[0].key == key then Some(0)
    else match IndexOfKey(fields[1..], key) case None => None case Some(k) => Some(k + 1)
  }

  predicate Has(fields: seq<Field>, key: string) {
    IndexOfKey(fields, key).Some?
  }

  function Get(fields: seq<Field>, key: string): Option<Json> {
    match IndexOfKey(fields, key) case None => None case Some(k) => Some(fields[k].value)
  }

  /** Assignment keeps the place of an existing key and appends a new one. */
  function Set(fields: seq<Field>, key: string, value: Json): seq<Field> {
    match IndexOfKey(fields, key)
    case None => fields + [Field(key, value)]
    case Some(k) => fields[k := Field(key, value)]
  }

  function Delete(fields: seq<Field>, key: string): seq<Field> {
    match IndexOfKey(fields, key) case None => fields case Some(k) => RemoveAt(fields, k)
  }

  predicate DistinctKeys(fields: seq<Field>) {
    forall i, j :: 0 <= i < j < |fields| ==> fields[i].key != fields[j].key
  }

  /** The keys of every object are distinct, as they are in JavaScript. */
  predicate WellFormed(j: Json)
    decreases j
  {
    match j
    case Arr(items) => forall i :: 0 <= i < |items| ==> WellFormed(items[i])
    case Obj(fields) => DistinctKeys(fields) && forall i :: 0 <= i < |fields| ==> WellFormed(fields[i].value)
    case _ => true
  }

  lemma {:induction false} IndexOfKeyNone(fields: seq<Field>, key: string)
    ensures IndexOfKey(fields, key).None? <==> forall i :: 0 <= i < |fields| ==> fields[i].key != key
  {
    if fields != [] {
      IndexOfKeyNone(fields[1..], key);
      if fields[0].key != key && IndexOfKey(fields[1..], key).None? {
        forall i | 0 <= i < |fields| ensures fields[i].key != key {
          if i > 0 { assert fields[i] == fields[1..][i - 1]; }
        }
      }
    }
  }

  /** In a list with distinct keys a field is found by its key. */
  lemma IndexOfKeyAt(fields: seq<Field>, i: nat)
    requires DistinctKeys(fields) && i < |fields|
    ensures IndexOfKey(fields, fields[i].key) == Some(i)
  {
    IndexOfKeyNone(fields, fields[i].key);
  }

  lemma GetSet(fields: seq<Field>, key: string, value: Json, other: string)
    requires DistinctKeys(fields)
    ensures DistinctKeys(Set(fields, key, value))
    ensures Get(Set(fields, key, value), key) == Some(value)
    ensures other != key ==> Get(Set(fields, key, value), other) == Get(fields, other)
  {
    var r := Set(fields, key, value);
    IndexOfKeyNone(fields, key);
    var k := if Has(fields, key) then IndexOfKey(fields, key).value else |fields|;
    assert r[k] == Field(key, value);
    IndexOfKeyAt(r, k);
    if other != key {
      IndexOfKeyNone(fields, other);
      IndexOfKeyNone(r, other);
      if Has(fields, other) {
        var i := IndexOfKey(fields, other).value;
        assert r[i] == fields[i];
        IndexOfKeyAt(r, i);
      }
    }
  }

  lemma DeleteDistinct(fields: seq<Field>, key: string)
    requires DistinctKeys(fields)
    ensures DistinctKeys(Delete(fields, key)) && !Has(Delete(fields, key), key)
  {
    var r := Delete(fields, key);
    IndexOfKeyNone(fields, key);
    IndexOfKeyNone(r, key);
    if Has(fields, key) {
      var k := IndexOfKey(fields, key).value;
      assert forall i :: 0 <= i < |r| ==> r[i] == fields[if i < k then i else i + 1];
    }
  }

  lemma GetDelete(fields: seq<Field>, key: string, other: string)
    requires DistinctKeys(fields)
    ensures DistinctKeys(Delete(fields, key))
    ensures Get(Delete(fields, key), key) == None
    ensures other != key ==> Get(Delete(fields, key), other) == Get(fields, other)
  {
    DeleteDistinct(fields, key);
    if other != key && Has(fields, key) { GetDeleteOther(fields, key, other); }
  }

  lemma GetDeleteOther(fields: seq<Field>, key: string, other: string)
    requires DistinctKeys(fields) && DistinctKeys(Delete(fields, key)) && other != key && Has(fields, key)
    ensures Get(Delete(fields, key), other) == Get(fields, other)
  {
    var r, k := Delete(fields, key), IndexOfKey(fields, key).value;
    IndexOfKeyNone(fields, other);
    if Has(fields, other) {
      var i := IndexOfKey(fields, other).value;
      var i' := if i < k then i else i - 1;
      assert r[i'] == fields[i];
      IndexOfKeyAt(r, i');
    } else {
      IndexOfKeyNone(r, other);
      assert forall i :: 0 <= i < |r| ==> r[i] == fields[if i < k then i else i + 1];
    }
  }
}
