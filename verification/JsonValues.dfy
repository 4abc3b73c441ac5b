/** JSON values. An object is a list of fields in insertion order, as a Python dict is. */
module JsonValues {
  import opened Wrappers

  datatype Json =
    | Null
    | Bool(b: bool)
    | Num(n: real)
    | Str(s: string)
    | Arr(items: seq<Json>)
    | Obj(fields: seq<Field>)

  datatype Field = Field(key: string, value: Json)

  /** Where a key is, if it is there. */
  function Find(fields: seq<Field>, key: string): (r: Option<nat>)
    ensures r.Some? ==> r.value < |fields| && fields[r.value].key == key
    ensures r.Some? ==> forall i | 0 <= i < r.value :: fields[i].key != key
    ensures r.None? ==> forall i | 0 <= i < |fields| :: fields[i].key != key
  {
    if fields == [] then None
    else if fields[0].key == key then Some(0)
    else
      var r := Find(fields[1..], key);
      if r.Some? then
        assert forall i | 1 <= i < |fields| :: fields[i] == fields[1..][i - 1];
        Some(r.value + 1)
      else
        assert forall i | 1 <= i < |fields| :: fields[i] == fields[1..][i - 1];
        None
  }

  predicate Has(fields: seq<Field>, key: string) { Find(fields, key).Some? }

  function Get(fields: seq<Field>, key: string): Option<Json> {
    var i := Find(fields, key);
    if i.Some? then Some(fields[i.value].value) else None
  }

  /** `d[key] = value`: in place if the key is there, at the end otherwise. */
  function Put(fields: seq<Field>, key: string, value: Json): (r: seq<Field>)
    ensures Get(r, key) == Some(value)
    ensures |r| == if Has(fields, key) then |fields| else |fields| + 1
    ensures forall i | 0 <= i < |fields| :: r[i].key == fields[i].key
    ensures forall i | 0 <= i < |fields| && Find(fields, key) != Some(i) :: r[i] == fields[i]
    ensures !Has(fields, key) ==> r[|fields|] == Field(key, value)
  {
    var i := Find(fields, key);
    if i.Some? then
      var r := fields[i.value := Field(key, value)];
      assert forall k | 0 <= k < |fields| :: r[k].key == fields[k].key;
      r
    else
      var r := fields + [Field(key, value)];
      assert r[|fields|].key == key && forall k | 0 <= k < |fields| :: r[k] == fields[k];
      r
  }

  function Keys(fields: seq<Field>): (r: seq<string>)
    ensures |r| == |fields|
    ensures forall i | 0 <= i < |fields| :: r[i] == fields[i].key
  {
    seq(|fields|, i requires 0 <= i < |fields| => fields[i].key)
  }

  ghost predicate Distinct(fields: seq<Field>) {
    forall i, j | 0 <= i < j < |fields| :: fields[i].key != fields[j].key
  }
}
