/** `_strictify_schema` (shared/codex_cli.py): the rewrite that makes a JSON Schema acceptable to
    strict structured outputs, as a function on JSON values. StrictSchemaHeap proves the in-place
    traversal against it; SchemaValidity says what the rewrite does to the set of valid values. */
module StrictSchema {
  import opened Wrappers
  import opened JsonValues

  const ADDITIONAL := "additionalProperties"
  const REQUIRED := "required"
  const PROPERTIES := "properties"

  /** `node.get("type") == "object" or "properties" in node`. */
  predicate ObjectNode(fields: seq<Field>) {
    Get(fields, "type") == Some(Str("object")) || Has(fields, PROPERTIES)
  }

  /** `list((node.get("properties") or {}).keys())`. */
  function PropertyNames(fields: seq<Field>): seq<string> {
    match Get(fields, PROPERTIES)
    case Some(Obj(p)) => Keys(p)
    case _ => []
  }

  function Strings(names: seq<string>): (r: seq<Json>)
    ensures |r| == |names|
    ensures forall i | 0 <= i < |names| :: r[i] == Str(names[i])
  {
    seq(|names|, i requires 0 <= i < |names| => Str(names[i]))
  }

  /** The two assignments made at an object node whose property names are `names`. */
  function Sealed(fields: seq<Field>, names: seq<string>): seq<Field> {
    Put(Put(fields, ADDITIONAL, Bool(false)), REQUIRED, Arr(Strings(names)))
  }

  function Strictify(j: Json): Json {
    match j
    case Obj(fields) =>
      var inner := StrictFields(fields);
      Obj(if ObjectNode(fields) then Sealed(inner, PropertyNames(fields)) else inner)
    case Arr(items) => Arr(StrictItems(items))
    case _ => j
  }

  function StrictFields(fields: seq<Field>): (r: seq<Field>)
    ensures |r| == |fields|
    ensures forall i | 0 <= i < |fields| :: r[i] == Field(fields[i].key, Strictify(fields[i].value))
  {
    if fields == [] then []
    else
      var r := [Field(fields[0].key, Strictify(fields[0].value))] + StrictFields(fields[1..]);
      assert forall i | 1 <= i < |fields| :: fields[i] == fields[1..][i - 1] && r[i] == r[1..][i - 1];
      r
  }

  function StrictItems(items: seq<Json>): (r: seq<Json>)
    ensures |r| == |items|
    ensures forall i | 0 <= i < |items| :: r[i] == Strictify(items[i])
  {
    if items == [] then []
    else
      var r := [Strictify(items[0])] + StrictItems(items[1..]);
      assert forall i | 1 <= i < |items| :: items[i] == items[1..][i - 1] && r[i] == r[1..][i - 1];
      r
  }

  /** A JSON text: no object repeats a key. */
  ghost predicate WellFormed(j: Json) {
    match j
    case Obj(fields) => Distinct(fields) && forall i | 0 <= i < |fields| :: WellFormed(fields[i].value)
    case Arr(items) => forall i | 0 <= i < |items| :: WellFormed(items[i])
    case _ => true
  }

  /** The shape strict mode asks for, at every depth. */
  ghost predicate Strict(j: Json) {
    match j
    case Obj(fields) =>
      && (ObjectNode(fields) ==>
            && Get(fields, ADDITIONAL) == Some(Bool(false))
            && Get(fields, REQUIRED) == Some(Arr(Strings(PropertyNames(fields)))))
      && forall i | 0 <= i < |fields| :: Strict(fields[i].value)
    case Arr(items) => forall i | 0 <= i < |items| :: Strict(items[i])
    case _ => true
  }

  /** The rewrite grows a property map that it mistakes for an object node, unless the map already
      has both keys. `Steady` says this happens nowhere the result keeps. */
  ghost predicate Steady(j: Json) {
    match j
    case Obj(fields) =>
      && (ObjectNode(fields) && Get(fields, PROPERTIES).Some? && Get(fields, PROPERTIES).value.Obj? ==>
            var p := Get(fields, PROPERTIES).value.fields;
            ObjectNode(p) ==> Has(p, ADDITIONAL) && Has(p, REQUIRED))
      && forall i | 0 <= i < |fields| && !(ObjectNode(fields) && fields[i].key in {ADDITIONAL, REQUIRED}) ::
           Steady(fields[i].value)
    case Arr(items) => forall i | 0 <= i < |items| :: Steady(items[i])
    case _ => true
  }

  /** Python truthiness of a parsed JSON value. */
  predicate Truthy(j: Json) {
    match j
    case Null => false
    case Bool(b) => b
    case Num(n) => n != 0.0
    case Str(s) => s != ""
    case Arr(items) => items != []
    case Obj(fields) => fields != []
  }

  /** No visited object node has a non-empty `properties` that is not an object: there the
      traversal raises AttributeError. */
  predicate Accepted(j: Json) {
    match j
    case Obj(fields) =>
      && (ObjectNode(fields) && Has(fields, PROPERTIES) ==>
            Get(fields, PROPERTIES).value.Obj? || !Truthy(Get(fields, PROPERTIES).value))
      && forall i | 0 <= i < |fields| && !(ObjectNode(fields) && fields[i].key in {ADDITIONAL, REQUIRED}) ::
           Accepted(fields[i].value)
    case Arr(items) => forall i | 0 <= i < |items| :: Accepted(items[i])
    case _ => true
  }

  // ---- what Sealed does ----

  lemma FindSameKeys(a: seq<Field>, b: seq<Field>, key: string)
    requires |a| == |b| && forall i | 0 <= i < |a| :: a[i].key == b[i].key
    ensures Find(a, key) == Find(b, key)
  {
  }

  lemma PutOther(fields: seq<Field>, key: string, value: Json, other: string)
    requires other != key
    ensures Find(Put(fields, key, value), other) == Find(fields, other)
    ensures Get(Put(fields, key, value), other) == Get(fields, other)
  {
    var r := Put(fields, key, value);
    var i, k := Find(fields, other), Find(r, other);
    if i.Some? { assert r[i.value].key == other; }
    if k.Some? && k.value < |fields| { assert fields[k.value].key == other; }
  }

  lemma SealedGets(fields: seq<Field>, names: seq<string>, key: string)
    ensures Get(Sealed(fields, names), ADDITIONAL) == Some(Bool(false))
    ensures Get(Sealed(fields, names), REQUIRED) == Some(Arr(Strings(names)))
    ensures key !in {ADDITIONAL, REQUIRED} ==> Get(Sealed(fields, names), key) == Get(fields, key)
    ensures key !in {ADDITIONAL, REQUIRED} ==> Find(Sealed(fields, names), key) == Find(fields, key)
  {
    var once := Put(fields, ADDITIONAL, Bool(false));
    PutOther(once, REQUIRED, Arr(Strings(names)), ADDITIONAL);
    if key !in {ADDITIONAL, REQUIRED} {
      PutOther(fields, ADDITIONAL, Bool(false), key);
      PutOther(once, REQUIRED, Arr(Strings(names)), key);
    }
  }

  /** Every field of a sealed node is one of the two new ones or an old one in its old place. */
  lemma SealedFields(fields: seq<Field>, names: seq<string>, i: nat)
    requires Distinct(fields)
    ensures Distinct(Sealed(fields, names)) && |fields| <= |Sealed(fields, names)|
    ensures i < |Sealed(fields, names)| ==>
              var f := Sealed(fields, names)[i];
              || f == Field(ADDITIONAL, Bool(false))
              || f == Field(REQUIRED, Arr(Strings(names)))
              || (i < |fields| && f == fields[i] && f.key !in {ADDITIONAL, REQUIRED})
    ensures i < |fields| ==> Sealed(fields, names)[i].key == fields[i].key
    ensures i < |fields| && fields[i].key !in {ADDITIONAL, REQUIRED} ==> Sealed(fields, names)[i] == fields[i]
  {
    var once := Put(fields, ADDITIONAL, Bool(false));
    var twice := Sealed(fields, names);
    PutDistinct(fields, ADDITIONAL, Bool(false));
    PutDistinct(once, REQUIRED, Arr(Strings(names)));
  }

  lemma SealedLength(fields: seq<Field>, names: seq<string>)
    ensures |Sealed(fields, names)| == |fields| <==> Has(fields, ADDITIONAL) && Has(fields, REQUIRED)
    ensures |Sealed(fields, names)| >= |fields|
    ensures forall i | 0 <= i < |fields| :: Sealed(fields, names)[i].key == fields[i].key
  {
    PutOther(fields, ADDITIONAL, Bool(false), REQUIRED);
  }

  lemma PutDistinct(fields: seq<Field>, key: string, value: Json)
    requires Distinct(fields)
    ensures Distinct(Put(fields, key, value))
    ensures forall i | 0 <= i < |Put(fields, key, value)| && Put(fields, key, value)[i].key == key ::
              Put(fields, key, value)[i] == Field(key, value)
  {
    var r := Put(fields, key, value);
    var at := Find(r, key).value;
    forall i | 0 <= i < |r| && r[i].key == key ensures r[i] == Field(key, value) {
      assert i == at;
    }
  }

  lemma PutSame(fields: seq<Field>, key: string, value: Json)
    requires Get(fields, key) == Some(value)
    ensures Put(fields, key, value) == fields
  {
  }

  lemma StrictFieldsGet(fields: seq<Field>, key: string)
    ensures Find(StrictFields(fields), key) == Find(fields, key)
    ensures Get(StrictFields(fields), key) ==
            if Get(fields, key).Some? then Some(Strictify(Get(fields, key).value)) else None
  {
    FindSameKeys(StrictFields(fields), fields, key);
  }

  /** At any key but the two, the rewritten node has the rewritten value. */
  lemma StrictifyGet(fields: seq<Field>, key: string)
    requires key !in {ADDITIONAL, REQUIRED} || !ObjectNode(fields)
    ensures Find(Strictify(Obj(fields)).fields, key) == Find(fields, key)
    ensures Get(Strictify(Obj(fields)).fields, key) ==
            if Get(fields, key).Some? then Some(Strictify(Get(fields, key).value)) else None
  {
    StrictFieldsGet(fields, key);
    SealedGets(StrictFields(fields), PropertyNames(fields), key);
  }

  /** The rewrite neither makes nor unmakes an object node. */
  lemma ObjectNodeKept(fields: seq<Field>)
    ensures ObjectNode(Strictify(Obj(fields)).fields) <==> ObjectNode(fields)
  {
    assert |"type"| == 4 && |PROPERTIES| == 10 && |ADDITIONAL| == 20 && |REQUIRED| == 8;
    StrictifyGet(fields, "type");
    StrictifyGet(fields, PROPERTIES);
  }

  // ---- the traversal assigns first and descends afterwards ----

  /** An object node after the two assignments, before its values are visited. */
  function Assigned(fields: seq<Field>): seq<Field> {
    if ObjectNode(fields) then Sealed(fields, PropertyNames(fields)) else fields
  }

  /** `.keys()` can be asked of the properties. */
  predicate PropertiesReadable(fields: seq<Field>) {
    Has(fields, PROPERTIES) ==> Get(fields, PROPERTIES).value.Obj? || !Truthy(Get(fields, PROPERTIES).value)
  }

  /** The node-level part of `Accepted`. */
  predicate NodeAccepted(fields: seq<Field>) { ObjectNode(fields) ==> PropertiesReadable(fields) }

  lemma StrictFieldsPut(fields: seq<Field>, key: string, value: Json)
    ensures StrictFields(Put(fields, key, value)) == Put(StrictFields(fields), key, Strictify(value))
  {
    FindSameKeys(StrictFields(fields), fields, key);
    var at := Find(fields, key);
    if at.Some? {
      StrictFieldsSet(fields, at.value, Field(key, value));
    } else {
      StrictFieldsSnoc(fields, Field(key, value));
    }
  }

  lemma StrictFieldsSet(fields: seq<Field>, i: nat, f: Field)
    requires i < |fields|
    ensures StrictFields(fields[i := f]) == StrictFields(fields)[i := Field(f.key, Strictify(f.value))]
  {
  }

  lemma StrictFieldsSnoc(fields: seq<Field>, f: Field)
    ensures StrictFields(fields + [f]) == StrictFields(fields) + [Field(f.key, Strictify(f.value))]
  {
  }

  lemma StringsStayPut(names: seq<string>)
    ensures Strictify(Arr(Strings(names))) == Arr(Strings(names))
  {
    assert StrictItems(Strings(names)) == Strings(names);
  }

  lemma StrictFieldsSealed(fields: seq<Field>, names: seq<string>)
    ensures StrictFields(Sealed(fields, names)) == Sealed(StrictFields(fields), names)
  {
    var once := Put(fields, ADDITIONAL, Bool(false));
    StrictFieldsPut(fields, ADDITIONAL, Bool(false));
    StrictFieldsPut(once, REQUIRED, Arr(Strings(names)));
    StringsStayPut(names);
  }

  lemma AssignThenDescend(fields: seq<Field>)
    ensures Obj(StrictFields(Assigned(fields))) == Strictify(Obj(fields))
  {
    StrictFieldsSealed(fields, PropertyNames(fields));
  }

  /** A field of an assigned node is an old one in its old place, or one of the two new ones. */
  lemma AssignedField(fields: seq<Field>, i: nat)
    requires Distinct(fields) && ObjectNode(fields) && i < |Assigned(fields)|
    ensures (i < |fields| && fields[i].key !in {ADDITIONAL, REQUIRED} && Assigned(fields)[i] == fields[i])
            || Accepted(Assigned(fields)[i].value)
  {
    var names := PropertyNames(fields);
    SealedFields(fields, names, i);
    assert Accepted(Bool(false)) && Accepted(Arr(Strings(names)));
  }

  lemma AssignedKeeps(fields: seq<Field>, i: nat)
    requires Distinct(fields) && i < |fields|
    ensures |fields| <= |Assigned(fields)|
    ensures (ObjectNode(fields) && fields[i].key in {ADDITIONAL, REQUIRED}) || Assigned(fields)[i] == fields[i]
  {
    SealedFields(fields, PropertyNames(fields), i);
  }

  lemma AssignedAccepted(fields: seq<Field>)
    requires Distinct(fields)
    ensures Distinct(Assigned(fields))
    ensures Accepted(Obj(fields)) <==>
              NodeAccepted(fields) && forall i | 0 <= i < |Assigned(fields)| :: Accepted(Assigned(fields)[i].value)
  {
    SealedFields(fields, PropertyNames(fields), 0);
    if Accepted(Obj(fields)) && ObjectNode(fields) {
      forall i | 0 <= i < |Assigned(fields)| ensures Accepted(Assigned(fields)[i].value) {
        AssignedField(fields, i);
      }
    }
    if forall i | 0 <= i < |Assigned(fields)| :: Accepted(Assigned(fields)[i].value) {
      KeptAccepted(fields);
    }
  }

  lemma KeptAccepted(fields: seq<Field>)
    requires Distinct(fields) && forall i | 0 <= i < |Assigned(fields)| :: Accepted(Assigned(fields)[i].value)
    ensures forall i | 0 <= i < |fields| && !(ObjectNode(fields) && fields[i].key in {ADDITIONAL, REQUIRED}) ::
              Accepted(fields[i].value)
  {
    forall i | 0 <= i < |fields| && !(ObjectNode(fields) && fields[i].key in {ADDITIONAL, REQUIRED})
      ensures Accepted(fields[i].value)
    {
      AssignedKeeps(fields, i);
      assert Accepted(Assigned(fields)[i].value);
    }
  }
}
