/** The shape of a rewritten schema: when it is strict, when the rewrite is idempotent, and that
    it touches nothing but the two keys of object nodes. */
module StrictSchemaShape {
  import opened Wrappers
  import opened JsonValues
  import opened StrictSchema

  /** A strict value is left alone... */
  lemma {:induction false} StrictIsFixed(j: Json)
    requires Strict(j)
    ensures Strictify(j) == j
  {
    match j
    case Obj(fields) =>
      forall i | 0 <= i < |fields| ensures Strictify(fields[i].value) == fields[i].value {
        StrictIsFixed(fields[i].value);
      }
      assert StrictFields(fields) == fields;
      if ObjectNode(fields) {
        PutSame(fields, ADDITIONAL, Bool(false));
        PutSame(fields, REQUIRED, Arr(Strings(PropertyNames(fields))));
      }
    case Arr(items) =>
      forall i | 0 <= i < |items| ensures Strictify(items[i]) == items[i] { StrictIsFixed(items[i]); }
      assert StrictItems(items) == items;
    case _ =>
  }

  /** ... and only a strict value is. */
  lemma {:induction false} FixedIsStrict(j: Json)
    requires WellFormed(j) && Strictify(j) == j
    ensures Strict(j)
  {
    match j
    case Obj(fields) =>
      var inner := StrictFields(fields);
      if ObjectNode(fields) { SealedGets(inner, PropertyNames(fields), PROPERTIES); }
      forall i | 0 <= i < |fields| ensures Strict(fields[i].value) {
        if ObjectNode(fields) { SealedFields(inner, PropertyNames(fields), i); }
        if !(ObjectNode(fields) && fields[i].key in {ADDITIONAL, REQUIRED}) {
          assert fields[i] == inner[i];
          FixedIsStrict(fields[i].value);
        }
      }
    case Arr(items) =>
      forall i | 0 <= i < |items| ensures Strict(items[i]) {
        assert Strictify(items[i]) == items[i];
        FixedIsStrict(items[i]);
      }
    case _ =>
  }

  lemma KeysKept(p: seq<Field>)
    ensures Keys(Strictify(Obj(p)).fields) == Keys(p) <==> (ObjectNode(p) ==> Has(p, ADDITIONAL) && Has(p, REQUIRED))
  {
    var inner, out := StrictFields(p), Strictify(Obj(p)).fields;
    FindSameKeys(inner, p, ADDITIONAL);
    FindSameKeys(inner, p, REQUIRED);
    SealedLength(inner, PropertyNames(p));
    SameKeys(p, out);
  }

  lemma SameKeys(p: seq<Field>, out: seq<Field>)
    requires |p| <= |out| && forall i | 0 <= i < |p| :: out[i].key == p[i].key
    ensures Keys(out) == Keys(p) <==> |out| == |p|
  {
    assert |Keys(out)| == |out| && |Keys(p)| == |p|;
    assert forall i | 0 <= i < |p| :: Keys(out)[i] == Keys(p)[i];
  }

  lemma StringsInjective(a: seq<string>, b: seq<string>)
    requires Strings(a) == Strings(b)
    ensures a == b
  {
    forall i | 0 <= i < |a| ensures a[i] == b[i] {
      assert Strings(a)[i] == Strings(b)[i];
    }
  }

  /** The sealed node's own requirement still names exactly its properties afterwards. */
  lemma SealedNodeIsStrict(fields: seq<Field>)
    requires ObjectNode(fields)
    ensures var out := Strictify(Obj(fields)).fields;
            && ObjectNode(out)
            && Get(out, ADDITIONAL) == Some(Bool(false))
            && (Get(out, REQUIRED) == Some(Arr(Strings(PropertyNames(out)))) <==>
                (Get(fields, PROPERTIES).Some? && Get(fields, PROPERTIES).value.Obj? ==>
                   var p := Get(fields, PROPERTIES).value.fields;
                   ObjectNode(p) ==> Has(p, ADDITIONAL) && Has(p, REQUIRED)))
  {
    var out := Strictify(Obj(fields)).fields;
    ObjectNodeKept(fields);
    StrictifyGet(fields, PROPERTIES);
    SealedGets(StrictFields(fields), PropertyNames(fields), PROPERTIES);
    if Get(fields, PROPERTIES).Some? && Get(fields, PROPERTIES).value.Obj? {
      KeysKept(Get(fields, PROPERTIES).value.fields);
      if Strings(PropertyNames(fields)) == Strings(PropertyNames(out)) {
        StringsInjective(PropertyNames(fields), PropertyNames(out));
      }
    }
  }

  ghost predicate AllStrict(fields: seq<Field>) { forall i | 0 <= i < |fields| :: Strict(fields[i].value) }

  ghost predicate KeptStrict(fields: seq<Field>) {
    forall i | 0 <= i < |fields| && fields[i].key !in {ADDITIONAL, REQUIRED} :: Strict(fields[i].value)
  }

  lemma SealedChildren(inner: seq<Field>, names: seq<string>)
    requires Distinct(inner)
    ensures AllStrict(Sealed(inner, names)) <==> KeptStrict(inner)
  {
    var out := Sealed(inner, names);
    assert Strict(Bool(false)) && Strict(Arr(Strings(names)));
    forall i | 0 <= i < |inner| && inner[i].key !in {ADDITIONAL, REQUIRED} ensures i < |out| && out[i] == inner[i] {
      SealedFields(inner, names, i);
    }
    forall i | 0 <= i < |out| && !(i < |inner| && out[i] == inner[i] && inner[i].key !in {ADDITIONAL, REQUIRED})
      ensures Strict(out[i].value)
    {
      SealedFields(inner, names, i);
    }
  }

  /** The fields of a rewritten object: the ones it keeps, rewritten, and the two new ones. */
  lemma ChildrenStrict(fields: seq<Field>)
    requires Distinct(fields)
    ensures AllStrict(Strictify(Obj(fields)).fields) <==>
            if ObjectNode(fields) then KeptStrict(StrictFields(fields)) else AllStrict(StrictFields(fields))
  {
    var inner := StrictFields(fields);
    assert Distinct(inner);
    if ObjectNode(fields) {
      SealedChildren(inner, PropertyNames(fields));
    }
  }

  /** Steadiness of the visited children is strictness of their rewrites. */
  ghost predicate SteadyChildren(fields: seq<Field>, node: bool) {
    forall i | 0 <= i < |fields| && !(node && fields[i].key in {ADDITIONAL, REQUIRED}) :: Steady(fields[i].value)
  }

  lemma ChildrenMatch(fields: seq<Field>, inner: seq<Field>, node: bool)
    requires |inner| == |fields|
    requires forall i | 0 <= i < |fields| :: inner[i].key == fields[i].key
    requires forall i | 0 <= i < |fields| :: Strict(inner[i].value) <==> Steady(fields[i].value)
    ensures SteadyChildren(fields, node) <==> if node then KeptStrict(inner) else AllStrict(inner)
  {
    if SteadyChildren(fields, node) {
      forall i | 0 <= i < |inner| && !(node && inner[i].key in {ADDITIONAL, REQUIRED}) ensures Strict(inner[i].value) {
        assert Steady(fields[i].value);
      }
    } else {
      var i :| 0 <= i < |fields| && !(node && fields[i].key in {ADDITIONAL, REQUIRED}) && !Steady(fields[i].value);
      assert inner[i].key == fields[i].key && !Strict(inner[i].value);
    }
  }

  lemma ObjectStrict(fields: seq<Field>)
    requires Distinct(fields)
    requires forall i | 0 <= i < |fields| :: Strict(Strictify(fields[i].value)) <==> Steady(fields[i].value)
    ensures Strict(Strictify(Obj(fields))) <==> Steady(Obj(fields))
  {
    ChildrenStrict(fields);
    ChildrenMatch(fields, StrictFields(fields), ObjectNode(fields));
    ObjectNodeKept(fields);
    if ObjectNode(fields) {
      SealedNodeIsStrict(fields);
    }
    StrictMeans(Strictify(Obj(fields)).fields);
    SteadyMeans(fields);
  }

  lemma StrictMeans(fields: seq<Field>)
    ensures Strict(Obj(fields)) <==>
              && AllStrict(fields)
              && (ObjectNode(fields) ==>
                    && Get(fields, ADDITIONAL) == Some(Bool(false))
                    && Get(fields, REQUIRED) == Some(Arr(Strings(PropertyNames(fields)))))
  {
  }

  lemma SteadyMeans(fields: seq<Field>)
    ensures Steady(Obj(fields)) <==>
              && SteadyChildren(fields, ObjectNode(fields))
              && (ObjectNode(fields) && Get(fields, PROPERTIES).Some? && Get(fields, PROPERTIES).value.Obj? ==>
                    var p := Get(fields, PROPERTIES).value.fields;
                    ObjectNode(p) ==> Has(p, ADDITIONAL) && Has(p, REQUIRED))
  {
  }

  /** The result is strict exactly when no surviving property map is mistaken for an object node
      (a property that is itself named `properties`) without already having both keys. */
  lemma {:induction false} StrictIffSteady(j: Json)
    requires WellFormed(j)
    ensures Strict(Strictify(j)) <==> Steady(j)
  {
    match j
    case Obj(fields) =>
      forall i | 0 <= i < |fields| ensures Strict(Strictify(fields[i].value)) <==> Steady(fields[i].value) {
        StrictIffSteady(fields[i].value);
      }
      ObjectStrict(fields);
    case Arr(items) =>
      forall i | 0 <= i < |items| ensures Strict(Strictify(j).items[i]) <==> Steady(items[i]) {
        StrictIffSteady(items[i]);
      }
    case _ =>
  }

  lemma SealedWellFormed(fields: seq<Field>, names: seq<string>)
    requires WellFormed(Obj(fields))
    ensures WellFormed(Obj(Sealed(fields, names)))
  {
    var out := Sealed(fields, names);
    SealedFields(fields, names, 0);
    forall i | 0 <= i < |out| ensures WellFormed(out[i].value) {
      SealedFields(fields, names, i);
    }
  }

  lemma {:induction false} StrictifyWellFormed(j: Json)
    requires WellFormed(j)
    ensures WellFormed(Strictify(j))
  {
    match j
    case Obj(fields) =>
      var inner := StrictFields(fields);
      forall i | 0 <= i < |fields| ensures WellFormed(inner[i].value) { StrictifyWellFormed(fields[i].value); }
      assert WellFormed(Obj(inner));
      SealedWellFormed(inner, PropertyNames(fields));
    case Arr(items) =>
      forall i | 0 <= i < |items| ensures WellFormed(Strictify(j).items[i]) { StrictifyWellFormed(items[i]); }
    case _ =>
  }

  /** Rewriting twice is rewriting once under exactly the same condition. */
  lemma IdempotentIffSteady(j: Json)
    requires WellFormed(j)
    ensures Strictify(Strictify(j)) == Strictify(j) <==> Steady(j)
  {
    StrictIffSteady(j);
    StrictifyWellFormed(j);
    if Steady(j) { StrictIsFixed(Strictify(j)); }
    if Strictify(Strictify(j)) == Strictify(j) { FixedIsStrict(Strictify(j)); }
  }

  /** A concrete schema that is not steady: an object with one property named "properties". */
  const TRAP := Obj([Field("type", Str("object")),
                     Field(PROPERTIES, Obj([Field(PROPERTIES, Obj([]))]))])

  lemma TrapIsNotIdempotent()
    ensures WellFormed(TRAP) && Strictify(Strictify(TRAP)) != Strictify(TRAP)
  {
    var p := [Field(PROPERTIES, Obj([]))];
    assert TRAP.fields[0].key == "type" && |"type"| == 4 && |PROPERTIES| == 10 && |ADDITIONAL| == 20;
    assert Find(TRAP.fields[1..], PROPERTIES) == Some(0);
    assert Find(TRAP.fields, PROPERTIES) == Some(1);
    assert Get(TRAP.fields, PROPERTIES) == Some(Obj(p));
    assert ObjectNode(p) && !Has(p, ADDITIONAL);
    assert !Steady(TRAP);
    IdempotentIffSteady(TRAP);
  }

  // ---- the rewrite of one node, key by key ----

  /** What an object node requires afterwards: the names of its properties, in their order. */
  predicate RequiresAll(fields: seq<Field>, required: Option<Json>) {
    && required.Some? && required.value.Arr?
    && match Get(fields, "properties")
       case Some(Obj(p)) => |required.value.items| == |p| && forall i | 0 <= i < |p| :: required.value.items[i] == Str(p[i].key)
       case _ => required.value.items == []
  }

  /** A node with type object or with properties is closed and requires them all; every other key, and every key of
      any other object, keeps its place and gets the rewritten value, and no other key is added. */
  lemma NodeRewritten(fields: seq<Field>, key: string)
    ensures var out := Strictify(Obj(fields)).fields;
            var node := Get(fields, "type") == Some(Str("object")) || Has(fields, "properties");
            if node && key == "additionalProperties" then Get(out, key) == Some(Bool(false))
            else if node && key == "required" then RequiresAll(fields, Get(out, key))
            else
              && Find(out, key) == Find(fields, key)
              && (Has(fields, key) ==> Get(out, key) == Some(Strictify(Get(fields, key).value)))
  {
    if key in {ADDITIONAL, REQUIRED} && ObjectNode(fields) {
      SealedGets(StrictFields(fields), PropertyNames(fields), key);
    } else {
      StrictifyGet(fields, key);
    }
  }

  /** The traversal raises at a node whose properties are a true value that is no object. */
  lemma RaisesExactly(fields: seq<Field>)
    ensures !NodeAccepted(fields) <==>
              && Has(fields, "properties")
              && match Get(fields, "properties").value
                 case Bool(b) => b
                 case Num(n) => n < 0.0 || n > 0.0
                 case Str(s) => |s| > 0
                 case Arr(items) => |items| > 0
                 case _ => false
  {
  }

  // ---- nothing else changes ----

  /** A value with the two keys of every object node struck out. */
  function Erase(j: Json): Json {
    match j
    case Obj(fields) => Obj(EraseFields(fields, ObjectNode(fields)))
    case Arr(items) => Arr(EraseItems(items))
    case _ => j
  }

  function EraseFields(fields: seq<Field>, node: bool): seq<Field> {
    if fields == [] then []
    else (if node && fields[0].key in {ADDITIONAL, REQUIRED} then []
          else [Field(fields[0].key, Erase(fields[0].value))])
         + EraseFields(fields[1..], node)
  }

  function EraseItems(items: seq<Json>): seq<Json> {
    if items == [] then [] else [Erase(items[0])] + EraseItems(items[1..])
  }

  lemma PutCons(fields: seq<Field>, key: string, value: Json)
    requires fields != []
    ensures Put(fields, key, value) ==
            if fields[0].key == key then [Field(key, value)] + fields[1..]
            else [fields[0]] + Put(fields[1..], key, value)
  {
  }

  lemma {:induction false} ErasePut(fields: seq<Field>, key: string, value: Json)
    requires key in {ADDITIONAL, REQUIRED}
    ensures EraseFields(Put(fields, key, value), true) == EraseFields(fields, true)
  {
    var r := Put(fields, key, value);
    if fields == [] {
      assert r == [Field(key, value)] && r[1..] == [];
    } else {
      var rest := if fields[0].key == key then fields[1..] else Put(fields[1..], key, value);
      PutCons(fields, key, value);
      assert r[1..] == rest;
      ErasePut(fields[1..], key, value);
    }
  }

  /** Apart from those two keys the rewrite changes nothing, at any depth, on any value. */
  lemma {:induction false} NothingElseChanges(j: Json)
    ensures Erase(Strictify(j)) == Erase(j)
  {
    match j
    case Obj(fields) =>
      var node, inner := ObjectNode(fields), StrictFields(fields);
      ObjectNodeKept(fields);
      EraseStrictFields(fields, node);
      if node {
        ErasePut(inner, ADDITIONAL, Bool(false));
        ErasePut(Put(inner, ADDITIONAL, Bool(false)), REQUIRED, Arr(Strings(PropertyNames(fields))));
      }
    case Arr(items) => EraseStrictItems(items);
    case _ =>
  }

  lemma {:induction false} EraseStrictFields(fields: seq<Field>, node: bool)
    ensures EraseFields(StrictFields(fields), node) == EraseFields(fields, node)
  {
    if fields != [] {
      NothingElseChanges(fields[0].value);
      EraseStrictFields(fields[1..], node);
      assert StrictFields(fields)[1..] == StrictFields(fields[1..]);
    }
  }

  lemma {:induction false} EraseStrictItems(items: seq<Json>)
    ensures EraseItems(StrictItems(items)) == EraseItems(items)
  {
    if items != [] {
      NothingElseChanges(items[0]);
      EraseStrictItems(items[1..]);
      assert StrictItems(items)[1..] == StrictItems(items[1..]);
    }
  }
}
