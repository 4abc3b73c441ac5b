/** What a JSON Schema accepts (JSON Schema 2020-12: Core sections 8.2.3.1, 10.2.1, 10.3.1.2, 10.3.2;
    Validation sections 6.1.1 and 6.5.3), and the theorem that strictifying a schema asks for exactly the listed properties. */
module SchemaValidity {
  import opened Wrappers
  import opened JsonValues
  import opened StrictSchema

  datatype Keyword =
    | TypeKw | PropertiesKw | RequiredKw | AdditionalKw | ItemsKw
    | AnyOfKw | AllOfKw | OneOfKw | NotKw | RefKw | DefsKw | NoteKw | ContextKw | OtherKw

  /** Keywords that change what their neighbours mean, or depend on them or on where the schema stands. */
  const CONTEXT := {"patternProperties", "unevaluatedProperties", "unevaluatedItems", "prefixItems", "if", "then", "else",
                    "minContains", "maxContains", "$id", "$anchor", "$dynamicAnchor", "$dynamicRef"}

  function KeywordOf(key: string): Keyword {
    if key == "type" then TypeKw
    else if key == PROPERTIES then PropertiesKw
    else if key == REQUIRED then RequiredKw
    else if key == ADDITIONAL then AdditionalKw
    else if key == "items" then ItemsKw
    else if key == "anyOf" then AnyOfKw
    else if key == "allOf" then AllOfKw
    else if key == "oneOf" then OneOfKw
    else if key == "not" then NotKw
    else if key == "$ref" then RefKw
    else if key == "$defs" then DefsKw
    else if key in {"title", "description", "default", "examples"} then NoteKw
    else if key in CONTEXT then ContextKw
    else OtherKw
  }

  predicate IsType(t: string, v: Json) {
    match v
    case Null => t == "null"
    case Bool(_) => t == "boolean"
    case Num(n) => t == "number" || (t == "integer" && n == n.Floor as real)
    case Str(_) => t == "string"
    case Arr(_) => t == "array"
    case Obj(_) => t == "object"
  }

  predicate TypeHolds(kw: Json, v: Json) {
    match kw
    case Str(t) => IsType(t, v)
    case Arr(ts) => exists k | 0 <= k < |ts| :: ts[k].Str? && IsType(ts[k].s, v)
    case _ => false
  }

  const DEFS_PREFIX := "#/$defs/"

  /** What references resolve to: `#/$defs/Name` for every definition of the root schema. */
  type Definitions = map<string, Json>

  function DefinitionsOf(root: Json): Definitions {
    if root.Obj? && Get(root.fields, "$defs").Some? && Get(root.fields, "$defs").value.Obj?
    then Named(Get(root.fields, "$defs").value.fields)
    else map[]
  }

  function Named(fields: seq<Field>): Definitions {
    if fields == [] then map[] else Named(fields[1..])[DEFS_PREFIX + fields[0].key := fields[0].value]
  }

  /** How a keyword this model does not interpret judges an instance, from its own value alone. */
  type Judge = (string, Json, Json) -> bool

  /** An object with exactly the properties an object node lists. */
  predicate ExactlyListed(fields: seq<Field>, v: Json) {
    v.Obj? ==>
      && (forall k | 0 <= k < |v.fields| :: v.fields[k].key in PropertyNames(fields))
      && (forall name | name in PropertyNames(fields) :: Has(v.fields, name))
  }

  /** `v` is valid under `schema`, following at most `fuel` references on any path. With `exact`,
      every object node in addition asks for exactly the properties it lists. */
  ghost predicate Valid(judge: Judge, defs: Definitions, exact: bool, fuel: nat, schema: Json, v: Json)
    decreases fuel, schema, 1
  {
    match schema
    case Bool(b) => b
    case Obj(fields) =>
      && (exact && ObjectNode(fields) ==> ExactlyListed(fields, v))
      && forall i | 0 <= i < |fields| :: Holds(judge, defs, exact, fuel, schema, i, v)
    case _ => false
  }

  /** The i-th keyword of an object schema. */
  ghost predicate Holds(judge: Judge, defs: Definitions, exact: bool, fuel: nat, schema: Json, i: nat, v: Json)
    requires schema.Obj? && i < |schema.fields|
    decreases fuel, schema, 0
  {
    var kw := schema.fields[i].value;
    match KeywordOf(schema.fields[i].key)
    case TypeKw => TypeHolds(kw, v)
    case PropertiesKw =>
      kw.Obj? && (v.Obj? ==> forall k | 0 <= k < |kw.fields| :: Has(v.fields, kw.fields[k].key) ==>
        Valid(judge, defs, exact, fuel, kw.fields[k].value, Get(v.fields, kw.fields[k].key).value))
    case RequiredKw =>
      kw.Arr? && (v.Obj? ==> forall k | 0 <= k < |kw.items| :: kw.items[k].Str? && Has(v.fields, kw.items[k].s))
    case AdditionalKw =>
      v.Obj? ==> forall k | 0 <= k < |v.fields| && v.fields[k].key !in PropertyNames(schema.fields) ::
        Valid(judge, defs, exact, fuel, kw, v.fields[k].value)
    case ItemsKw => v.Arr? ==> forall k | 0 <= k < |v.items| :: Valid(judge, defs, exact, fuel, kw, v.items[k])
    case AnyOfKw => kw.Arr? && exists k | 0 <= k < |kw.items| :: Valid(judge, defs, exact, fuel, kw.items[k], v)
    case AllOfKw => kw.Arr? && forall k | 0 <= k < |kw.items| :: Valid(judge, defs, exact, fuel, kw.items[k], v)
    case OneOfKw =>
      && kw.Arr?
      && (exists k | 0 <= k < |kw.items| :: Valid(judge, defs, exact, fuel, kw.items[k], v))
      && (forall k, m | 0 <= k < m < |kw.items| ::
            !(Valid(judge, defs, exact, fuel, kw.items[k], v) && Valid(judge, defs, exact, fuel, kw.items[m], v)))
    case NotKw => !Valid(judge, defs, exact, fuel, kw, v)
    case RefKw =>
      kw.Str? && kw.s in defs && fuel > 0 && Valid(judge, defs, exact, fuel - 1, defs[kw.s], v)
    case DefsKw => true
    case NoteKw => true
    case ContextKw => judge(schema.fields[i].key, kw, v)
    case OtherKw => judge(schema.fields[i].key, kw, v)
  }

  // ---- the schemas the theorem is about ----

  /** A map of names to schemas that the rewrite will not mistake for an object node. */
  ghost predicate MapOk(map_: Json)
    decreases map_, 0
  {
    && map_.Obj? && Distinct(map_.fields) && !Has(map_.fields, PROPERTIES)
    && forall k | 0 <= k < |map_.fields| :: SchemaOk(map_.fields[k].value)
  }

  /** Schemas whose object nodes require only names among their properties, and whose other keywords mean what
      they mean by themselves. */
  ghost predicate SchemaOk(schema: Json)
    decreases schema, 2
  {
    match schema
    case Bool(_) => true
    case Obj(fields) => Distinct(fields) && forall i | 0 <= i < |fields| :: KeywordOk(schema, i)
    case _ => false
  }

  ghost predicate KeywordOk(schema: Json, i: nat)
    requires schema.Obj? && i < |schema.fields|
    decreases schema, 1
  {
    var kw := schema.fields[i].value;
    match KeywordOf(schema.fields[i].key)
    case TypeKw => kw.Str? || (kw.Arr? && forall k | 0 <= k < |kw.items| :: kw.items[k].Str?)
    case PropertiesKw => MapOk(kw)
    case DefsKw => MapOk(kw)
    case RequiredKw =>
      && kw.Arr? && (forall k | 0 <= k < |kw.items| :: kw.items[k].Str?)
      && (ObjectNode(schema.fields) ==> forall k | 0 <= k < |kw.items| :: kw.items[k].s in PropertyNames(schema.fields))
    case AdditionalKw => SchemaOk(kw)
    case ItemsKw => SchemaOk(kw)
    case AnyOfKw => kw.Arr? && forall k | 0 <= k < |kw.items| :: SchemaOk(kw.items[k])
    case AllOfKw => kw.Arr? && forall k | 0 <= k < |kw.items| :: SchemaOk(kw.items[k])
    case RefKw => kw.Str?
    case NoteKw => true
    case ContextKw => false
    case OtherKw => Strictify(kw) == kw
    case OneOfKw => kw.Arr? && forall k | 0 <= k < |kw.items| :: SchemaOk(kw.items[k])
    case NotKw => SchemaOk(kw)
  }

  // ---- what the rewrite means ----

  lemma MapRewritten(map_: Json)
    requires MapOk(map_)
    ensures Strictify(map_) == Obj(StrictFields(map_.fields))
    ensures Keys(StrictFields(map_.fields)) == Keys(map_.fields)
  {
    var at := Find(map_.fields, "type");
    if at.Some? { assert SchemaOk(map_.fields[at.value].value); }
  }

  lemma StringsFixed(items: seq<Json>)
    requires forall k | 0 <= k < |items| :: items[k].Str?
    ensures Strictify(Arr(items)) == Arr(items)
  {
    assert StrictItems(items) == items;
  }

  /** A keyword other than the two keeps its place, and its value is the rewritten one. */
  lemma KeywordRewritten(schema: Json, i: nat)
    requires schema.Obj? && Distinct(schema.fields) && i < |schema.fields|
    requires !(ObjectNode(schema.fields) && schema.fields[i].key in {ADDITIONAL, REQUIRED})
    ensures var out := Strictify(schema).fields;
            i < |out| && out[i] == Field(schema.fields[i].key, Strictify(schema.fields[i].value))
  {
    var inner := StrictFields(schema.fields);
    assert Distinct(inner);
    SealedFields(inner, PropertyNames(schema.fields), i);
  }

  /** The two keywords of a rewritten object node together say: exactly the listed properties. */
  lemma ClosedMeansListed(judge: Judge, defs: Definitions, fuel: nat, schema: Json, i: nat, v: Json)
    requires schema.Obj? && i < |schema.fields| && schema.fields[i] == Field(ADDITIONAL, Bool(false))
    ensures Holds(judge, defs, false, fuel, schema, i, v) <==>
              (v.Obj? ==> forall k | 0 <= k < |v.fields| :: v.fields[k].key in PropertyNames(schema.fields))
  {
    KeywordNames();
    if v.Obj? {
      forall k | 0 <= k < |v.fields| ensures !Valid(judge, defs, false, fuel, Bool(false), v.fields[k].value) {}
    }
  }

  lemma RequiredMeansPresent(judge: Judge, defs: Definitions, fuel: nat, schema: Json, i: nat, names: seq<string>, v: Json)
    requires schema.Obj? && i < |schema.fields| && schema.fields[i] == Field(REQUIRED, Arr(Strings(names)))
    ensures Holds(judge, defs, false, fuel, schema, i, v) <==> (v.Obj? ==> forall name | name in names :: Has(v.fields, name))
  {
    KeywordNames();
    var strings := Strings(names);
    if v.Obj? && Holds(judge, defs, false, fuel, schema, i, v) {
      forall name | name in names ensures Has(v.fields, name) {
        var k :| 0 <= k < |names| && names[k] == name;
        assert strings[k] == Str(name);
      }
    }
  }

  lemma NamesKept(schema: Json)
    requires schema.Obj? && SchemaOk(schema)
    ensures PropertyNames(Strictify(schema).fields) == PropertyNames(schema.fields)
  {
    StrictifyGet(schema.fields, PROPERTIES);
    var at := Find(schema.fields, PROPERTIES);
    if at.Some? {
      KeywordNames();
      assert KeywordOk(schema, at.value);
      MapRewritten(schema.fields[at.value].value);
    }
  }

  lemma KeywordNames()
    ensures KeywordOf("$defs") == DefsKw && KeywordOf(PROPERTIES) == PropertiesKw
    ensures KeywordOf(REQUIRED) == RequiredKw && KeywordOf(ADDITIONAL) == AdditionalKw
  {
    assert |"$defs"| == 5 && |"$ref"| == 4 && |"items"| == 5 && "items"[0] == 'i' && |"anyOf"| == 5 && "anyOf"[0] == 'a'
      && |"allOf"| == 5 && "allOf"[0] == 'a' && |"oneOf"| == 5 && "oneOf"[0] == 'o';
  }

  lemma DefsRewritten(root: Json)
    requires SchemaOk(root) && root.Obj?
    ensures Get(Strictify(root).fields, "$defs").Some? <==> Get(root.fields, "$defs").Some?
    ensures Get(root.fields, "$defs").Some? ==>
              && MapOk(Get(root.fields, "$defs").value)
              && Get(Strictify(root).fields, "$defs") == Some(Strictify(Get(root.fields, "$defs").value))
  {
    assert |"$defs"| == 5 && |ADDITIONAL| == 20 && |REQUIRED| == 8;
    StrictifyGet(root.fields, "$defs");
    var at := Find(root.fields, "$defs");
    if at.Some? {
      KeywordNames();
      assert KeywordOk(root, at.value);
    }
  }

  function StrictDefinitions(defs: Definitions): Definitions { map ref | ref in defs :: Strictify(defs[ref]) }

  ghost predicate DefinitionsOk(defs: Definitions) { forall ref | ref in defs :: SchemaOk(defs[ref]) }

  lemma {:induction false} NamedRewritten(fields: seq<Field>)
    ensures Named(StrictFields(fields)) == StrictDefinitions(Named(fields))
  {
    if fields != [] {
      NamedRewritten(fields[1..]);
      assert StrictFields(fields)[1..] == StrictFields(fields[1..]);
      OneMoreRewritten(Named(fields[1..]), DEFS_PREFIX + fields[0].key, fields[0].value);
    }
  }

  lemma OneMoreRewritten(defs: Definitions, ref: string, schema: Json)
    ensures StrictDefinitions(defs[ref := schema]) == StrictDefinitions(defs)[ref := Strictify(schema)]
  {
  }

  lemma {:induction false} NamedOk(fields: seq<Field>)
    requires forall k | 0 <= k < |fields| :: SchemaOk(fields[k].value)
    ensures DefinitionsOk(Named(fields))
  {
    if fields != [] {
      assert forall k | 1 <= k < |fields| :: fields[k] == fields[1..][k - 1];
      NamedOk(fields[1..]);
    }
  }

  lemma DefinitionsRewritten(root: Json)
    requires SchemaOk(root)
    ensures DefinitionsOk(DefinitionsOf(root))
    ensures DefinitionsOf(Strictify(root)) == StrictDefinitions(DefinitionsOf(root))
  {
    if root.Obj? {
      DefsRewritten(root);
      if Get(root.fields, "$defs").Some? {
        MapRewritten(Get(root.fields, "$defs").value);
        NamedRewritten(Get(root.fields, "$defs").value.fields);
        NamedOk(Get(root.fields, "$defs").value.fields);
      }
    }
  }

  /** The i-th keyword of `schema` sits at the same place in the rewritten schema. */
  ghost predicate Matched(defs: Definitions, schema: Json, i: nat) {
    && DefinitionsOk(defs) && SchemaOk(schema) && schema.Obj? && i < |schema.fields| && KeywordOk(schema, i)
    && i < |Strictify(schema).fields|
    && Strictify(schema).fields[i] == Field(schema.fields[i].key, Strictify(schema.fields[i].value))
  }

  /** ... and says there what the original says when objects must be exact. */
  ghost predicate Same(judge: Judge, defs: Definitions, fuel: nat, schema: Json, i: nat, v: Json)
    requires Matched(defs, schema, i)
  {
    Holds(judge, StrictDefinitions(defs), false, fuel, Strictify(schema), i, v) <==>
    Holds(judge, defs, true, fuel, schema, i, v)
  }

  /** Exactly what strictifying does: a value is valid under the rewritten schema iff it is valid under
      the original one with every object held to exactly the properties its node lists. */
  lemma {:induction false} StrictifyMeansExact(judge: Judge, defs: Definitions, fuel: nat, schema: Json, v: Json)
    requires DefinitionsOk(defs) && SchemaOk(schema)
    ensures Valid(judge, StrictDefinitions(defs), false, fuel, Strictify(schema), v) <==>
            Valid(judge, defs, true, fuel, schema, v)
    decreases fuel, schema, 1
  {
    if schema.Obj? {
      forall i | 0 <= i < |schema.fields| && !Overwritten(schema.fields, i)
        ensures Matched(defs, schema, i) && Same(judge, defs, fuel, schema, i, v)
      {
        assert KeywordOk(schema, i);
        KeywordRewritten(schema, i);
        KeywordSame(judge, defs, fuel, schema, i, v);
      }
      if !ObjectNode(schema.fields) {
        OpenSame(judge, defs, fuel, schema, v);
      } else if Valid(judge, defs, true, fuel, schema, v) {
        ExactToSealed(judge, defs, fuel, schema, v);
      } else if Valid(judge, StrictDefinitions(defs), false, fuel, Strictify(schema), v) {
        SealedToExact(judge, defs, fuel, schema, v);
      }
    }
  }

  predicate Overwritten(fields: seq<Field>, i: nat)
    requires i < |fields|
  {
    ObjectNode(fields) && fields[i].key in {ADDITIONAL, REQUIRED}
  }

  /** At an object node the two new keywords say what `exact` says, and the two they replace said less. */
  lemma SealedToExact(judge: Judge, defs: Definitions, fuel: nat, schema: Json, v: Json)
    requires DefinitionsOk(defs) && SchemaOk(schema) && schema.Obj? && ObjectNode(schema.fields)
    requires forall i | 0 <= i < |schema.fields| && !Overwritten(schema.fields, i) ::
               Matched(defs, schema, i) && Same(judge, defs, fuel, schema, i, v)
    requires Valid(judge, StrictDefinitions(defs), false, fuel, Strictify(schema), v)
    ensures Valid(judge, defs, true, fuel, schema, v)
  {
    var fields, out, names := schema.fields, Strictify(schema).fields, PropertyNames(schema.fields);
    NamesKept(schema);
    SealedGets(StrictFields(fields), names, PROPERTIES);
    var a, r := Find(out, ADDITIONAL).value, Find(out, REQUIRED).value;
    ClosedMeansListed(judge, StrictDefinitions(defs), fuel, Strictify(schema), a, v);
    RequiredMeansPresent(judge, StrictDefinitions(defs), fuel, Strictify(schema), r, names, v);
    assert ExactlyListed(fields, v);
    forall i | 0 <= i < |fields| ensures Holds(judge, defs, true, fuel, schema, i, v) {
      if Overwritten(fields, i) { ReplacedHolds(judge, defs, fuel, schema, i, v); }
    }
  }

  lemma ExactToSealed(judge: Judge, defs: Definitions, fuel: nat, schema: Json, v: Json)
    requires DefinitionsOk(defs) && SchemaOk(schema) && schema.Obj? && ObjectNode(schema.fields)
    requires forall i | 0 <= i < |schema.fields| && !Overwritten(schema.fields, i) ::
               Matched(defs, schema, i) && Same(judge, defs, fuel, schema, i, v)
    requires Valid(judge, defs, true, fuel, schema, v)
    ensures Valid(judge, StrictDefinitions(defs), false, fuel, Strictify(schema), v)
  {
    var fields, out, names := schema.fields, Strictify(schema).fields, PropertyNames(schema.fields);
    NamesKept(schema);
    assert Distinct(StrictFields(fields));
    forall i | 0 <= i < |out| ensures Holds(judge, StrictDefinitions(defs), false, fuel, Strictify(schema), i, v) {
      SealedFields(StrictFields(fields), names, i);
      if out[i] == Field(ADDITIONAL, Bool(false)) {
        ClosedMeansListed(judge, StrictDefinitions(defs), fuel, Strictify(schema), i, v);
      } else if out[i] == Field(REQUIRED, Arr(Strings(names))) {
        RequiredMeansPresent(judge, StrictDefinitions(defs), fuel, Strictify(schema), i, names, v);
      } else {
        assert Same(judge, defs, fuel, schema, i, v);
      }
    }
  }

  /** A node that is not rewritten keeps its keywords. */
  lemma OpenSame(judge: Judge, defs: Definitions, fuel: nat, schema: Json, v: Json)
    requires schema.Obj? && !ObjectNode(schema.fields)
    requires forall i | 0 <= i < |schema.fields| :: Matched(defs, schema, i) && Same(judge, defs, fuel, schema, i, v)
    ensures Valid(judge, StrictDefinitions(defs), false, fuel, Strictify(schema), v) <==>
            Valid(judge, defs, true, fuel, schema, v)
  {
    assert |Strictify(schema).fields| == |schema.fields|;
    forall i | 0 <= i < |schema.fields|
      ensures Holds(judge, StrictDefinitions(defs), false, fuel, Strictify(schema), i, v) <==>
              Holds(judge, defs, true, fuel, schema, i, v)
    {
      assert Same(judge, defs, fuel, schema, i, v);
    }
  }

  /** What the overwritten keywords asked for follows from exactness. */
  lemma ReplacedHolds(judge: Judge, defs: Definitions, fuel: nat, schema: Json, i: nat, v: Json)
    requires SchemaOk(schema) && schema.Obj? && i < |schema.fields| && Overwritten(schema.fields, i)
    requires ExactlyListed(schema.fields, v)
    ensures Holds(judge, defs, true, fuel, schema, i, v)
  {
    KeywordNames();
    assert KeywordOk(schema, i);
  }

  lemma {:induction false} KeywordSame(judge: Judge, defs: Definitions, fuel: nat, schema: Json, i: nat, v: Json)
    requires Matched(defs, schema, i)
    ensures Same(judge, defs, fuel, schema, i, v)
    decreases fuel, schema, 0, 2
  {
    match KeywordOf(schema.fields[i].key)
    case PropertiesKw => PropertiesSame(judge, defs, fuel, schema, i, v);
    case AdditionalKw => AdditionalSame(judge, defs, fuel, schema, i, v);
    case ItemsKw => ItemsSame(judge, defs, fuel, schema, i, v);
    case AnyOfKw => BranchesSame(judge, defs, fuel, schema, i, v);
    case AllOfKw => BranchesSame(judge, defs, fuel, schema, i, v);
    case OneOfKw => BranchesSame(judge, defs, fuel, schema, i, v);
    case NotKw => NotSame(judge, defs, fuel, schema, i, v);
    case RefKw => RefSame(judge, defs, fuel, schema, i, v);
    case TypeKw => StringsSame(judge, defs, fuel, schema, i, v);
    case RequiredKw => StringsSame(judge, defs, fuel, schema, i, v);
    case _ => PlainSame(judge, defs, fuel, schema, i, v);
  }

  /** Keywords without subschemas are not rewritten at all. */
  lemma PlainSame(judge: Judge, defs: Definitions, fuel: nat, schema: Json, i: nat, v: Json)
    requires Matched(defs, schema, i) && KeywordOf(schema.fields[i].key) in {DefsKw, NoteKw, OtherKw}
    ensures Same(judge, defs, fuel, schema, i, v)
  {
    SelfContained(judge, StrictDefinitions(defs), false, fuel, Strictify(schema), i, v);
    SelfContained(judge, defs, true, fuel, schema, i, v);
  }

  /** These mean the same under all definitions. */
  lemma SelfContained(judge: Judge, defs: Definitions, exact: bool, fuel: nat, schema: Json, i: nat, v: Json)
    requires schema.Obj? && i < |schema.fields| && KeywordOf(schema.fields[i].key) in {DefsKw, NoteKw, OtherKw}
    ensures Holds(judge, defs, exact, fuel, schema, i, v) <==>
              (KeywordOf(schema.fields[i].key) == OtherKw ==> judge(schema.fields[i].key, schema.fields[i].value, v))
  {
  }

  lemma StringsSame(judge: Judge, defs: Definitions, fuel: nat, schema: Json, i: nat, v: Json)
    requires Matched(defs, schema, i) && KeywordOf(schema.fields[i].key) in {TypeKw, RequiredKw}
    ensures Same(judge, defs, fuel, schema, i, v)
    decreases fuel, schema, 0, 0
  {
    var kw := schema.fields[i].value;
    if kw.Arr? { StringsFixed(kw.items); }
  }

  lemma {:induction false} PropertiesSame(judge: Judge, defs: Definitions, fuel: nat, schema: Json, i: nat, v: Json)
    requires Matched(defs, schema, i) && KeywordOf(schema.fields[i].key) == PropertiesKw
    ensures Same(judge, defs, fuel, schema, i, v)
    decreases fuel, schema, 0, 0
  {
    var kw := schema.fields[i].value;
    MapRewritten(kw);
    var sub := StrictFields(kw.fields);
    if v.Obj? {
      forall k | 0 <= k < |kw.fields| && Has(v.fields, kw.fields[k].key)
        ensures Valid(judge, StrictDefinitions(defs), false, fuel, sub[k].value, Get(v.fields, sub[k].key).value) <==>
                Valid(judge, defs, true, fuel, kw.fields[k].value, Get(v.fields, kw.fields[k].key).value)
      {
        StrictifyMeansExact(judge, defs, fuel, kw.fields[k].value, Get(v.fields, kw.fields[k].key).value);
      }
    }
  }

  lemma {:induction false} AdditionalSame(judge: Judge, defs: Definitions, fuel: nat, schema: Json, i: nat, v: Json)
    requires Matched(defs, schema, i) && KeywordOf(schema.fields[i].key) == AdditionalKw
    ensures Same(judge, defs, fuel, schema, i, v)
    decreases fuel, schema, 0, 0
  {
    var kw := schema.fields[i].value;
    NamesKept(schema);
    if v.Obj? {
      forall k | 0 <= k < |v.fields|
        ensures Valid(judge, StrictDefinitions(defs), false, fuel, Strictify(kw), v.fields[k].value) <==>
                Valid(judge, defs, true, fuel, kw, v.fields[k].value)
      {
        StrictifyMeansExact(judge, defs, fuel, kw, v.fields[k].value);
      }
    }
  }

  lemma {:induction false} ItemsSame(judge: Judge, defs: Definitions, fuel: nat, schema: Json, i: nat, v: Json)
    requires Matched(defs, schema, i) && KeywordOf(schema.fields[i].key) == ItemsKw
    ensures Same(judge, defs, fuel, schema, i, v)
    decreases fuel, schema, 0, 0
  {
    var kw := schema.fields[i].value;
    if v.Arr? {
      forall k | 0 <= k < |v.items|
        ensures Valid(judge, StrictDefinitions(defs), false, fuel, Strictify(kw), v.items[k]) <==>
                Valid(judge, defs, true, fuel, kw, v.items[k])
      {
        StrictifyMeansExact(judge, defs, fuel, kw, v.items[k]);
      }
    }
  }

  /** Branch keywords agree when their branches do. */
  lemma BranchesAgree(judge: Judge, defs: Definitions, fuel: nat, schema: Json, strict: Json, i: nat, v: Json)
    requires schema.Obj? && strict.Obj? && i < |schema.fields| && i < |strict.fields|
    requires strict.fields[i].key == schema.fields[i].key && KeywordOf(schema.fields[i].key) in {AnyOfKw, AllOfKw, OneOfKw}
    requires schema.fields[i].value.Arr? && strict.fields[i].value.Arr?
    requires |strict.fields[i].value.items| == |schema.fields[i].value.items|
    requires forall k | 0 <= k < |schema.fields[i].value.items| ::
               Valid(judge, StrictDefinitions(defs), false, fuel, strict.fields[i].value.items[k], v) <==>
               Valid(judge, defs, true, fuel, schema.fields[i].value.items[k], v)
    ensures Holds(judge, StrictDefinitions(defs), false, fuel, strict, i, v) <==> Holds(judge, defs, true, fuel, schema, i, v)
  {
  }

  lemma {:induction false} BranchesSame(judge: Judge, defs: Definitions, fuel: nat, schema: Json, i: nat, v: Json)
    requires Matched(defs, schema, i) && KeywordOf(schema.fields[i].key) in {AnyOfKw, AllOfKw, OneOfKw}
    ensures Same(judge, defs, fuel, schema, i, v)
    decreases fuel, schema, 0, 0
  {
    var kw := schema.fields[i].value;
    forall k | 0 <= k < |kw.items|
      ensures Valid(judge, StrictDefinitions(defs), false, fuel, StrictItems(kw.items)[k], v) <==>
              Valid(judge, defs, true, fuel, kw.items[k], v)
    {
      StrictifyMeansExact(judge, defs, fuel, kw.items[k], v);
    }
    BranchesAgree(judge, defs, fuel, schema, Strictify(schema), i, v);
  }

  lemma {:induction false} NotSame(judge: Judge, defs: Definitions, fuel: nat, schema: Json, i: nat, v: Json)
    requires Matched(defs, schema, i) && KeywordOf(schema.fields[i].key) == NotKw
    ensures Same(judge, defs, fuel, schema, i, v)
    decreases fuel, schema, 0, 0
  {
    StrictifyMeansExact(judge, defs, fuel, schema.fields[i].value, v);
  }

  /** Validity under what a reference resolves to. */
  ghost predicate Followed(judge: Judge, defs: Definitions, exact: bool, fuel: nat, ref: string, v: Json) {
    ref in defs && Valid(judge, defs, exact, fuel, defs[ref], v)
  }

  lemma RefMeans(judge: Judge, defs: Definitions, exact: bool, fuel: nat, schema: Json, i: nat, ref: string, v: Json)
    requires schema.Obj? && i < |schema.fields| && KeywordOf(schema.fields[i].key) == RefKw
    requires schema.fields[i].value == Str(ref)
    ensures Holds(judge, defs, exact, fuel, schema, i, v) <==> (fuel > 0 && Followed(judge, defs, exact, fuel - 1, ref, v))
  {
  }

  lemma {:induction false} FollowedSame(judge: Judge, defs: Definitions, fuel: nat, ref: string, v: Json)
    requires DefinitionsOk(defs)
    ensures Followed(judge, StrictDefinitions(defs), false, fuel, ref, v) <==> Followed(judge, defs, true, fuel, ref, v)
    decreases fuel + 1, Str(ref), 0
  {
    if ref in defs {
      StrictifyMeansExact(judge, defs, fuel, defs[ref], v);
    }
  }

  lemma {:induction false} RefSameAt(judge: Judge, defs: Definitions, fuel: nat, schema: Json, strict: Json, i: nat, ref: string, v: Json)
    requires DefinitionsOk(defs) && schema.Obj? && strict.Obj? && i < |schema.fields| && i < |strict.fields|
    requires KeywordOf(schema.fields[i].key) == RefKw && schema.fields[i].value == Str(ref) && strict.fields[i] == schema.fields[i]
    ensures Holds(judge, StrictDefinitions(defs), false, fuel, strict, i, v) <==> Holds(judge, defs, true, fuel, schema, i, v)
    decreases fuel, schema, 0, 0
  {
    RefMeans(judge, StrictDefinitions(defs), false, fuel, strict, i, ref, v);
    RefMeans(judge, defs, true, fuel, schema, i, ref, v);
    if fuel > 0 {
      FollowedSame(judge, defs, fuel - 1, ref, v);
    }
  }

  lemma {:induction false} RefSame(judge: Judge, defs: Definitions, fuel: nat, schema: Json, i: nat, v: Json)
    requires Matched(defs, schema, i) && KeywordOf(schema.fields[i].key) == RefKw
    ensures Same(judge, defs, fuel, schema, i, v)
    decreases fuel, schema, 0, 1
  {
    RefSameAt(judge, defs, fuel, schema, Strictify(schema), i, schema.fields[i].value.s, v);
  }

  ghost predicate AcceptsFrom(judge: Judge, exact: bool, schema: Json, v: Json, n: nat) {
    forall fuel: nat :: fuel >= n ==> Valid(judge, DefinitionsOf(schema), exact, fuel, schema, v)
  }

  /** A complete schema accepts a value when it does so for all sufficient fuel: running out of fuel fails a
      reference, and under `not` and `oneOf` that alone must not make a value pass. */
  ghost predicate Accepts(judge: Judge, exact: bool, schema: Json, v: Json) {
    exists n: nat :: AcceptsFrom(judge, exact, schema, v, n)
  }

  /** The schema codex_cli writes to disk accepts exactly the values the given schema accepts with every
      object exact. */
  lemma StrictSchemaMeansExact(judge: Judge, schema: Json, v: Json)
    requires SchemaOk(schema)
    ensures Accepts(judge, false, Strictify(schema), v) <==> Accepts(judge, true, schema, v)
  {
    DefinitionsRewritten(schema);
    var defs := DefinitionsOf(schema);
    forall fuel: nat
      ensures Valid(judge, StrictDefinitions(defs), false, fuel, Strictify(schema), v) <==> Valid(judge, defs, true, fuel, schema, v)
    {
      StrictifyMeansExact(judge, defs, fuel, schema, v);
    }
    forall n: nat ensures AcceptsFrom(judge, false, Strictify(schema), v, n) <==> AcceptsFrom(judge, true, schema, v, n) {}
  }

  /** {"$defs": {"A": true}, "not": {"$ref": "#/$defs/A"}} accepts nothing, although without fuel every value
      passes it. */
  lemma NotOverReferenceAcceptsNothing(judge: Judge, exact: bool, v: Json)
    ensures var schema := Obj([Field("$defs", Obj([Field("A", Bool(true))])), Field("not", Obj([Field("$ref", Str("#/$defs/A"))]))]);
            && SchemaOk(schema)
            && Valid(judge, DefinitionsOf(schema), exact, 0, schema, v)
            && !Accepts(judge, exact, schema, v)
  {
    var defs, ref := Obj([Field("A", Bool(true))]), Obj([Field("$ref", Str("#/$defs/A"))]);
    var schema := Obj([Field("$defs", defs), Field("not", ref)]);
    NotOverReferenceIsOk(schema, defs, ref, "#/$defs/A");
    DefinitionA(schema, defs, ref);
    var env := DefinitionsOf(schema);
    NotOverReference(judge, env, exact, 0, schema, defs, ref, "#/$defs/A", v);
    forall n: nat ensures !AcceptsFrom(judge, exact, schema, v, n) {
      NotOverReference(judge, env, exact, n + 1, schema, defs, ref, "#/$defs/A", v);
    }
  }

  lemma NotOverReferenceIsOk(schema: Json, defs: Json, ref: Json, name: string)
    requires schema == Obj([Field("$defs", defs), Field("not", ref)]) && ref == Obj([Field("$ref", Str(name))])
    requires defs == Obj([Field("A", Bool(true))])
    ensures SchemaOk(schema)
  {
    NotAndRefNames();
    assert !Has(defs.fields, PROPERTIES);
    assert MapOk(defs) && KeywordOk(ref, 0) && SchemaOk(ref);
    assert KeywordOk(schema, 0) && KeywordOk(schema, 1);
  }

  /** The negation of a reference to what accepts everything passes only for want of fuel. */
  lemma NotOverReference(judge: Judge, env: Definitions, exact: bool, fuel: nat, schema: Json, defs: Json, ref: Json, name: string, v: Json)
    requires schema == Obj([Field("$defs", defs), Field("not", ref)]) && ref == Obj([Field("$ref", Str(name))])
    requires name in env && env[name] == Bool(true)
    ensures Valid(judge, env, exact, fuel, schema, v) <==> fuel == 0
  {
    ReferencePasses(judge, env, exact, fuel, ref, name, v);
    DefsAndNot(judge, env, exact, fuel, schema, defs, ref, v);
  }

  lemma NotHolds(judge: Judge, env: Definitions, exact: bool, fuel: nat, schema: Json, i: nat, v: Json)
    requires schema.Obj? && i < |schema.fields| && KeywordOf(schema.fields[i].key) == NotKw
    ensures Holds(judge, env, exact, fuel, schema, i, v) <==> !Valid(judge, env, exact, fuel, schema.fields[i].value, v)
  {
  }

  lemma TwoOpenKeywords(judge: Judge, env: Definitions, exact: bool, fuel: nat, schema: Json, v: Json)
    requires schema.Obj? && |schema.fields| == 2
    requires forall i | 0 <= i < 2 :: schema.fields[i].key != "type" && schema.fields[i].key != PROPERTIES
    requires KeywordOf(schema.fields[0].key) == DefsKw
    ensures Valid(judge, env, exact, fuel, schema, v) <==> Holds(judge, env, exact, fuel, schema, 1, v)
  {
    assert !Has(schema.fields, "type") && !Has(schema.fields, PROPERTIES);
    assert Holds(judge, env, exact, fuel, schema, 0, v);
  }

  lemma DefsAndNot(judge: Judge, env: Definitions, exact: bool, fuel: nat, schema: Json, defs: Json, kw: Json, v: Json)
    requires schema == Obj([Field("$defs", defs), Field("not", kw)])
    ensures Valid(judge, env, exact, fuel, schema, v) <==> !Valid(judge, env, exact, fuel, kw, v)
  {
    NotAndRefNames();
    TwoOpenKeywords(judge, env, exact, fuel, schema, v);
    NotHolds(judge, env, exact, fuel, schema, 1, v);
  }

  lemma ReferencePasses(judge: Judge, env: Definitions, exact: bool, fuel: nat, ref: Json, name: string, v: Json)
    requires ref == Obj([Field("$ref", Str(name))]) && name in env && env[name] == Bool(true)
    ensures Valid(judge, env, exact, fuel, ref, v) <==> fuel > 0
  {
    NotAndRefNames();
    assert !ObjectNode(ref.fields);
    assert Holds(judge, env, exact, fuel, ref, 0, v) <==> fuel > 0;
  }

  lemma DefinitionA(schema: Json, defs: Json, ref: Json)
    requires schema == Obj([Field("$defs", defs), Field("not", ref)]) && defs == Obj([Field("A", Bool(true))])
    ensures "#/$defs/A" in DefinitionsOf(schema) && DefinitionsOf(schema)["#/$defs/A"] == Bool(true)
  {
    assert Get(schema.fields, "$defs") == Some(defs);
    assert DEFS_PREFIX + "A" == "#/$defs/A";
    assert defs.fields[1..] == [];
    assert Named(defs.fields) == map["#/$defs/A" := Bool(true)];
  }

  lemma NotAndRefNames()
    ensures KeywordOf("$defs") == DefsKw && KeywordOf("not") == NotKw && KeywordOf("$ref") == RefKw
    ensures "$defs" != "type" && "not" != "type" && "$ref" != "type" && "A" != PROPERTIES && "not" != "$defs"
    ensures "$defs" != PROPERTIES && "not" != PROPERTIES && "$ref" != PROPERTIES
  {
    KeywordNames();
    NotAndType();
    assert |"A"| == 1 && |"$ref"| == 4 && |"not"| == 3 && |"$defs"| == 5 && |PROPERTIES| == 10;
    assert "$ref"[0] == '$' && "type"[0] == 't' && |"items"| == 5;
  }

  // ---- what exactness does not give: acceptance by the original schema ----

  /** {"type": "object"} accepts {"a": null}; its rewrite is closed and does not. */
  lemma ClosedRejects(judge: Judge, fuel: nat, inner: Json, v: Json)
    requires inner == Obj([Field("type", Str("object"))]) && v == Obj([Field("a", Null)])
    ensures Valid(judge, map[], false, fuel, inner, v) && !Valid(judge, map[], false, fuel, Strictify(inner), v)
  {
    NotAndType();
    assert Holds(judge, map[], false, fuel, inner, 0, v);
    assert ObjectNode(inner.fields) && PropertyNames(inner.fields) == [] by {
      assert !Has(inner.fields, PROPERTIES);
    }
    SealedGets(StrictFields(inner.fields), [], "type");
    var out := Strictify(inner);
    assert out.fields == Sealed(StrictFields(inner.fields), []);
    var a := Find(out.fields, ADDITIONAL).value;
    assert PropertyNames(out.fields) == [] by { StrictifyGet(inner.fields, PROPERTIES); }
    ClosedMeansListed(judge, map[], fuel, out, a, v);
    assert v.fields[0].key !in PropertyNames(out.fields);
    assert !Holds(judge, map[], false, fuel, out, a, v);
  }

  lemma OneKeyword(key: string, kw: Json)
    requires key != "type" && key != PROPERTIES
    ensures Strictify(Obj([Field(key, kw)])) == Obj([Field(key, Strictify(kw))])
  {
    var fields := [Field(key, kw)];
    assert !ObjectNode(fields);
    assert StrictFields(fields) == [Field(key, Strictify(kw))];
  }

  lemma NotMeans(judge: Judge, fuel: nat, kw: Json, v: Json)
    ensures Valid(judge, map[], false, fuel, Obj([Field("not", kw)]), v) <==> !Valid(judge, map[], false, fuel, kw, v)
  {
    NotAndType();
    var schema := Obj([Field("not", kw)]);
    assert Holds(judge, map[], false, fuel, schema, 0, v) <==> !Valid(judge, map[], false, fuel, kw, v);
  }

  lemma OneOfTrueMeans(judge: Judge, fuel: nat, other: Json, v: Json)
    ensures Valid(judge, map[], false, fuel, Obj([Field("oneOf", Arr([Bool(true), other]))]), v)
       <==> !Valid(judge, map[], false, fuel, other, v)
  {
    NotAndType();
    var schema, items := Obj([Field("oneOf", Arr([Bool(true), other]))]), [Bool(true), other];
    assert Valid(judge, map[], false, fuel, items[0], v);
    assert items[1] == other;
    assert Holds(judge, map[], false, fuel, schema, 0, v) <==> !Valid(judge, map[], false, fuel, other, v);
  }

  /** `not` turns narrowing into widening: {"not": {"type": "object"}} rejects {"a": null}, but
      its rewrite, whose inner object node is closed, accepts it. */
  lemma NotWidens(judge: Judge, fuel: nat)
    ensures var schema := Obj([Field("not", Obj([Field("type", Str("object"))]))]);
            var v := Obj([Field("a", Null)]);
            !Valid(judge, map[], false, fuel, schema, v) && Valid(judge, map[], false, fuel, Strictify(schema), v)
  {
    var inner, v := Obj([Field("type", Str("object"))]), Obj([Field("a", Null)]);
    NotAndType();
    ClosedRejects(judge, fuel, inner, v);
    OneKeyword("not", inner);
    NotMeans(judge, fuel, inner, v);
    NotMeans(judge, fuel, Strictify(inner), v);
  }

  /** So does `oneOf`: {"oneOf": [true, {"type": "object"}]} rejects {"a": null}, which fits both branches, but
      its rewrite accepts it, because only one branch is left. */
  lemma OneOfWidens(judge: Judge, fuel: nat)
    ensures var schema := Obj([Field("oneOf", Arr([Bool(true), Obj([Field("type", Str("object"))])]))]);
            var v := Obj([Field("a", Null)]);
            !Valid(judge, map[], false, fuel, schema, v) && Valid(judge, map[], false, fuel, Strictify(schema), v)
  {
    var inner, v := Obj([Field("type", Str("object"))]), Obj([Field("a", Null)]);
    NotAndType();
    ClosedRejects(judge, fuel, inner, v);
    OneKeyword("oneOf", Arr([Bool(true), inner]));
    assert StrictItems([Bool(true), inner]) == [Bool(true), Strictify(inner)];
    OneOfTrueMeans(judge, fuel, inner, v);
    OneOfTrueMeans(judge, fuel, Strictify(inner), v);
  }

  lemma NotAndType()
    ensures KeywordOf("not") == NotKw && KeywordOf("oneOf") == OneOfKw && KeywordOf("type") == TypeKw
    ensures "not" != "type" && "not" != PROPERTIES && "type" != PROPERTIES && "oneOf" != "type" && "oneOf" != PROPERTIES
  {
    assert "items"[0] == 'i' && "anyOf"[0] == 'a' && "allOf"[0] == 'a' && "oneOf"[0] == 'o';
    assert |"not"| == 3 && |"type"| == 4 && |PROPERTIES| == 10 && |REQUIRED| == 8 && |ADDITIONAL| == 20
      && |"items"| == 5 && |"anyOf"| == 5 && |"allOf"| == 5 && |"oneOf"| == 5;
  }

  /** The keywords of a sealed node without properties let the empty object pass. */
  lemma EmptyPasses(judge: Judge, fuel: nat, schema: Json, i: nat)
    requires schema.Obj? && i < |schema.fields|
    requires schema.fields[i] in {Field("type", Str("object")), Field(ADDITIONAL, Bool(false)), Field(REQUIRED, Arr([]))}
    ensures Holds(judge, map[], false, fuel, schema, i, Obj([]))
  {
    NotAndType();
    KeywordNames();
  }

  /** A requirement outside the properties is dropped: {"type": "object", "required": ["a"]} rejects
      the empty object, but its rewrite requires nothing. */
  lemma RequiredOutsideWidens(judge: Judge, fuel: nat)
    ensures var schema := Obj([Field("type", Str("object")), Field(REQUIRED, Arr([Str("a")]))]);
            !Valid(judge, map[], false, fuel, schema, Obj([])) && Valid(judge, map[], false, fuel, Strictify(schema), Obj([]))
  {
    var fields := [Field("type", Str("object")), Field(REQUIRED, Arr([Str("a")]))];
    var schema, v := Obj(fields), Obj([]);
    KeywordNames();
    assert !Has(v.fields, "a") && Arr([Str("a")]).items[0] == Str("a");
    assert !Holds(judge, map[], false, fuel, schema, 1, v);
    RequirementDropped(judge, fuel, fields);
  }

  /** Sealing two fields, the second of which is the old requirement. */
  lemma SealedTwo(inner: seq<Field>, i: nat)
    requires |inner| == 2 && inner[0] == Field("type", Str("object")) && inner[1].key == REQUIRED && Distinct(inner)
    requires i < |Sealed(inner, [])|
    ensures Sealed(inner, [])[i] in {Field("type", Str("object")), Field(ADDITIONAL, Bool(false)), Field(REQUIRED, Arr([]))}
  {
    SealedFields(inner, [], i);
    assert Strings([]) == [];
  }

  lemma RequirementDropped(judge: Judge, fuel: nat, fields: seq<Field>)
    requires |fields| == 2 && fields[0] == Field("type", Str("object")) && fields[1].key == REQUIRED
    ensures Valid(judge, map[], false, fuel, Strictify(Obj(fields)), Obj([]))
  {
    NotAndType();
    assert !Has(fields, PROPERTIES) && PropertyNames(fields) == [];
    assert Find(fields, "type") == Some(0) && ObjectNode(fields);
    var inner, out := StrictFields(fields), Strictify(Obj(fields));
    assert inner[0] == fields[0] && inner[1].key == REQUIRED && |"type"| == 4 && |REQUIRED| == 8;
    forall i | 0 <= i < |out.fields| ensures Holds(judge, map[], false, fuel, out, i, Obj([])) {
      SealedTwo(inner, i);
      EmptyPasses(judge, fuel, out, i);
    }
  }
}
