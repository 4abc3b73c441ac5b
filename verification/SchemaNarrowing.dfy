/** Strictifying narrows every schema without oneOf and not, also where the rewrite mistakes a map of
    properties or definitions for an object node and adds entries to it: the additions accept nothing. */
module SchemaNarrowing {
  import opened Wrappers
  import opened JsonValues
  import opened StrictSchema
  import opened SchemaValidity

  /** Schemas whose object nodes require only names among their properties. Unlike SchemaOk, a property or
      definition may have any name. */
  ghost predicate Plain(schema: Json)
    decreases schema, 2
  {
    match schema
    case Bool(_) => true
    case Obj(fields) => Distinct(fields) && forall i | 0 <= i < |fields| :: PlainKeyword(schema, i)
    case _ => false
  }

  ghost predicate PlainMap(map_: Json)
    decreases map_, 0
  {
    map_.Obj? && Distinct(map_.fields) && forall k | 0 <= k < |map_.fields| :: Plain(map_.fields[k].value)
  }

  ghost predicate PlainKeyword(schema: Json, i: nat)
    requires schema.Obj? && i < |schema.fields|
    decreases schema, 1
  {
    var kw := schema.fields[i].value;
    match KeywordOf(schema.fields[i].key)
    case TypeKw => kw.Str? || (kw.Arr? && forall k | 0 <= k < |kw.items| :: kw.items[k].Str?)
    case PropertiesKw => PlainMap(kw)
    case DefsKw => PlainMap(kw)
    case RequiredKw =>
      && kw.Arr? && (forall k | 0 <= k < |kw.items| :: kw.items[k].Str?)
      && (ObjectNode(schema.fields) ==> forall k | 0 <= k < |kw.items| :: kw.items[k].s in PropertyNames(schema.fields))
    case AdditionalKw => Plain(kw)
    case ItemsKw => Plain(kw)
    case AnyOfKw => kw.Arr? && forall k | 0 <= k < |kw.items| :: Plain(kw.items[k])
    case AllOfKw => kw.Arr? && forall k | 0 <= k < |kw.items| :: Plain(kw.items[k])
    case RefKw => kw.Str?
    case NoteKw => true
    case ContextKw => false
    case OtherKw => Strictify(kw) == kw
    case OneOfKw => false
    case NotKw => false
  }

  /** What the rewrite may add to a map: values that no instance satisfies as a schema. */
  predicate Dead(j: Json) { j == Bool(false) || j.Arr? }

  /** Every entry of a rewritten map is the rewritten entry of the same place, or dead. */
  lemma MapEntry(map_: Json, k: nat)
    requires map_.Obj? && Distinct(map_.fields)
    ensures |map_.fields| <= |Strictify(map_).fields|
    ensures k < |map_.fields| ==> Strictify(map_).fields[k].key == map_.fields[k].key
    ensures k < |Strictify(map_).fields| ==>
              || Dead(Strictify(map_).fields[k].value)
              || (k < |map_.fields| && Strictify(map_).fields[k] == Field(map_.fields[k].key, Strictify(map_.fields[k].value)))
  {
    var inner := StrictFields(map_.fields);
    assert Distinct(inner);
    if ObjectNode(map_.fields) {
      SealedEntry(inner, PropertyNames(map_.fields), k);
    }
  }

  lemma SealedEntry(inner: seq<Field>, names: seq<string>, k: nat)
    requires Distinct(inner)
    ensures |inner| <= |Sealed(inner, names)|
    ensures k < |inner| ==> Sealed(inner, names)[k].key == inner[k].key
    ensures k < |Sealed(inner, names)| ==>
              Dead(Sealed(inner, names)[k].value) || (k < |inner| && Sealed(inner, names)[k] == inner[k])
  {
    SealedFields(inner, names, k);
  }

  // ---- definitions ----

  ghost predicate PlainDefinitions(defs: Definitions) { forall ref | ref in defs :: Plain(defs[ref]) }

  /** Every definition of `out` is dead or the rewrite of the one of `defs`. */
  ghost predicate Shrunk(defs: Definitions, out: Definitions) {
    forall ref | ref in out :: Dead(out[ref]) || (ref in defs && out[ref] == Strictify(defs[ref]))
  }

  lemma {:induction false} NamedIs(fields: seq<Field>, ref: string)
    requires Distinct(fields)
    ensures ref in Named(fields) <==> exists k | 0 <= k < |fields| :: DEFS_PREFIX + fields[k].key == ref
    ensures forall k | 0 <= k < |fields| :: DEFS_PREFIX + fields[k].key == ref ==> Named(fields)[ref] == fields[k].value
  {
    if fields != [] {
      var rest := fields[1..];
      assert forall k | 1 <= k < |fields| :: fields[k] == rest[k - 1];
      NamedIs(rest, ref);
      forall k | 1 <= k < |fields| && DEFS_PREFIX + fields[k].key == ref
        ensures DEFS_PREFIX + fields[0].key != ref
      {
        SameTail(DEFS_PREFIX, fields[0].key, fields[k].key);
      }
      if ref in Named(rest) {
        var k :| 0 <= k < |rest| && DEFS_PREFIX + rest[k].key == ref;
        assert fields[k + 1] == rest[k];
      }
    }
  }

  lemma SameTail(prefix: string, a: string, b: string)
    ensures prefix + a == prefix + b ==> a == b
  {
    assert (prefix + a)[|prefix|..] == a && (prefix + b)[|prefix|..] == b;
  }

  lemma NamedShrinks(map_: Json)
    requires PlainMap(map_) && Distinct(Strictify(map_).fields)
    ensures Shrunk(Named(map_.fields), Named(Strictify(map_).fields)) && PlainDefinitions(Named(map_.fields))
  {
    var out := Strictify(map_).fields;
    forall ref | ref in Named(out)
      ensures Dead(Named(out)[ref]) || (ref in Named(map_.fields) && Named(out)[ref] == Strictify(Named(map_.fields)[ref]))
    {
      NamedIs(out, ref);
      NamedIs(map_.fields, ref);
      var k :| 0 <= k < |out| && DEFS_PREFIX + out[k].key == ref;
      MapEntry(map_, k);
    }
    forall ref | ref in Named(map_.fields) ensures Plain(Named(map_.fields)[ref]) {
      NamedIs(map_.fields, ref);
      var k :| 0 <= k < |map_.fields| && DEFS_PREFIX + map_.fields[k].key == ref;
    }
  }

  lemma DistinctKept(map_: Json)
    requires map_.Obj? && Distinct(map_.fields)
    ensures Distinct(Strictify(map_).fields)
  {
    var inner := StrictFields(map_.fields);
    assert Distinct(inner);
    SealedFields(inner, PropertyNames(map_.fields), 0);
  }

  lemma DefinitionsShrink(root: Json)
    requires Plain(root)
    ensures PlainDefinitions(DefinitionsOf(root)) && Shrunk(DefinitionsOf(root), DefinitionsOf(Strictify(root)))
  {
    if root.Obj? {
      assert |"$defs"| == 5 && |ADDITIONAL| == 20 && |REQUIRED| == 8;
      StrictifyGet(root.fields, "$defs");
      var at := Find(root.fields, "$defs");
      if at.Some? {
        KeywordNames();
        assert PlainKeyword(root, at.value);
        DistinctKept(root.fields[at.value].value);
        NamedShrinks(root.fields[at.value].value);
      }
    }
  }

  // ---- narrowing ----

  /** Any value valid under the rewritten schema is valid under the original. */
  lemma {:induction false} Narrows(judge: Judge, defs: Definitions, out: Definitions, fuel: nat, schema: Json, v: Json)
    requires PlainDefinitions(defs) && Shrunk(defs, out) && Plain(schema)
    requires Valid(judge, out, false, fuel, Strictify(schema), v)
    ensures Valid(judge, defs, false, fuel, schema, v)
    decreases fuel, schema, 2
  {
    if schema.Obj? {
      forall i | 0 <= i < |schema.fields| ensures Holds(judge, defs, false, fuel, schema, i, v) {
        assert PlainKeyword(schema, i);
        if Overwritten(schema.fields, i) {
          ReplacedHeld(judge, defs, out, fuel, schema, i, v);
        } else {
          KeywordRewritten(schema, i);
          StrictifyGet(schema.fields, PROPERTIES);
          assert Holds(judge, out, false, fuel, Strictify(schema), i, v);
          KeywordNarrows(judge, defs, out, fuel, schema, Strictify(schema), i, v);
        }
      }
    }
  }

  /** A valid object has exactly the properties the original node lists, even if the rewritten map lists more. */
  lemma OnlyListed(judge: Judge, out: Definitions, fuel: nat, schema: Json, v: Json)
    requires Plain(schema) && schema.Obj? && ObjectNode(schema.fields)
    requires Valid(judge, out, false, fuel, Strictify(schema), v)
    ensures ExactlyListed(schema.fields, v)
  {
    var strict, names := Strictify(schema), PropertyNames(schema.fields);
    SealedGets(StrictFields(schema.fields), names, PROPERTIES);
    StrictifyGet(schema.fields, PROPERTIES);
    KeywordNames();
    var a, r := Find(strict.fields, ADDITIONAL).value, Find(strict.fields, REQUIRED).value;
    assert Holds(judge, out, false, fuel, strict, a, v) && Holds(judge, out, false, fuel, strict, r, v);
    ClosedMeansListed(judge, out, fuel, strict, a, v);
    RequiredMeansPresent(judge, out, fuel, strict, r, names, v);
    if v.Obj? {
      forall k | 0 <= k < |v.fields| ensures v.fields[k].key in names {
        ListedBefore(judge, out, fuel, schema, v, v.fields[k].key);
      }
    }
  }

  lemma EntryHolds(judge: Judge, out: Definitions, fuel: nat, strict: Json, p: nat, grown: seq<Field>, k: nat, v: Json)
    requires strict.Obj? && p < |strict.fields| && strict.fields[p] == Field(PROPERTIES, Obj(grown)) && k < |grown|
    requires Holds(judge, out, false, fuel, strict, p, v) && v.Obj? && Has(v.fields, grown[k].key)
    ensures Valid(judge, out, false, fuel, grown[k].value, Get(v.fields, grown[k].key).value)
  {
    KeywordNames();
  }

  lemma ListedBefore(judge: Judge, out: Definitions, fuel: nat, schema: Json, v: Json, name: string)
    requires Plain(schema) && schema.Obj? && v.Obj? && Has(v.fields, name)
    requires Valid(judge, out, false, fuel, Strictify(schema), v)
    requires name in PropertyNames(Strictify(schema).fields)
    ensures name in PropertyNames(schema.fields)
  {
    StrictifyGet(schema.fields, PROPERTIES);
    var p := Find(schema.fields, PROPERTIES).value;
    KeywordNames();
    assert PlainKeyword(schema, p);
    var map_ := schema.fields[p].value;
    ListedInMap(judge, out, fuel, Strictify(schema), p, map_, v, name);
  }

  lemma ListedInMap(judge: Judge, out: Definitions, fuel: nat, strict: Json, p: nat, map_: Json, v: Json, name: string)
    requires PlainMap(map_) && strict.Obj? && p < |strict.fields| && strict.fields[p] == Field(PROPERTIES, Strictify(map_))
    requires Valid(judge, out, false, fuel, strict, v) && v.Obj? && Has(v.fields, name)
    requires name in Keys(Strictify(map_).fields)
    ensures name in Keys(map_.fields)
  {
    var grown := Strictify(map_).fields;
    var k :| 0 <= k < |grown| && Keys(grown)[k] == name;
    assert Holds(judge, out, false, fuel, strict, p, v);
    EntryHolds(judge, out, fuel, strict, p, grown, k, v);
    MapEntry(map_, k);
    assert k < |map_.fields| && Keys(map_.fields)[k] == name;
  }

  lemma ReplacedHeld(judge: Judge, defs: Definitions, out: Definitions, fuel: nat, schema: Json, i: nat, v: Json)
    requires Plain(schema) && schema.Obj? && i < |schema.fields| && PlainKeyword(schema, i) && Overwritten(schema.fields, i)
    requires Valid(judge, out, false, fuel, Strictify(schema), v)
    ensures Holds(judge, defs, false, fuel, schema, i, v)
  {
    KeywordNames();
    OnlyListed(judge, out, fuel, schema, v);
  }

  /** `strict` carries the rewritten i-th keyword of `schema` at the same place. */
  ghost predicate Carries(schema: Json, strict: Json, i: nat) {
    && schema.Obj? && strict.Obj? && i < |schema.fields| && i < |strict.fields|
    && strict.fields[i] == Field(schema.fields[i].key, Strictify(schema.fields[i].value))
    && (Has(strict.fields, PROPERTIES) <==> Has(schema.fields, PROPERTIES))
  }

  lemma {:induction false} KeywordNarrows(judge: Judge, defs: Definitions, out: Definitions, fuel: nat, schema: Json, strict: Json, i: nat, v: Json)
    requires PlainDefinitions(defs) && Shrunk(defs, out) && Carries(schema, strict, i)
    requires PlainKeyword(schema, i) && !Overwritten(schema.fields, i)
    requires Holds(judge, out, false, fuel, strict, i, v)
    ensures Holds(judge, defs, false, fuel, schema, i, v)
    decreases fuel, schema, 1
  {
    match KeywordOf(schema.fields[i].key)
    case PropertiesKw => PropertiesNarrow(judge, defs, out, fuel, schema, strict, i, v);
    case AdditionalKw => AdditionalNarrows(judge, defs, out, fuel, schema, strict, i, v);
    case ItemsKw => ItemsNarrow(judge, defs, out, fuel, schema, strict, i, v);
    case AnyOfKw => SomeOrAllNarrow(judge, defs, out, fuel, schema, strict, i, v);
    case AllOfKw => SomeOrAllNarrow(judge, defs, out, fuel, schema, strict, i, v);
    case RefKw => ReferenceNarrows(judge, defs, out, fuel, schema, strict, i, schema.fields[i].value.s, v);
    case _ => PlainNarrows(judge, defs, out, fuel, schema, strict, i, v);
  }

  lemma {:induction false} ItemsNarrow(judge: Judge, defs: Definitions, out: Definitions, fuel: nat, schema: Json, strict: Json, i: nat, v: Json)
    requires PlainDefinitions(defs) && Shrunk(defs, out) && Carries(schema, strict, i) && PlainKeyword(schema, i)
    requires KeywordOf(schema.fields[i].key) == ItemsKw
    requires Holds(judge, out, false, fuel, strict, i, v)
    ensures Holds(judge, defs, false, fuel, schema, i, v)
    decreases fuel, schema, 0
  {
    SubschemaNarrows(judge, defs, out, fuel, schema.fields[i].value);
  }

  lemma {:induction false} SomeOrAllNarrow(judge: Judge, defs: Definitions, out: Definitions, fuel: nat, schema: Json, strict: Json, i: nat, v: Json)
    requires PlainDefinitions(defs) && Shrunk(defs, out) && Carries(schema, strict, i) && PlainKeyword(schema, i)
    requires KeywordOf(schema.fields[i].key) in {AnyOfKw, AllOfKw}
    requires Holds(judge, out, false, fuel, strict, i, v)
    ensures Holds(judge, defs, false, fuel, schema, i, v)
    decreases fuel, schema, 0
  {
    var kw, strictKw := schema.fields[i].value, strict.fields[i].value;
    assert strictKw == Arr(StrictItems(kw.items));
    BranchesNarrow(judge, defs, out, fuel, kw, v);
  }

  lemma {:induction false} ReferenceNarrows(judge: Judge, defs: Definitions, out: Definitions, fuel: nat, schema: Json, strict: Json, i: nat, ref: string, v: Json)
    requires PlainDefinitions(defs) && Shrunk(defs, out) && schema.Obj? && strict.Obj? && i < |schema.fields| && i < |strict.fields|
    requires KeywordOf(schema.fields[i].key) == RefKw && schema.fields[i].value == Str(ref) && strict.fields[i] == schema.fields[i]
    requires Holds(judge, out, false, fuel, strict, i, v)
    ensures Holds(judge, defs, false, fuel, schema, i, v)
    decreases fuel, schema, 0
  {
    if fuel > 0 && Followed(judge, out, false, fuel - 1, ref, v) {
      FollowedNarrows(judge, defs, out, fuel - 1, ref, v);
    }
    ReferenceHolds(judge, defs, out, fuel, schema, strict, i, ref, v);
  }

  lemma ReferenceHolds(judge: Judge, defs: Definitions, out: Definitions, fuel: nat, schema: Json, strict: Json, i: nat, ref: string, v: Json)
    requires schema.Obj? && strict.Obj? && i < |schema.fields| && i < |strict.fields|
    requires KeywordOf(schema.fields[i].key) == RefKw && schema.fields[i].value == Str(ref) && strict.fields[i] == schema.fields[i]
    requires fuel > 0 && Followed(judge, out, false, fuel - 1, ref, v) ==> Followed(judge, defs, false, fuel - 1, ref, v)
    ensures Holds(judge, out, false, fuel, strict, i, v) ==> Holds(judge, defs, false, fuel, schema, i, v)
  {
    RefMeans(judge, out, false, fuel, strict, i, ref, v);
    RefMeans(judge, defs, false, fuel, schema, i, ref, v);
  }

  /** Keywords without subschemas are not rewritten at all. */
  lemma PlainNarrows(judge: Judge, defs: Definitions, out: Definitions, fuel: nat, schema: Json, strict: Json, i: nat, v: Json)
    requires Carries(schema, strict, i) && PlainKeyword(schema, i)
    requires KeywordOf(schema.fields[i].key) in {TypeKw, RequiredKw, DefsKw, NoteKw, OtherKw}
    requires Holds(judge, out, false, fuel, strict, i, v)
    ensures Holds(judge, defs, false, fuel, schema, i, v)
  {
    var kw := schema.fields[i].value;
    if KeywordOf(schema.fields[i].key) in {TypeKw, RequiredKw} && kw.Arr? {
      StringsFixed(kw.items);
    }
  }

  lemma {:induction false} SubschemaNarrows(judge: Judge, defs: Definitions, out: Definitions, fuel: nat, kw: Json)
    requires PlainDefinitions(defs) && Shrunk(defs, out) && Plain(kw)
    ensures forall x :: Valid(judge, out, false, fuel, Strictify(kw), x) ==> Valid(judge, defs, false, fuel, kw, x)
    decreases fuel, kw, 3
  {
    forall x | Valid(judge, out, false, fuel, Strictify(kw), x) ensures Valid(judge, defs, false, fuel, kw, x) {
      Narrows(judge, defs, out, fuel, kw, x);
    }
  }

  lemma {:induction false} PropertiesNarrow(judge: Judge, defs: Definitions, out: Definitions, fuel: nat, schema: Json, strict: Json, i: nat, v: Json)
    requires PlainDefinitions(defs) && Shrunk(defs, out) && Carries(schema, strict, i)
    requires KeywordOf(schema.fields[i].key) == PropertiesKw && PlainMap(schema.fields[i].value)
    requires Holds(judge, out, false, fuel, strict, i, v)
    ensures Holds(judge, defs, false, fuel, schema, i, v)
    decreases fuel, schema, 0
  {
    var kw := schema.fields[i].value;
    var grown := Strictify(kw).fields;
    if v.Obj? {
      forall k | 0 <= k < |kw.fields| && Has(v.fields, kw.fields[k].key)
        ensures Valid(judge, defs, false, fuel, kw.fields[k].value, Get(v.fields, kw.fields[k].key).value)
      {
        MapEntry(kw, k);
        var x := Get(v.fields, kw.fields[k].key).value;
        assert Valid(judge, out, false, fuel, grown[k].value, x);
        Narrows(judge, defs, out, fuel, kw.fields[k].value, x);
      }
    }
  }

  lemma AdditionalMeans(judge: Judge, defs: Definitions, fuel: nat, schema: Json, i: nat, v: Json)
    requires schema.Obj? && i < |schema.fields| && KeywordOf(schema.fields[i].key) == AdditionalKw
    requires !Has(schema.fields, PROPERTIES)
    ensures Holds(judge, defs, false, fuel, schema, i, v) <==>
              (v.Obj? ==> forall k | 0 <= k < |v.fields| :: Valid(judge, defs, false, fuel, schema.fields[i].value, v.fields[k].value))
  {
    assert PropertyNames(schema.fields) == [];
  }

  lemma {:induction false} AdditionalNarrows(judge: Judge, defs: Definitions, out: Definitions, fuel: nat, schema: Json, strict: Json, i: nat, v: Json)
    requires PlainDefinitions(defs) && Shrunk(defs, out) && Carries(schema, strict, i) && !Overwritten(schema.fields, i)
    requires KeywordOf(schema.fields[i].key) == AdditionalKw && Plain(schema.fields[i].value)
    requires Holds(judge, out, false, fuel, strict, i, v)
    ensures Holds(judge, defs, false, fuel, schema, i, v)
    decreases fuel, schema, 0
  {
    SubschemaNarrows(judge, defs, out, fuel, schema.fields[i].value);
    KeywordNames();
    OnlyAdditional(schema.fields, i);
    AdditionalMeans(judge, out, fuel, strict, i, v);
    AdditionalMeans(judge, defs, fuel, schema, i, v);
  }

  lemma OnlyAdditional(fields: seq<Field>, i: nat)
    requires i < |fields| && KeywordOf(fields[i].key) == AdditionalKw && !Overwritten(fields, i)
    ensures !Has(fields, PROPERTIES)
  {
  }

  /** Branch by branch, so for anyOf and allOf alike. */
  lemma {:induction false} BranchesNarrow(judge: Judge, defs: Definitions, out: Definitions, fuel: nat, kw: Json, v: Json)
    requires PlainDefinitions(defs) && Shrunk(defs, out) && kw.Arr? && forall k | 0 <= k < |kw.items| :: Plain(kw.items[k])
    ensures forall k | 0 <= k < |kw.items| ::
              Valid(judge, out, false, fuel, StrictItems(kw.items)[k], v) ==> Valid(judge, defs, false, fuel, kw.items[k], v)
    decreases fuel, kw, 3
  {
    forall k | 0 <= k < |kw.items| && Valid(judge, out, false, fuel, StrictItems(kw.items)[k], v)
      ensures Valid(judge, defs, false, fuel, kw.items[k], v)
    {
      Narrows(judge, defs, out, fuel, kw.items[k], v);
    }
  }

  lemma {:induction false} FollowedNarrows(judge: Judge, defs: Definitions, out: Definitions, depth: nat, ref: string, v: Json)
    requires PlainDefinitions(defs) && Shrunk(defs, out)
    requires Followed(judge, out, false, depth, ref, v)
    ensures Followed(judge, defs, false, depth, ref, v)
    decreases depth + 1, Str(ref), 0
  {
    Narrows(judge, defs, out, depth, defs[ref], v);
  }

  /** The schema codex_cli writes to disk accepts nothing that the given schema does not, whatever its
      properties and definitions are called. */
  lemma StrictAcceptsLess(judge: Judge, schema: Json, v: Json)
    requires Plain(schema) && Accepts(judge, false, Strictify(schema), v)
    ensures Accepts(judge, false, schema, v)
  {
    DefinitionsShrink(schema);
    var n: nat :| AcceptsFrom(judge, false, Strictify(schema), v, n);
    forall fuel: nat | fuel >= n ensures Valid(judge, DefinitionsOf(schema), false, fuel, schema, v) {
      Narrows(judge, DefinitionsOf(schema), DefinitionsOf(Strictify(schema)), fuel, schema, v);
    }
    assert AcceptsFrom(judge, false, schema, v, n);
  }

  // ---- the same through exactness ----

  /** Without negation, dropping exactness and adding fuel only admit more values. */
  lemma {:induction false} Relaxes(judge: Judge, defs: Definitions, exact: bool, fuel: nat, exact': bool, more: nat, schema: Json, v: Json)
    requires PlainDefinitions(defs) && Plain(schema) && fuel <= more && (exact' ==> exact)
    requires Valid(judge, defs, exact, fuel, schema, v)
    ensures Valid(judge, defs, exact', more, schema, v)
    decreases fuel, schema, 1
  {
    if schema.Obj? {
      forall i | 0 <= i < |schema.fields| ensures Holds(judge, defs, exact', more, schema, i, v) {
        KeywordRelaxes(judge, defs, exact, fuel, exact', more, schema, i, v);
      }
    }
  }

  lemma {:induction false} KeywordRelaxes(judge: Judge, defs: Definitions, exact: bool, fuel: nat, exact': bool, more: nat, schema: Json, i: nat, v: Json)
    requires PlainDefinitions(defs) && Plain(schema) && schema.Obj? && i < |schema.fields| && fuel <= more && (exact' ==> exact)
    requires Holds(judge, defs, exact, fuel, schema, i, v)
    ensures Holds(judge, defs, exact', more, schema, i, v)
    decreases fuel, schema, 0
  {
    var kw := schema.fields[i].value;
    assert PlainKeyword(schema, i);
    match KeywordOf(schema.fields[i].key)
    case PropertiesKw =>
      if v.Obj? {
        forall k | 0 <= k < |kw.fields| && Has(v.fields, kw.fields[k].key)
          ensures Valid(judge, defs, exact', more, kw.fields[k].value, Get(v.fields, kw.fields[k].key).value)
        {
          Relaxes(judge, defs, exact, fuel, exact', more, kw.fields[k].value, Get(v.fields, kw.fields[k].key).value);
        }
      }
    case AdditionalKw =>
      if v.Obj? {
        forall k | 0 <= k < |v.fields| && v.fields[k].key !in PropertyNames(schema.fields)
          ensures Valid(judge, defs, exact', more, kw, v.fields[k].value)
        {
          Relaxes(judge, defs, exact, fuel, exact', more, kw, v.fields[k].value);
        }
      }
    case ItemsKw =>
      if v.Arr? {
        forall k | 0 <= k < |v.items| ensures Valid(judge, defs, exact', more, kw, v.items[k]) {
          Relaxes(judge, defs, exact, fuel, exact', more, kw, v.items[k]);
        }
      }
    case AnyOfKw =>
      var k :| 0 <= k < |kw.items| && Valid(judge, defs, exact, fuel, kw.items[k], v);
      Relaxes(judge, defs, exact, fuel, exact', more, kw.items[k], v);
    case AllOfKw =>
      forall k | 0 <= k < |kw.items| ensures Valid(judge, defs, exact', more, kw.items[k], v) {
        Relaxes(judge, defs, exact, fuel, exact', more, kw.items[k], v);
      }
    case RefKw => Relaxes(judge, defs, exact, fuel - 1, exact', more - 1, defs[kw.s], v);
    case _ =>
  }

  /** Asking for exactness only narrows: these schemas have no negation. */
  lemma ExactNarrows(judge: Judge, defs: Definitions, fuel: nat, schema: Json, v: Json)
    requires PlainDefinitions(defs) && Plain(schema) && Valid(judge, defs, true, fuel, schema, v)
    ensures Valid(judge, defs, false, fuel, schema, v)
  {
    Relaxes(judge, defs, true, fuel, false, fuel, schema, v);
  }

  /** For these schemas some fuel is enough: a value that passes once passes from then on. */
  lemma SomeFuelIsEnough(judge: Judge, exact: bool, schema: Json, v: Json)
    requires Plain(schema)
    ensures Accepts(judge, exact, schema, v) <==> exists fuel: nat :: Valid(judge, DefinitionsOf(schema), exact, fuel, schema, v)
  {
    DefinitionsShrink(schema);
    var defs := DefinitionsOf(schema);
    if Accepts(judge, exact, schema, v) {
      var n: nat :| AcceptsFrom(judge, exact, schema, v, n);
      assert Valid(judge, defs, exact, n, schema, v);
    }
    if fuel: nat :| Valid(judge, defs, exact, fuel, schema, v) {
      forall more: nat | more >= fuel ensures Valid(judge, defs, exact, more, schema, v) {
        Relaxes(judge, defs, exact, fuel, exact, more, schema, v);
      }
      assert AcceptsFrom(judge, exact, schema, v, fuel);
    }
  }

  /** The schema codex_cli writes to disk accepts exactly the values the given schema accepts with every object
      exact; without oneOf and not it accepts nothing the given schema does not. */
  lemma StrictSchemaNarrows(judge: Judge, schema: Json, v: Json)
    requires SchemaOk(schema)
    ensures Accepts(judge, false, Strictify(schema), v) <==> Accepts(judge, true, schema, v)
    ensures Plain(schema) && Accepts(judge, false, Strictify(schema), v) ==> Accepts(judge, false, schema, v)
  {
    StrictSchemaMeansExact(judge, schema, v);
    if Plain(schema) && Accepts(judge, true, schema, v) {
      DefinitionsShrink(schema);
      var n: nat :| AcceptsFrom(judge, true, schema, v, n);
      forall fuel: nat | fuel >= n ensures Valid(judge, DefinitionsOf(schema), false, fuel, schema, v) {
        ExactNarrows(judge, DefinitionsOf(schema), fuel, schema, v);
      }
      assert AcceptsFrom(judge, false, schema, v, n);
    }
  }
}
