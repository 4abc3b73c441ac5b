/** `_strictify_schema` as the program runs it: a recursive traversal of nested dicts and lists that
    assigns into them while it walks, proved to compute StrictSchema.Strictify. */
module StrictSchemaHeap {
  import opened Wrappers
  import opened JsonValues
  import opened StrictSchema

  /** A value held by a container: a scalar, or another container. */
  datatype Ref = Leaf(j: Json) | Node(c: Container)

  predicate Scalar(j: Json) { !j.Arr? && !j.Obj? }

  /** Nesting depth, counting an object twice: a list of strings is shallower than any object. */
  function Height(j: Json): nat {
    match j
    case Obj(fields) => 2 + FieldsHeight(fields)
    case Arr(items) => 1 + ItemsHeight(items)
    case _ => 0
  }

  function FieldsHeight(fields: seq<Field>): (h: nat)
    ensures forall i | 0 <= i < |fields| :: Height(fields[i].value) <= h
  {
    if fields == [] then 0
    else
      var h, t := Height(fields[0].value), FieldsHeight(fields[1..]);
      assert forall i | 1 <= i < |fields| :: fields[i] == fields[1..][i - 1];
      if h > t then h else t
  }

  function ItemsHeight(items: seq<Json>): (h: nat)
    ensures forall i | 0 <= i < |items| :: Height(items[i]) <= h
    ensures (forall i | 0 <= i < |items| :: Scalar(items[i])) ==> h == 0
  {
    if items == [] then 0
    else
      var h, t := Height(items[0]), ItemsHeight(items[1..]);
      assert forall i | 1 <= i < |items| :: items[i] == items[1..][i - 1];
      if h > t then h else t
  }

  /** A Python dict (keys in insertion order) or list. */
  class Container {
    const isDict: bool
    var keys: seq<string>
    var vals: seq<Ref>
    ghost var repr: set<Container>

    ghost predicate Valid()
      reads this, repr
      ensures Valid() ==> this in repr
      decreases repr
    {
      && this in repr
      && (isDict ==> |keys| == |vals| && forall i, j | 0 <= i < j < |keys| :: keys[i] != keys[j])
      && (forall i | 0 <= i < |vals| ::
            match vals[i]
            case Leaf(j) => Scalar(j)
            case Node(c) => c in repr && c.repr < repr && this !in c.repr && c.Valid())
      && (forall i, j | 0 <= i < j < |vals| && vals[i].Node? && vals[j].Node? :: vals[i].c.repr !! vals[j].c.repr)
    }

    ghost function Item(i: nat): Json
      requires Valid() && i < |vals|
      reads this, repr
      decreases repr, 0
    {
      match vals[i]
      case Leaf(j) => j
      case Node(c) => c.Value()
    }

    ghost function Items(n: nat): (r: seq<Json>)
      requires Valid() && n <= |vals|
      reads this, repr
      ensures |r| == n && forall i | 0 <= i < n :: r[i] == Item(i)
      decreases repr, 1, n
    {
      if n == 0 then [] else Items(n - 1) + [Item(n - 1)]
    }

    /** The JSON value this container spells. */
    ghost function Value(): Json
      requires Valid()
      reads this, repr
      decreases repr, 2
    {
      if isDict then Obj(Paired(keys, Items(|vals|))) else Arr(Items(|vals|))
    }

    constructor Strings(names: seq<string>)
      ensures Valid() && !isDict && fresh(repr) && Value() == Arr(StrictSchema.Strings(names))
    {
      isDict := false;
      keys := [];
      vals := seq(|names|, i requires 0 <= i < |names| => Leaf(Str(names[i])));
      repr := {this};
      new;
      assert Items(|vals|) == StrictSchema.Strings(names);
    }

    method IndexOf(key: string) returns (r: Option<nat>)
      requires Valid() && isDict
      ensures r == Find(Value().fields, key)
    {
      var i := 0;
      while i < |keys|
        invariant 0 <= i <= |keys|
        invariant forall k | 0 <= k < i :: keys[k] != key
      {
        if keys[i] == key {
          return Some(i);
        }
        i := i + 1;
      }
      r := None;
    }

    ghost predicate Apart(ref: Ref)
      reads this, if ref.Node? then {ref.c} + ref.c.repr else {}
    {
      match ref
      case Leaf(j) => Scalar(j)
      case Node(c) => c.Valid() && c.repr !! repr
    }

    /** `self[keys[i]] = ref`, or `self[key] = ref` for a new key when `i` is one past the end. */
    method Store(i: nat, key: string, ref: Ref)
      requires Valid() && isDict && Apart(ref) && i <= |keys|
      requires if i < |keys| then keys[i] == key else key !in keys
      modifies this
      ensures Valid() && repr == old(repr) + if ref.Node? then old(ref.c.repr) else {}
      ensures keys == if i < |old(keys)| then old(keys) else old(keys) + [key]
      ensures Item(i) == match ref case Leaf(j) => j case Node(c) => old(c.Value())
      ensures forall k | 0 <= k < |old(keys)| && k != i :: Item(k) == old(Item(k))
    {
      if i < |keys| {
        vals := vals[i := ref];
      } else {
        keys, vals := keys + [key], vals + [ref];
      }
      repr := repr + if ref.Node? then ref.c.repr else {};
    }

    /** `self[key] = ref`, for a value that shares nothing with this dict. */
    method Assign(key: string, ref: Ref)
      requires Valid() && isDict && Apart(ref)
      modifies this
      ensures Valid() && repr == old(repr) + if ref.Node? then old(ref.c.repr) else {}
      ensures Value() == Obj(Put(old(Value()).fields, key, match ref case Leaf(j) => j case Node(c) => old(c.Value())))
    {
      ghost var before := Value().fields;
      ghost var value := match ref case Leaf(j) => j case Node(c) => c.Value();
      var at := IndexOf(key);
      Store(at.GetOr(|keys|), key, ref);
      ghost var after := Value().fields;
      forall k | 0 <= k < |before| && at != Some(k) ensures after[k] == before[k] {
        assert Item(k) == old(Item(k));
      }
      IsPut(before, after, key, value);
    }

    /** A value is a scalar exactly when it is stored as one. */
    lemma ItemShape(i: nat)
      requires Valid() && i < |vals|
      ensures match vals[i]
              case Leaf(j) => Item(i) == j && Scalar(j)
              case Node(c) => Item(i) == c.Value() && (if c.isDict then Item(i).Obj? && Keys(Item(i).fields) == c.keys
                                                       else Item(i).Arr? && |Item(i).items| == |c.vals|)
    {
      if vals[i].Node? && vals[i].c.isDict {
        assert Item(i) == vals[i].c.Value();
        assert Keys(vals[i].c.Value().fields) == vals[i].c.keys;
      }
    }

    method IsObjectNode() returns (r: bool)
      requires Valid() && isDict
      ensures r == ObjectNode(Value().fields)
    {
      var t := IndexOf("type");
      var p := IndexOf(PROPERTIES);
      if t.Some? {
        ItemShape(t.value);
      }
      r := (t.Some? && vals[t.value] == Leaf(Str("object"))) || p.Some?;
    }

    /** `(self.get("properties") or {}).keys()`; None is AttributeError. */
    method NamesOfProperties() returns (names: Option<seq<string>>)
      requires Valid() && isDict
      ensures names.Some? <==> PropertiesReadable(Value().fields)
      ensures names.Some? ==> names.value == PropertyNames(Value().fields)
    {
      var p := IndexOf(PROPERTIES);
      if p.None? {
        return Some([]);
      }
      ItemShape(p.value);
      match vals[p.value]
      case Leaf(j) => names := if Truthy(j) then None else Some([]);
      case Node(c) =>
        names := if c.isDict then Some(c.keys) else if c.vals != [] then None else Some([]);
    }

    method SealWith(names: seq<string>)
      requires Valid() && isDict
      modifies this
      ensures Valid() && repr >= old(repr) && fresh(repr - old(repr))
      ensures Value() == Obj(Sealed(old(Value()).fields, names))
    {
      Assign(ADDITIONAL, Leaf(Bool(false)));
      ghost var closed := Value();
      var list := new Container.Strings(names);
      assert Valid() && Value() == closed && Apart(Node(list));
      Assign(REQUIRED, Node(list));
    }

    /** What the traversal does at a dict before it visits the values; false is AttributeError. */
    method Seal() returns (ok: bool)
      requires Valid() && isDict
      modifies this
      ensures ok == NodeAccepted(old(Value()).fields)
      ensures Valid() && repr >= old(repr) && fresh(repr - old(repr))
      ensures ok ==> Value() == Obj(Assigned(old(Value()).fields))
    {
      var node := IsObjectNode();
      if !node {
        return true;
      }
      ok := SealNode();
    }

    method SealNode() returns (ok: bool)
      requires Valid() && isDict && ObjectNode(Value().fields)
      modifies this
      ensures ok == PropertiesReadable(old(Value()).fields)
      ensures Valid() && repr >= old(repr) && fresh(repr - old(repr))
      ensures ok ==> Value() == Obj(Sealed(old(Value()).fields, PropertyNames(old(Value()).fields)))
    {
      var names := NamesOfProperties();
      if names.None? {
        return false;
      }
      SealWith(names.value);
      return true;
    }

    /** While only the i-th value changes, the others keep theirs. */
    twostate lemma OthersStay(i: nat)
      requires old(Valid()) && i < |old(vals)| && old(vals[i]).Node?
      requires unchanged(this) && unchanged(old(repr) - old(vals[i].c.repr))
      ensures forall k | 0 <= k < |vals| && k != i && vals[k].Node? ::
                vals[k].c.Valid() && vals[k].c.repr == old(vals[k].c.repr) && vals[k].c.Value() == old(vals[k].c.Value())
    {
    }

    /** The recursive call on one value; the other values are in disjoint parts of the heap. */
    method Visit(i: nat) returns (ok: bool)
      requires Valid() && i < |vals|
      modifies repr
      decreases Height(Item(i)), 2
      ensures ok == Accepted(old(Item(i)))
      ensures ok ==> Valid() && vals == old(vals) && keys == old(keys) && repr >= old(repr) && fresh(repr - old(repr))
      ensures ok ==> Item(i) == StrictSchema.Strictify(old(Item(i)))
      ensures ok ==> forall k | 0 <= k < |vals| && k != i :: Item(k) == old(Item(k))
    {
      ok := true;
      if vals[i].Node? {
        ok := vals[i].c.Strictify();
        if ok {
          OthersStay(i);
          repr := repr + vals[i].c.repr;
          assert Valid();
        }
      }
    }

    /** `for v in node.values(): _strictify_schema(v)`, and the same for a list. */
    method VisitAll(ghost items: seq<Json>, ghost bound: nat) returns (ok: bool)
      requires Valid() && items == Items(|vals|) && forall k | 0 <= k < |items| :: Height(items[k]) < bound
      modifies repr
      decreases bound, 0
      ensures ok == AllAccepted(items)
      ensures ok ==> Valid() && keys == old(keys) && vals == old(vals) && repr >= old(repr) && fresh(repr - old(repr))
      ensures ok ==> Items(|vals|) == StrictItems(items)
    {
      var i := 0;
      while i < |vals|
        invariant 0 <= i <= |vals| && Valid() && vals == old(vals) && keys == old(keys)
        invariant repr >= old(repr) && fresh(repr - old(repr))
        invariant forall k | 0 <= k < |vals| :: Item(k) == if k < i then StrictSchema.Strictify(items[k]) else items[k]
        invariant forall k | 0 <= k < i :: Accepted(items[k])
      {
        assert Item(i) == items[i];
        ok := Visit(i);
        if !ok {
          return;
        }
        i := i + 1;
      }
      ok := true;
    }

    /** _strictify_schema. False means it raised; the caller's deep copy is then dropped. */
    method Strictify() returns (ok: bool)
      requires Valid()
      modifies repr
      decreases Height(Value()), 1
      ensures ok == Accepted(old(Value()))
      ensures ok ==> Valid() && Value() == StrictSchema.Strictify(old(Value())) && fresh(repr - old(repr))
    {
      ghost var before := Value();
      ghost var mid := ToVisit(before);
      AcceptedValues(before);
      VisitedAreShallower(before);
      if isDict {
        ok := Seal();
        if !ok {
          return;
        }
      }
      ItemsToVisit(before);
      ok := VisitAll(mid, Height(before));
      if ok {
        Revalued(before);
      }
    }

    lemma ItemsToVisit(before: Json)
      requires Valid() && if isDict then before.Obj? && Value() == Obj(Assigned(before.fields)) else Value() == before
      ensures Items(|vals|) == ToVisit(before) && (isDict ==> keys == Keys(Assigned(before.fields)))
    {
    }

    lemma Revalued(before: Json)
      requires Valid() && (if isDict then before.Obj? else before.Arr?)
      requires isDict ==> keys == Keys(Assigned(before.fields))
      requires Items(|vals|) == StrictItems(ToVisit(before))
      ensures Value() == StrictSchema.Strictify(before)
    {
      if isDict {
        AssignThenDescend(before.fields);
        assert Paired(keys, Items(|vals|)) == StrictFields(Assigned(before.fields));
      }
    }
  }

  lemma IsPut(before: seq<Field>, after: seq<Field>, key: string, value: Json)
    requires |after| == if Has(before, key) then |before| else |before| + 1
    requires after[Find(before, key).GetOr(|before|)] == Field(key, value)
    requires forall k | 0 <= k < |before| && Find(before, key) != Some(k) :: after[k] == before[k]
    ensures after == Put(before, key, value)
  {
  }

  function Values(fields: seq<Field>): (r: seq<Json>)
    ensures |r| == |fields| && forall i | 0 <= i < |fields| :: r[i] == fields[i].value
  {
    seq(|fields|, i requires 0 <= i < |fields| => fields[i].value)
  }

  /** The values the traversal descends into. */
  function ToVisit(j: Json): seq<Json>
    requires j.Obj? || j.Arr?
  {
    if j.Obj? then Values(Assigned(j.fields)) else j.items
  }

  lemma AcceptedValues(j: Json)
    requires (j.Obj? && Distinct(j.fields)) || j.Arr?
    ensures Accepted(j) <==> (j.Obj? ==> NodeAccepted(j.fields)) && AllAccepted(ToVisit(j))
  {
    if j.Obj? {
      AssignedAccepted(j.fields);
      var items := ToVisit(j);
      assert forall k | 0 <= k < |items| :: Assigned(j.fields)[k].value == items[k];
    }
  }

  predicate AllAccepted(items: seq<Json>) { forall k | 0 <= k < |items| :: Accepted(items[k]) }

  /** After the two assignments every value to visit is still shallower than the node was. */
  lemma AssignedIsShallower(fields: seq<Field>)
    requires Distinct(fields)
    ensures forall i | 0 <= i < |Assigned(fields)| :: Height(Assigned(fields)[i].value) < Height(Obj(fields))
  {
    var names := PropertyNames(fields);
    var list := Arr(StrictSchema.Strings(names));
    assert Height(list) == 1;
    if ObjectNode(fields) {
      forall i | 0 <= i < |Assigned(fields)| ensures Height(Assigned(fields)[i].value) < Height(Obj(fields)) {
        SealedFields(fields, names, i);
      }
    }
  }

  lemma VisitedAreShallower(j: Json)
    requires (j.Obj? && Distinct(j.fields)) || j.Arr?
    ensures forall k | 0 <= k < |ToVisit(j)| :: Height(ToVisit(j)[k]) < Height(j)
  {
    if j.Obj? {
      AssignedIsShallower(j.fields);
    }
  }

  function Paired(keys: seq<string>, items: seq<Json>): (r: seq<Field>)
    requires |keys| == |items|
    ensures |r| == |keys| && forall i | 0 <= i < |keys| :: r[i] == Field(keys[i], items[i])
  {
    seq(|keys|, i requires 0 <= i < |keys| => Field(keys[i], items[i]))
  }
}
