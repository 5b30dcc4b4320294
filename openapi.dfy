/** `denormalize_refs` of autocog/replicate_model.py: every object whose
    `$ref` names a component schema is replaced by that schema, resolved
    in turn. JSON values are immutable here, so the `deepcopy` calls have
    nothing to protect. */
module OpenApi {
  import opened Wrappers

  /** A JSON value as `json` loads it; an object keeps its keys in order.
      The loaded dicts never repeat a key; the members below are stated
      for any list of fields. */
  datatype Json =
    | JNull
    | JBool(b: bool)
    | JNum(n: int)
    | JStr(s: string)
    | JList(items: seq<Json>)
    | JObject(fields: seq<Field>)

  datatype Field = Field(key: string, value: Json)

  /** `obj[key]` on a dict: the entry for the key, if any. */
  function Lookup(fields: seq<Field>, key: string): (r: Option<Json>)
    ensures r.None? <==> forall i :: 0 <= i < |fields| ==> fields[i].key != key
    ensures r.Some? ==> exists i :: 0 <= i < |fields| && fields[i] == Field(key, r.value)
  {
    if fields == [] then None
    else if fields[0].key == key then Some(fields[0].value)
    else
      var r := Lookup(fields[1..], key);
      assert r.Some? ==> exists i :: 0 < i < |fields| && fields[i] == Field(key, r.value) by {
        if r.Some? {
          var i :| 0 <= i < |fields[1..]| && fields[1..][i] == Field(key, r.value);
          assert fields[i + 1] == Field(key, r.value);
        }
      }
      r
  }

  function RefKey(name: string): string {
    "#/components/schemas/" + name
  }

  /** `d[key]` with the errors Python raises: a missing key, or an index
      into something that is not a dict. */
  function Index(d: Json, key: string): (r: Outcome<Json>)
    ensures r.Returned? <==> d.JObject? && Lookup(d.fields, key).Some?
  {
    match d
    case JObject(fields) =>
      (match Lookup(fields, key)
       case Some(v) => Returned(v)
       case None => Raised(Exception("KeyError", key)))
    case _ => Raised(Exception("TypeError", "object is not subscriptable"))
  }

  /** The reference table the loop builds from the entries of `schemas`:
      a later entry overwrites an earlier one of the same name. */
  function RefsOf(schemas: seq<Field>): (r: map<string, Json>)
    ensures forall k :: k in r <==> exists i :: 0 <= i < |schemas| && k == RefKey(schemas[i].key)
  {
    if schemas == [] then map[]
    else
      var init := schemas[..|schemas| - 1];
      var last := schemas[|schemas| - 1];
      var r := RefsOf(init)[RefKey(last.key) := last.value];
      assert forall k :: k in r <==> exists i :: 0 <= i < |schemas| && k == RefKey(schemas[i].key) by {
        forall k ensures k in r <==> exists i :: 0 <= i < |schemas| && k == RefKey(schemas[i].key) {
          if k in RefsOf(init) {
            var i :| 0 <= i < |init| && k == RefKey(init[i].key);
            assert schemas[i] == init[i];
          }
          if exists i :: 0 <= i < |schemas| && k == RefKey(schemas[i].key) {
            var i :| 0 <= i < |schemas| && k == RefKey(schemas[i].key);
            if i < |init| {
              assert init[i] == schemas[i];
            }
          }
        }
      }
      r
  }

  /** A component whose name occurs once is found under its reference. */
  lemma RefsOfDistinct(schemas: seq<Field>, i: nat)
    requires i < |schemas|
    requires forall j :: 0 <= j < |schemas| && j != i ==> schemas[j].key != schemas[i].key
    ensures RefKey(schemas[i].key) in RefsOf(schemas) && RefsOf(schemas)[RefKey(schemas[i].key)] == schemas[i].value
    decreases |schemas|
  {
    var init := schemas[..|schemas| - 1];
    if i < |schemas| - 1 {
      assert RefKey(schemas[|schemas| - 1].key) != RefKey(schemas[i].key) by {
        assert schemas[|schemas| - 1].key != schemas[i].key;
        assert RefKey(schemas[|schemas| - 1].key)[21..] == schemas[|schemas| - 1].key;
        assert RefKey(schemas[i].key)[21..] == schemas[i].key;
      }
      forall j | 0 <= j < |init| && j != i ensures init[j].key != init[i].key {
        assert init[j] == schemas[j];
      }
      RefsOfDistinct(init, i);
    }
  }

  /** The loop that fills `ref_map` from `result["components"]["schemas"]`,
      or the error one of those lookups raises. */
  method BuildRefMap(schema: Json) returns (r: Outcome<map<string, Json>>)
    ensures r == (match Index(schema, "components")
                  case Raised(e) => Raised(e)
                  case Returned(c) =>
                    match Index(c, "schemas")
                    case Raised(e) => Raised(e)
                    case Returned(s) =>
                      if s.JObject? then Returned(RefsOf(s.fields))
                      else Raised(Exception("AttributeError", "object has no attribute 'items'")))
  {
    var components := Index(schema, "components");
    if components.Raised? {
      return Raised(components.error);
    }
    var schemas := Index(components.value, "schemas");
    if schemas.Raised? {
      return Raised(schemas.error);
    }
    if !schemas.value.JObject? {
      return Raised(Exception("AttributeError", "object has no attribute 'items'"));
    }
    var items := schemas.value.fields;
    var refMap: map<string, Json> := map[];
    for i := 0 to |items|
      invariant refMap == RefsOf(items[..i])
    {
      assert items[..i + 1][..i] == items[..i];
      refMap := refMap[RefKey(items[i].key) := items[i].value];
    }
    assert items[..|items|] == items;
    return Returned(refMap);
  }

  const RecursionLimit: Raise := Exception("RecursionError", "maximum recursion depth exceeded")

  /** The first error of a list of outcomes, in order, if any. */
  function FirstRaised(rs: seq<Outcome<Json>>): (r: Option<Raise>)
    ensures r.None? <==> forall i :: 0 <= i < |rs| ==> rs[i].Returned?
    ensures r.Some? ==> exists i :: 0 <= i < |rs| && rs[i] == Raised(r.value)
  {
    if rs == [] then None
    else if rs[0].Raised? then Some(rs[0].error)
    else
      var r := FirstRaised(rs[1..]);
      assert r.Some? ==> rs[1..][0] in rs[1..];
      r
  }

  /** Whether `$ref` names an entry of the table. Looking a list or a dict
      up in a dict raises, as they are unhashable. */
  function RefTarget(refMap: map<string, Json>, fields: seq<Field>): (r: Outcome<Option<Json>>)
    ensures r.Returned? && r.value.Some? <==>
      exists s :: Lookup(fields, "$ref") == Some(JStr(s)) && s in refMap
  {
    match Lookup(fields, "$ref")
    case Some(JStr(s)) => if s in refMap then Returned(Some(refMap[s])) else Returned(None)
    case Some(JList(_)) => Raised(Exception("TypeError", "unhashable type: 'list'"))
    case Some(JObject(_)) => Raised(Exception("TypeError", "unhashable type: 'dict'"))
    case _ => Returned(None)
  }

  /** `resolve_refs(obj)`. The substitution of a reference can recur for
      ever on a cycle, and Python's stack runs out: `fuel` is the number of
      substitutions the stack can hold along one path. Comprehensions run
      in order, so the first error is the one raised. */
  function Resolve(refMap: map<string, Json>, obj: Json, fuel: nat): (r: Outcome<Json>)
    decreases fuel, obj
  {
    match obj
    case JObject(fields) =>
      (match RefTarget(refMap, fields)
       case Raised(e) => Raised(e)
       case Returned(Some(target)) =>
         if fuel == 0 then Raised(RecursionLimit) else Resolve(refMap, target, fuel - 1)
       case Returned(None) =>
         var rs := seq(|fields|, i requires 0 <= i < |fields| => Resolve(refMap, fields[i].value, fuel));
         match FirstRaised(rs)
         case Some(e) => Raised(e)
         case None => Returned(JObject(seq(|fields|, i requires 0 <= i < |fields| => Field(fields[i].key, rs[i].value)))))
    case JList(items) =>
      var rs := seq(|items|, i requires 0 <= i < |items| => Resolve(refMap, items[i], fuel));
      (match FirstRaised(rs)
       case Some(e) => Raised(e)
       case None => Returned(JList(seq(|items|, i requires 0 <= i < |items| => rs[i].value))))
    case _ => Returned(obj)
  }

  /** `denormalize_refs(schema)`. */
  function DenormalizeRefs(schema: Json, fuel: nat): Outcome<Json> {
    match Index(schema, "components")
    case Raised(e) => Raised(e)
    case Returned(c) =>
      match Index(c, "schemas")
      case Raised(e) => Raised(e)
      case Returned(s) =>
        if s.JObject? then Resolve(RefsOf(s.fields), schema, fuel)
        else Raised(Exception("AttributeError", "object has no attribute 'items'"))
  }

  /** A dict whose `$ref` is known is replaced wholesale: its other keys
      play no part, and the result is that of the referenced schema. */
  lemma ReplacedWholesale(refMap: map<string, Json>, fields: seq<Field>, fuel: nat)
    requires exists s :: Lookup(fields, "$ref") == Some(JStr(s)) && s in refMap
    ensures var s := Lookup(fields, "$ref").value.s;
      Resolve(refMap, JObject(fields), fuel + 1) == Resolve(refMap, refMap[s], fuel)
  {
  }

  /** A dict without a known `$ref` keeps its keys, in order, each value
      resolved on its own. */
  lemma KeysKept(refMap: map<string, Json>, fields: seq<Field>, fuel: nat)
    requires RefTarget(refMap, fields) == Returned(None)
    requires Resolve(refMap, JObject(fields), fuel).Returned?
    ensures var v := Resolve(refMap, JObject(fields), fuel).value;
      v.JObject? && |v.fields| == |fields| &&
      forall i :: 0 <= i < |fields| ==>
        v.fields[i].key == fields[i].key && Resolve(refMap, fields[i].value, fuel) == Returned(v.fields[i].value)
  {
    var rs := seq(|fields|, i requires 0 <= i < |fields| => Resolve(refMap, fields[i].value, fuel));
    assert FirstRaised(rs).None?;
  }

  /** A list keeps its length, each item resolved on its own. */
  lemma ListKept(refMap: map<string, Json>, items: seq<Json>, fuel: nat)
    requires Resolve(refMap, JList(items), fuel).Returned?
    ensures var v := Resolve(refMap, JList(items), fuel).value;
      v.JList? && |v.items| == |items| &&
      forall i :: 0 <= i < |items| ==> Resolve(refMap, items[i], fuel) == Returned(v.items[i])
  {
    var rs := seq(|items|, i requires 0 <= i < |items| => Resolve(refMap, items[i], fuel));
    assert FirstRaised(rs).None?;
  }

  /** Scalars come back as they are. */
  lemma ScalarsKept(refMap: map<string, Json>, obj: Json, fuel: nat)
    requires !obj.JList? && !obj.JObject?
    ensures Resolve(refMap, obj, fuel) == Returned(obj)
  {
  }

  /** No object of `obj` has a `$ref` that names the table or that cannot
      be looked up. */
  predicate RefFree(refMap: map<string, Json>, obj: Json)
    decreases obj
  {
    match obj
    case JObject(fields) =>
      RefTarget(refMap, fields) == Returned(None) &&
      forall i :: 0 <= i < |fields| ==> RefFree(refMap, fields[i].value)
    case JList(items) => forall i :: 0 <= i < |items| ==> RefFree(refMap, items[i])
    case _ => true
  }

  /** A document with no reference to resolve comes back unchanged, with
      any fuel. */
  lemma {:induction false} RefFreeUnchanged(refMap: map<string, Json>, obj: Json, fuel: nat)
    requires RefFree(refMap, obj)
    decreases obj
    ensures Resolve(refMap, obj, fuel) == Returned(obj)
  {
    match obj
    case JObject(fields) =>
      var rs := seq(|fields|, i requires 0 <= i < |fields| => Resolve(refMap, fields[i].value, fuel));
      forall i | 0 <= i < |fields| ensures rs[i] == Returned(fields[i].value) {
        RefFreeUnchanged(refMap, fields[i].value, fuel);
      }
      assert seq(|fields|, i requires 0 <= i < |fields| => Field(fields[i].key, rs[i].value)) == fields;
    case JList(items) =>
      var rs := seq(|items|, i requires 0 <= i < |items| => Resolve(refMap, items[i], fuel));
      forall i | 0 <= i < |items| ensures rs[i] == Returned(items[i]) {
        RefFreeUnchanged(refMap, items[i], fuel);
      }
      assert seq(|items|, i requires 0 <= i < |items| => rs[i].value) == items;
    case _ =>
  }

  /** A reference to itself exhausts any fuel. */
  lemma SelfReferenceExhausts(name: string, fuel: nat)
    ensures var obj := JObject([Field("$ref", JStr(RefKey(name)))]);
      Resolve(map[RefKey(name) := obj], obj, fuel) == Raised(RecursionLimit)
  {
    var obj := JObject([Field("$ref", JStr(RefKey(name)))]);
    var refMap := map[RefKey(name) := obj];
    assert RefTarget(refMap, obj.fields) == Returned(Some(obj));
    if fuel > 0 {
      SelfReferenceExhausts(name, fuel - 1);
    }
  }
}
