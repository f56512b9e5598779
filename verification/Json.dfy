/** A decoded JSON document. */
module Json {
  import opened Common

  /** A number keeps its text, as json.Number does. */
  datatype Json =
    | JNull
    | JBool(b: bool)
    | JNumber(text: string)
    | JString(s: string)
    | JArray(items: seq<Json>)
    | JObject(fields: map<string, Json>)

  /** hasScalarLeaf: a string, number or boolean anywhere; a null is not one. */
  predicate HasScalarLeaf(v: Json) {
    match v
    case JNull => false
    case JBool(_) => true
    case JNumber(_) => true
    case JString(_) => true
    case JArray(items) => exists x :: x in items && HasScalarLeaf(x)
    case JObject(fields) => exists k :: k in fields && HasScalarLeaf(fields[k])
  }

  // ---------- by paths ----------

  datatype Step = Field(key: string) | Item(index: nat)

  function Child(v: Json, s: Step): Option<Json> {
    match s
    case Field(k) => if v.JObject? && k in v.fields then Some(v.fields[k]) else None
    case Item(i) => if v.JArray? && i < |v.items| then Some(v.items[i]) else None
  }

  /** What stands at the end of a path, if it leads anywhere. */
  function Follow(v: Json, path: seq<Step>): Option<Json> {
    if path == [] then Some(v) else
    match Child(v, path[0]) case None => None case Some(x) => Follow(x, path[1..])
  }

  ghost predicate LeadsToAScalar(v: Json, path: seq<Step>) {
    match Follow(v, path)
    case None => false
    case Some(x) => x.JString? || x.JNumber? || x.JBool?
  }

  /** hasScalarLeaf says yes exactly of the documents in which some path ends at a string, a
      number or a boolean. */
  lemma {:induction false} ScalarLeafIff(v: Json)
    ensures HasScalarLeaf(v) <==> exists path :: LeadsToAScalar(v, path)
    decreases v
  {
    if HasScalarLeaf(v) {
      ScalarIsReached(v);
    }
    if path :| LeadsToAScalar(v, path) {
      ReachedIsScalar(v, path);
    }
  }

  lemma {:induction false} ScalarIsReached(v: Json)
    requires HasScalarLeaf(v)
    ensures exists path :: LeadsToAScalar(v, path)
    decreases v
  {
    if v.JArray? {
      var x :| x in v.items && HasScalarLeaf(x);
      var i :| 0 <= i < |v.items| && v.items[i] == x;
      ScalarIsReached(x);
      var path :| LeadsToAScalar(x, path);
      Prefixed(v, Item(i), path);
    } else if v.JObject? {
      var k :| k in v.fields && HasScalarLeaf(v.fields[k]);
      ScalarIsReached(v.fields[k]);
      var path :| LeadsToAScalar(v.fields[k], path);
      Prefixed(v, Field(k), path);
    } else {
      assert LeadsToAScalar(v, []);
    }
  }

  lemma Prefixed(v: Json, s: Step, path: seq<Step>)
    requires Child(v, s).Some? && LeadsToAScalar(Child(v, s).value, path)
    ensures LeadsToAScalar(v, [s] + path)
  {
    assert ([s] + path)[1..] == path;
  }

  lemma {:induction false} ReachedIsScalar(v: Json, path: seq<Step>)
    requires LeadsToAScalar(v, path)
    ensures HasScalarLeaf(v)
    decreases path
  {
    if path != [] {
      ReachedIsScalar(Child(v, path[0]).value, path[1..]);
    }
  }
}
