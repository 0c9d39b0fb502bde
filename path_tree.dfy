/** Path-addressed access to a json-tree parameter document: the dotted path of
    the editor (`path.split('.')`) names a node by walking object members. The two
    setters walk a `current` pointer down the path, creating `{}` for every
    missing or falsy intermediate member, and then assign at the last key.

    The document a setter works on is the fresh result of `JSON.parse`, so no
    object in it is shared: changing the node under `current` in place is the
    same as rebuilding the path above it, which is what `Rebuild` does. A
    JavaScript exception (reading a member of `null` or `undefined`) is `None`;
    every caller catches it and keeps its previous document. */
module PathTree {
  import opened Wrappers
  import opened JsonValue

  // ---------------------------------------------------------------- reading

  /** The node a path names, following object members only: the model's notion
      of "the node at the path". */
  function NodeAt(t: Json, path: seq<string>): Option<Json>
    decreases |path|
  {
    if path == [] then Some(t)
    else match Member(t, path[0])
      case None => None
      case Some(c) => NodeAt(c, path[1..])
  }

  /** The member `property` of a node that is an object; `undefined` for a
      missing node or any other value. */
  function PropertyOf(node: Option<Json>, property: string): Option<Json> {
    match node
    case Some(JObject(ms)) => Lookup(ms, property)
    case _ => None
  }

  /** `getNestedProperty(obj, path, property)`: it gives up on the first falsy
      step, and the result is exactly the member `property` of the node at the
      path when that node is an object, and `undefined` otherwise. */
  function GetNestedProperty(obj: Json, keys: seq<string>, property: string): (r: Option<Json>)
    ensures r == PropertyOf(NodeAt(obj, keys), property)
    decreases |keys|
  {
    if !Truthy(obj) then None
    else if keys == [] then Member(obj, property)
    else match Member(obj, keys[0])
      case None => None
      case Some(c) => if !Truthy(c) then None else GetNestedProperty(c, keys[1..], property)
  }

  // ---------------------------------------------------------------- walking

  /** One step of the setters' loop: `if (!current[key]) current[key] = {}`,
      then `current = current[key]`. */
  function Descend(current: Json, key: string): Json {
    if TruthyOpt(Member(current, key)) then Member(current, key).value else JObject([])
  }

  /** An object at every step of the walk over `prefix`: the loop of either
      setter then runs to its end without throwing. */
  predicate Descendable(t: Json, prefix: seq<string>)
    decreases |prefix|
  {
    t.JObject? && (prefix == [] || Descendable(Descend(t, prefix[0]), prefix[1..]))
  }

  /** Writes each finished child back into the object the walk came through: the
      in-place mutation under `current`, seen from the root. */
  function Rebuild(trail: seq<(Json, string)>, r: Option<Json>): Option<Json>
    decreases |trail|
  {
    if trail == [] || r.None? then r
    else
      var (o, k) := trail[|trail| - 1];
      Rebuild(trail[..|trail| - 1], Some(Put(o, k, r.value)))
  }

  // ---------------------------------------------------------------- setNestedValue

  /** The last statement of `setNestedValue`: a typed leaf at the key gets its
      `value` replaced; anything else there, a branch included, is overwritten
      by the string. On `null` the read throws. */
  function AssignLast(current: Json, lastKey: string, v: string): Option<Json> {
    if current.JNull? then None
    else match Member(current, lastKey)
      case Some(c) =>
        if IsTypedLeaf(c) then Some(Put(current, lastKey, Put(c, "value", JString(v))))
        else Some(Put(current, lastKey, JString(v)))
      case None => Some(Put(current, lastKey, JString(v)))
  }

  /** What `setNestedValue(obj, path, v)` leaves in `obj`. */
  function WithValue(obj: Json, keys: seq<string>, v: string): (r: Option<Json>)
    requires |keys| >= 1
    decreases |keys|
  {
    if |keys| == 1 then AssignLast(obj, keys[0], v)
    else if !obj.JObject? then None
    else match WithValue(Descend(obj, keys[0]), keys[1..], v)
      case None => None
      case Some(c) => Some(Put(obj, keys[0], c))
  }

  /** `setNestedValue(obj, path, value)` (the json-tree input handler's writer). */
  method SetNestedValue(obj: Json, keys: seq<string>, v: string) returns (r: Option<Json>)
    requires |keys| >= 1
    ensures r == WithValue(obj, keys, v)
  {
    var current := obj;
    var trail: seq<(Json, string)> := [];
    var i := 0;
    while i < |keys| - 1
      invariant 0 <= i <= |keys| - 1
      invariant Rebuild(trail, WithValue(current, keys[i..], v)) == WithValue(obj, keys, v)
    {
      if !current.JObject? {
        // On null the read throws; on a string, number or boolean the `{}` is
        // dropped and the next read is on undefined, which throws.
        return None;
      }
      assert keys[i..][1..] == keys[i + 1..];
      var child := Descend(current, keys[i]);
      trail := trail + [(current, keys[i])];
      current := child;
      i := i + 1;
    }
    r := Rebuild(trail, AssignLast(current, keys[i], v));
  }

  // ---------------------------------------------------------------- setNestedProperty

  /** The last statement of `setNestedProperty`: only an object at the key gets
      `property` set, or deleted when the value is `undefined`; the node itself
      is never checked for a `type`. */
  function SetLastProperty(current: Json, lastKey: string, property: string, value: Option<string>): Option<Json> {
    if current.JNull? then None
    else match Member(current, lastKey)
      case Some(c) =>
        if c.JObject? then
          Some(Put(current, lastKey,
                   if value.None? then Delete(c, property) else Put(c, property, JString(value.value))))
        else Some(current)
      case None => Some(current)
  }

  /** What `setNestedProperty(obj, path, property, value)` leaves in `obj`. */
  function WithProperty(obj: Json, keys: seq<string>, property: string, value: Option<string>): (r: Option<Json>)
    requires |keys| >= 1
    decreases |keys|
  {
    if |keys| == 1 then SetLastProperty(obj, keys[0], property, value)
    else if !obj.JObject? then None
    else match WithProperty(Descend(obj, keys[0]), keys[1..], property, value)
      case None => None
      case Some(c) => Some(Put(obj, keys[0], c))
  }

  /** `setNestedProperty(obj, path, property, value)`, the writer of `validation`
      and `saveAs`. */
  method SetNestedProperty(obj: Json, keys: seq<string>, property: string, value: Option<string>)
    returns (r: Option<Json>)
    requires |keys| >= 1
    ensures r == WithProperty(obj, keys, property, value)
  {
    var current := obj;
    var trail: seq<(Json, string)> := [];
    var i := 0;
    while i < |keys| - 1
      invariant 0 <= i <= |keys| - 1
      invariant Rebuild(trail, WithProperty(current, keys[i..], property, value))
                == WithProperty(obj, keys, property, value)
    {
      if !current.JObject? {
        return None;
      }
      assert keys[i..][1..] == keys[i + 1..];
      var child := Descend(current, keys[i]);
      trail := trail + [(current, keys[i])];
      current := child;
      i := i + 1;
    }
    r := Rebuild(trail, SetLastProperty(current, keys[i], property, value));
  }

  // ---------------------------------------------------------------- properties

  /** What `setNestedValue` leaves at the path, given what was there. */
  function Assigned(previous: Option<Json>, v: string): Json {
    if previous.Some? && IsTypedLeaf(previous.value) then Put(previous.value, "value", JString(v))
    else JString(v)
  }

  /** Paths that leave `keys` at some step: they name nodes beside the path. */
  predicate Diverges(q: seq<string>, keys: seq<string>)
    decreases |q|
  {
    |q| > 0 && |keys| > 0 && (q[0] != keys[0] || Diverges(q[1..], keys[1..]))
  }

  /** Below a step, the fresh `{}` or the truthy member the walk entered holds
      what the original document holds at the longer path. */
  lemma NodeAtDescend(t: Json, k: string, rest: seq<string>)
    requires rest != []
    ensures NodeAt(Descend(t, k), rest) == NodeAt(t, [k] + rest)
  {
    assert ([k] + rest)[0] == k && ([k] + rest)[1..] == rest;
    var m := Member(t, k);
    if m.Some? && !Truthy(m.value) {
      assert !m.value.JObject?;
    }
  }

  /** A node read at a path of a written object, at the key written. */
  lemma NodeAtPut(t: Json, k: string, c: Json, rest: seq<string>)
    requires t.JObject?
    ensures NodeAt(Put(t, k, c), [k] + rest) == NodeAt(c, rest)
  {
    assert ([k] + rest)[0] == k && ([k] + rest)[1..] == rest;
  }

  /** A node read at a path whose first key was not written. */
  lemma NodeAtPutOther(t: Json, k: string, c: Json, q: seq<string>)
    requires q != [] && q[0] != k
    ensures NodeAt(Put(t, k, c), q) == NodeAt(t, q)
  {
  }

  /** When the walk meets only objects (existing or created), `setNestedValue`
      succeeds and the node at the path afterwards is the old typed leaf with only
      its `value` replaced, or else the bare string, whatever was there before
      (a branch included). */
  lemma {:induction false} WithValueAtPath(obj: Json, keys: seq<string>, v: string)
    requires |keys| >= 1 && Descendable(obj, keys[..|keys| - 1])
    ensures WithValue(obj, keys, v).Some?
    ensures NodeAt(WithValue(obj, keys, v).value, keys) == Some(Assigned(NodeAt(obj, keys), v))
    decreases |keys|
  {
    var k := keys[0];
    if |keys| == 1 {
      assert keys == [k] + [];
      NodeAtPut(obj, k, Assigned(NodeAt(obj, keys), v), []);
    } else {
      var d := Descend(obj, k);
      var rest := keys[1..];
      assert keys[..|keys| - 1][1..] == rest[..|rest| - 1];
      WithValueAtPath(d, rest, v);
      var c := WithValue(d, rest, v).value;
      assert keys == [k] + rest;
      NodeAtPut(obj, k, c, rest);
      NodeAtDescend(obj, k, rest);
    }
  }

  /** `setNestedValue` leaves every node beside the path untouched. */
  lemma {:induction false} WithValueSiblings(obj: Json, keys: seq<string>, v: string, q: seq<string>)
    requires |keys| >= 1 && WithValue(obj, keys, v).Some?
    requires Diverges(q, keys)
    ensures NodeAt(WithValue(obj, keys, v).value, q) == NodeAt(obj, q)
    decreases |keys|
  {
    var k := keys[0];
    if |keys| == 1 {
      assert q[0] != k;
    } else if q[0] != k {
      NodeAtPutOther(obj, k, WithValue(Descend(obj, k), keys[1..], v).value, q);
    } else {
      var d := Descend(obj, k);
      var c := WithValue(d, keys[1..], v).value;
      WithValueSiblings(d, keys[1..], v, q[1..]);
      assert q == [k] + q[1..];
      NodeAtPut(obj, k, c, q[1..]);
      NodeAtDescend(obj, k, q[1..]);
    }
  }

  /** On an object root, `setNestedValue` keeps the order of the top-level keys,
      appending the first path key when it is new. */
  lemma WithValueKeyOrder(obj: Json, keys: seq<string>, v: string)
    requires |keys| >= 1 && obj.JObject? && WithValue(obj, keys, v).Some?
    ensures WithValue(obj, keys, v).value.JObject?
    ensures Keys(WithValue(obj, keys, v).value.members)
            == if keys[0] in Keys(obj.members) then Keys(obj.members) else Keys(obj.members) + [keys[0]]
  {
    var k := keys[0];
    var r := WithValue(obj, keys, v).value;
    if |keys| == 1 {
      var m := Member(obj, k);
      if m.Some? && IsTypedLeaf(m.value) {
        PutMemberKeys(obj.members, k, Put(m.value, "value", JString(v)));
      } else {
        PutMemberKeys(obj.members, k, JString(v));
      }
    } else {
      PutMemberKeys(obj.members, k, WithValue(Descend(obj, k), keys[1..], v).value);
    }
  }

  /** Members of a well-formed object are well formed. */
  lemma MemberWellFormed(t: Json, k: string)
    requires WellFormed(t) && Member(t, k).Some?
    ensures WellFormed(Member(t, k).value)
  {
    LookupFound(t.members, k);
  }

  /** `setNestedValue` keeps the keys of every object unique. */
  lemma {:induction false} WithValueWellFormed(obj: Json, keys: seq<string>, v: string)
    requires |keys| >= 1 && WellFormed(obj) && WithValue(obj, keys, v).Some?
    ensures WellFormed(WithValue(obj, keys, v).value)
    decreases |keys|
  {
    var k := keys[0];
    var m := Member(obj, k);
    if |keys| == 1 {
      if m.Some? && IsTypedLeaf(m.value) {
        MemberWellFormed(obj, k);
        PutWellFormed(m.value, "value", JString(v));
        PutWellFormed(obj, k, Put(m.value, "value", JString(v)));
      } else {
        PutWellFormed(obj, k, JString(v));
      }
    } else {
      var d := Descend(obj, k);
      if TruthyOpt(m) { MemberWellFormed(obj, k); }
      WithValueWellFormed(d, keys[1..], v);
      PutWellFormed(obj, k, WithValue(d, keys[1..], v).value);
    }
  }

  /** The intended effect of `setNestedProperty` on the node at the path. */
  function PropertySet(node: Json, property: string, value: Option<string>): Json {
    if value.None? then Delete(node, property) else Put(node, property, JString(value.value))
  }

  /** When the node at the path is an object, `setNestedProperty` succeeds, the
      node afterwards has `property` set (or deleted for `undefined`), and
      `getNestedProperty` reads back exactly what was stored. */
  lemma {:induction false} PropertyRoundTrip(obj: Json, keys: seq<string>, property: string, value: Option<string>)
    requires |keys| >= 1
    requires NodeAt(obj, keys).Some? && NodeAt(obj, keys).value.JObject?
    ensures WithProperty(obj, keys, property, value).Some?
    ensures NodeAt(WithProperty(obj, keys, property, value).value, keys)
            == Some(PropertySet(NodeAt(obj, keys).value, property, value))
    ensures GetNestedProperty(WithProperty(obj, keys, property, value).value, keys, property)
            == if value.None? then None else Some(JString(value.value))
    decreases |keys|
  {
    var k := keys[0];
    var rest := keys[1..];
    assert keys == [k] + rest;
    var node := NodeAt(obj, keys).value;
    if |keys| == 1 {
      NodeAtPut(obj, k, PropertySet(node, property, value), []);
    } else {
      var c := Member(obj, k).value;
      assert NodeAt(c, rest) == NodeAt(obj, keys);
      assert c.JObject?;
      assert Descend(obj, k) == c;
      PropertyRoundTrip(c, rest, property, value);
      NodeAtPut(obj, k, WithProperty(c, rest, property, value).value, rest);
    }
  }

  /** When the node at the path is missing or not an object, `setNestedProperty`
      writes nothing there (though it may have created intermediate `{}`s). */
  lemma {:induction false} PropertyNoWrite(obj: Json, keys: seq<string>, property: string, value: Option<string>)
    requires |keys| >= 1 && WithProperty(obj, keys, property, value).Some?
    requires !(NodeAt(obj, keys).Some? && NodeAt(obj, keys).value.JObject?)
    ensures NodeAt(WithProperty(obj, keys, property, value).value, keys) == NodeAt(obj, keys)
    decreases |keys|
  {
    var k := keys[0];
    var rest := keys[1..];
    assert keys == [k] + rest;
    if |keys| > 1 {
      var d := Descend(obj, k);
      NodeAtDescend(obj, k, rest);
      PropertyNoWrite(d, rest, property, value);
      NodeAtPut(obj, k, WithProperty(d, rest, property, value).value, rest);
    }
  }

  /** `setNestedProperty` leaves every node beside the path untouched. */
  lemma {:induction false} PropertySiblings(obj: Json, keys: seq<string>, property: string, value: Option<string>, q: seq<string>)
    requires |keys| >= 1 && WithProperty(obj, keys, property, value).Some?
    requires Diverges(q, keys)
    ensures NodeAt(WithProperty(obj, keys, property, value).value, q) == NodeAt(obj, q)
    decreases |keys|
  {
    var k := keys[0];
    if |keys| == 1 {
      assert q[0] != k;
    } else if q[0] != k {
      NodeAtPutOther(obj, k, WithProperty(Descend(obj, k), keys[1..], property, value).value, q);
    } else {
      var d := Descend(obj, k);
      var c := WithProperty(d, keys[1..], property, value).value;
      PropertySiblings(d, keys[1..], property, value, q[1..]);
      assert q == [k] + q[1..];
      NodeAtPut(obj, k, c, q[1..]);
      NodeAtDescend(obj, k, q[1..]);
    }
  }
}
