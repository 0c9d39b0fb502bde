/** JSON-shaped data as the editor handles it after `JSON.parse`: plain objects
    whose members keep their insertion order, strings, numbers, booleans and null.
    Member access follows JavaScript: reading a member of anything but an object
    gives `undefined`, writing one is silently ignored. */
module JsonValue {
  import opened Wrappers

  datatype Json =
    | JNull
    | JBool(b: bool)
    | JNumber(n: int)
    | JString(s: string)
    | JObject(members: seq<(string, Json)>)

  /** JavaScript truthiness. */
  predicate Truthy(j: Json) {
    match j
    case JNull => false
    case JBool(b) => b
    case JNumber(n) => n != 0
    case JString(s) => s != ""
    case JObject(_) => true
  }

  /** Truthiness of a member read, where `None` is `undefined`. */
  predicate TruthyOpt(o: Option<Json>) {
    o.Some? && Truthy(o.value)
  }

  /** `Object.keys`, in insertion order. */
  function Keys(ms: seq<(string, Json)>): (ks: seq<string>)
    ensures |ks| == |ms|
    decreases |ms|
  {
    if ms == [] then [] else [ms[0].0] + Keys(ms[1..])
  }

  /** Object keys are unique, as they are in every object `JSON.parse` builds. */
  predicate UniqueKeys(ms: seq<(string, Json)>) {
    forall i, j :: 0 <= i < j < |ms| ==> ms[i].0 != ms[j].0
  }

  /** Every object in the value has unique keys. */
  predicate WellFormed(j: Json)
    decreases j
  {
    match j
    case JObject(ms) =>
      UniqueKeys(ms) && forall i :: 0 <= i < |ms| ==> WellFormed(ms[i].1)
    case _ => true
  }

  /** The value stored under `key`, if any. */
  function Lookup(ms: seq<(string, Json)>, key: string): (r: Option<Json>)
    decreases |ms|
  {
    if ms == [] then None
    else if ms[0].0 == key then Some(ms[0].1)
    else Lookup(ms[1..], key)
  }

  /** A key reads as present exactly when it is one of the keys, and what it
      reads is stored under it. */
  lemma {:induction false} LookupFound(ms: seq<(string, Json)>, key: string)
    ensures Lookup(ms, key).Some? <==> key in Keys(ms)
    ensures Lookup(ms, key).Some? ==> exists i :: 0 <= i < |ms| && ms[i] == (key, Lookup(ms, key).value)
    decreases |ms|
  {
    if ms != [] {
      LookupFound(ms[1..], key);
      if ms[0].0 != key && Lookup(ms, key).Some? {
        var i :| 0 <= i < |ms[1..]| && ms[1..][i] == (key, Lookup(ms, key).value);
        assert ms[i + 1] == ms[1..][i];
      }
    }
  }

  /** `j[key]`: `None` is `undefined`. */
  function Member(j: Json, key: string): Option<Json> {
    if j.JObject? then Lookup(j.members, key) else None
  }

  /** `ms[key] = v`: an existing key keeps its place, a new key goes last. */
  function PutMember(ms: seq<(string, Json)>, key: string, v: Json): (r: seq<(string, Json)>)
    ensures Lookup(r, key) == Some(v)
    ensures forall k :: k != key ==> Lookup(r, k) == Lookup(ms, k)
    decreases |ms|
  {
    if ms == [] then [(key, v)]
    else if ms[0].0 == key then [(key, v)] + ms[1..]
    else [ms[0]] + PutMember(ms[1..], key, v)
  }

  /** Assignment keeps the key order, appending a new key. */
  lemma {:induction false} PutMemberKeys(ms: seq<(string, Json)>, key: string, v: Json)
    ensures Keys(PutMember(ms, key, v)) == if key in Keys(ms) then Keys(ms) else Keys(ms) + [key]
    decreases |ms|
  {
    var r := PutMember(ms, key, v);
    if ms == [] {
      assert Keys(r) == [key];
    } else if ms[0].0 == key {
      assert r[1..] == ms[1..];
      assert Keys(r) == [key] + Keys(ms[1..]);
    } else {
      var rest := PutMember(ms[1..], key, v);
      assert r[0] == ms[0] && r[1..] == rest;
      PutMemberKeys(ms[1..], key, v);
      assert Keys(r) == [ms[0].0] + Keys(rest);
      assert key in Keys(ms) <==> key in Keys(ms[1..]);
    }
  }

  lemma {:induction false} PutMemberUnique(ms: seq<(string, Json)>, key: string, v: Json)
    requires UniqueKeys(ms)
    ensures UniqueKeys(PutMember(ms, key, v))
    decreases |ms|
  {
    var r := PutMember(ms, key, v);
    if ms != [] && ms[0].0 == key {
      assert forall i :: 0 <= i < |r| ==> r[i].0 == ms[i].0;
    } else if ms != [] {
      var rest := PutMember(ms[1..], key, v);
      PutMemberUnique(ms[1..], key, v);
      forall i | 0 <= i < |rest| ensures rest[i].0 != ms[0].0 {
        PutMemberElements(ms[1..], key, v, i);
      }
      assert r == [ms[0]] + rest;
    }
  }

  /** `delete ms[key]`: the key disappears, the other members keep their order. */
  function DeleteMember(ms: seq<(string, Json)>, key: string): (r: seq<(string, Json)>)
    ensures Lookup(r, key) == None
    ensures forall k :: k != key ==> Lookup(r, k) == Lookup(ms, k)
    ensures UniqueKeys(ms) ==> UniqueKeys(r)
    ensures forall i :: 0 <= i < |r| ==> r[i] in ms
    decreases |ms|
  {
    if ms == [] then []
    else if ms[0].0 == key then DeleteMember(ms[1..], key)
    else [ms[0]] + DeleteMember(ms[1..], key)
  }

  /** `j[key] = v`; on anything but an object the assignment has no effect. */
  function Put(j: Json, key: string, v: Json): Json {
    if j.JObject? then JObject(PutMember(j.members, key, v)) else j
  }

  /** `delete j[key]`. */
  function Delete(j: Json, key: string): Json {
    if j.JObject? then JObject(DeleteMember(j.members, key)) else j
  }

  /** An object with a truthy `type` member: a typed leaf of a parameter tree.
      Any other object is a branch. */
  predicate IsTypedLeaf(j: Json) {
    j.JObject? && TruthyOpt(Member(j, "type"))
  }

  /** In an object with unique keys, the member stored at position `i` is what a
      read of its key returns. */
  lemma {:induction false} LookupAtIndex(ms: seq<(string, Json)>, i: nat)
    requires UniqueKeys(ms) && i < |ms|
    ensures Lookup(ms, ms[i].0) == Some(ms[i].1)
    decreases |ms|
  {
    if i > 0 {
      assert ms[0].0 != ms[i].0;
      assert ms[1..][i - 1] == ms[i];
      LookupAtIndex(ms[1..], i - 1);
    }
  }

  /** Assignment keeps every object of the value key-unique. */
  lemma PutWellFormed(j: Json, key: string, v: Json)
    requires WellFormed(j) && WellFormed(v)
    ensures WellFormed(Put(j, key, v))
  {
    if j.JObject? {
      var r := PutMember(j.members, key, v);
      PutMemberUnique(j.members, key, v);
      forall i | 0 <= i < |r| ensures WellFormed(r[i].1) {
        PutMemberElements(j.members, key, v, i);
      }
    }
  }

  lemma {:induction false} PutMemberElements(ms: seq<(string, Json)>, key: string, v: Json, i: nat)
    requires i < |PutMember(ms, key, v)|
    ensures PutMember(ms, key, v)[i] in ms || PutMember(ms, key, v)[i] == (key, v)
    decreases |ms|
  {
    if ms != [] && ms[0].0 != key && i > 0 {
      PutMemberElements(ms[1..], key, v, i - 1);
    }
  }

  /** Deletion keeps every object of the value key-unique. */
  lemma DeleteWellFormed(j: Json, key: string)
    requires WellFormed(j)
    ensures WellFormed(Delete(j, key))
  {
  }
}
