/** Decoded JSON values as the Python code handles them after `json.loads`: objects keep
    their key order (the session file is decoded into `OrderedDict`s). */
module Values {
  import opened Wrappers
  import Text

  datatype Json =
    | JNull
    | JBool(b: bool)
    | JInt(i: int)
    | JStr(s: string)
    | JList(items: seq<Json>)
    | JObject(entries: seq<(string, Json)>)

  /** Python truthiness of a decoded value. */
  predicate Truthy(j: Json)
  {
    match j
    case JNull => false
    case JBool(b) => b
    case JInt(i) => i != 0
    case JStr(s) => s != []
    case JList(items) => items != []
    case JObject(entries) => entries != []
  }

  /** `j == 0` in Python: `False` compares equal to `0`. */
  predicate EqualsZero(j: Json)
  {
    j == JInt(0) || j == JBool(false)
  }

  /** The keys of an object, in order. */
  function Keys(entries: seq<(string, Json)>): (ks: seq<string>)
    ensures |ks| == |entries|
    ensures forall k :: 0 <= k < |entries| ==> ks[k] == entries[k].0
  {
    if entries == [] then [] else [entries[0].0] + Keys(entries[1..])
  }

  /** `d.get(key)` on an object. */
  function Lookup(entries: seq<(string, Json)>, key: string): (v: Option<Json>)
    ensures v.Some? <==> key in Keys(entries)
    ensures v.Some? ==> (key, v.value) in entries
  {
    if entries == [] then None
    else if entries[0].0 == key then Some(entries[0].1)
    else Lookup(entries[1..], key)
  }

  /** `d[key] = v` on an `OrderedDict`: an existing key keeps its place, a new one goes last. */
  function Put(entries: seq<(string, Json)>, key: string, v: Json): (r: seq<(string, Json)>)
    ensures Keys(r) == if key in Keys(entries) then Keys(entries) else Keys(entries) + [key]
  {
    if entries == [] then [(key, v)]
    else if entries[0].0 == key then
      var r := [(key, v)] + entries[1..];
      assert r[1..] == entries[1..];
      r
    else
      var tail := Put(entries[1..], key, v);
      var r := [entries[0]] + tail;
      assert r[1..] == tail;
      r
  }

  /** After `d[key] = v`, `d.get(key)` is `v` and every other key reads as before. */
  lemma {:induction false} PutLookup(entries: seq<(string, Json)>, key: string, v: Json)
    ensures Lookup(Put(entries, key, v), key) == Some(v)
    ensures forall other :: other != key ==> Lookup(Put(entries, key, v), other) == Lookup(entries, other)
  {
    if entries != [] && entries[0].0 != key {
      PutLookup(entries[1..], key, v);
      assert Put(entries, key, v)[1..] == Put(entries[1..], key, v);
    } else if entries != [] {
      assert Put(entries, key, v)[1..] == entries[1..];
    }
  }

  /** `len(j)`; `None` stands for the TypeError raised on values without a length. */
  function Length(j: Json): (n: Option<nat>)
    ensures n.Some? <==> (j.JStr? || j.JList? || j.JObject?)
  {
    match j
    case JStr(s) => Some(|s|)
    case JList(items) => Some(|items|)
    case JObject(entries) => Some(|entries|)
    case _ => None
  }

  /** `key in j` for a string key; `None` stands for the TypeError raised by
      containers that do not support `in`. */
  function ContainsKey(j: Json, key: string): Option<bool>
  {
    match j
    case JObject(entries) => Some(key in Keys(entries))
    case JList(items) => Some(JStr(key) in items)
    case JStr(s) => Some(Text.Contains(s, key))
    case _ => None
  }

  /** `j[key]` for a string key; `None` stands for the KeyError or TypeError raised. */
  function Index(j: Json, key: string): (v: Option<Json>)
    ensures v.Some? ==> j.JObject? && key in Keys(j.entries)
  {
    match j
    case JObject(entries) => Lookup(entries, key)
    case _ => None
  }

  /** What `for x in j` visits: the items of a list, the keys of an object, the
      one-character strings of a string; `None` stands for the TypeError raised
      on a value that is not iterable. */
  function Iterate(j: Json): (r: Option<seq<Json>>)
    ensures r.Some? <==> (j.JStr? || j.JList? || j.JObject?)
    ensures r.Some? ==> Some(|r.value|) == Length(j)
  {
    match j
    case JList(items) => Some(items)
    case JObject(entries) => Some(seq(|entries|, k requires 0 <= k < |entries| => JStr(entries[k].0)))
    case JStr(s) => Some(seq(|s|, k requires 0 <= k < |s| => JStr([s[k]])))
    case _ => None
  }
}
