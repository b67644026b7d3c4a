/**
 A parsed JSON document as JavaScript sees it after `JSON.parse`. An object is
 the list of its members in key order; a parsed object has distinct keys, so a
 lookup takes the first member with the key.
 */
module Json {
  import opened Wrappers

  datatype Json =
    | Null
    | Bool(b: bool)
    | Num(n: int)
    | Str(s: string)
    | Arr(items: seq<Json>)
    | Obj(members: seq<(string, Json)>)

  /** The value stored under `key`, or `None` when the key is absent. */
  function Get(members: seq<(string, Json)>, key: string): Option<Json>
  {
    if |members| == 0 then None
    else if members[0].0 == key then Some(members[0].1)
    else Get(members[1..], key)
  }

  /** The object with `key` set to `v`: the first member with that key is replaced, or a member is appended. */
  function With(members: seq<(string, Json)>, key: string, v: Json): (r: seq<(string, Json)>)
    ensures Get(r, key) == Some(v)
    ensures forall k :: k != key ==> Get(r, k) == Get(members, k)
  {
    if |members| == 0 then [(key, v)]
    else if members[0].0 == key then [(key, v)] + members[1..]
    else
      var rest := With(members[1..], key, v);
      assert ([members[0]] + rest)[1..] == rest;
      [members[0]] + rest
  }

  /** The object with every member under `key` removed. */
  function Without(members: seq<(string, Json)>, key: string): (r: seq<(string, Json)>)
    ensures Get(r, key) == None
    ensures forall k :: k != key ==> Get(r, k) == Get(members, k)
  {
    if |members| == 0 then []
    else
      var rest := Without(members[1..], key);
      if members[0].0 == key then rest
      else
        assert ([members[0]] + rest)[1..] == rest;
        [members[0]] + rest
  }
}
