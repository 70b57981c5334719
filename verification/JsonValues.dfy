/** JSON documents as nlohmann::json presents them, and the events built from them. */
module JsonValues {
  import opened Wrappers

  // The members of an object are listed in the order its iterator visits them.
  datatype Json =
    | Null
    | Bool(b: bool)
    | Int(i: int)
    | Float(x: real)
    | Str(s: string)
    | Arr(items: seq<Json>)
    | Obj(members: seq<Member>)

  datatype Member = Member(key: string, value: Json)

  datatype Event = Event(key: string, value: Json)

  /** `count` and `at` of an object in one: the value under `key`, if any. */
  function Find(members: seq<Member>, key: string): (value: Option<Json>)
    ensures value.Some? <==> exists k :: 0 <= k < |members| && members[k].key == key
    ensures value.Some? ==> Member(key, value.value) in members
  {
    if members == [] then None
    else if members[0].key == key then Some(members[0].value)
    else Find(members[1..], key)
  }

  /** An object holds each key once. */
  ghost predicate DistinctKeys(members: seq<Member>) {
    forall i, j :: 0 <= i < j < |members| ==> members[i].key != members[j].key
  }
}
