/** JSON values: the jsonb columns and the documents the exporters produce. */
module JsonValues {
  import opened Wrappers

  datatype Json =
    | JNull
    | JBool(b: bool)
    | JNumber(n: real)
    | JString(s: string)
    | JArray(items: seq<Json>)
    | JObject(members: seq<(string, Json)>)

  /** The value of the first member named `key` in a member list. */
  function MemberIn(members: seq<(string, Json)>, key: string): Option<Json> {
    if |members| == 0 then None
    else if members[0].0 == key then Some(members[0].1)
    else MemberIn(members[1..], key)
  }

  /** The value of the first member named `key` of an object; nothing for other values. */
  function Member(j: Json, key: string): Option<Json> {
    if j.JObject? then MemberIn(j.members, key) else None
  }

  /** The member found for a name is the one at its first occurrence. */
  lemma {:induction false} MemberFirst(members: seq<(string, Json)>, key: string, i: nat)
    requires i < |members| && members[i].0 == key
    requires forall k :: 0 <= k < i ==> members[k].0 != key
    ensures MemberIn(members, key) == Some(members[i].1)
  {
    if i > 0 {
      MemberFirst(members[1..], key, i - 1);
    }
  }

  /** In an object whose member names are distinct, every name finds its own member. */
  lemma DistinctKeyFound(members: seq<(string, Json)>, i: nat)
    requires i < |members|
    requires forall a, b :: 0 <= a < b < |members| ==> members[a].0 != members[b].0
    ensures MemberIn(members, members[i].0) == Some(members[i].1)
  {
    MemberFirst(members, members[i].0, i);
  }

  /** The member names of an object, in order. */
  function Keys(members: seq<(string, Json)>): (r: seq<string>)
    ensures |r| == |members|
    ensures forall i :: 0 <= i < |r| ==> r[i] == members[i].0
  {
    if |members| == 0 then [] else [members[0].0] + Keys(members[1..])
  }
}
