/** JSON values; an object keeps its members in order. */
module Json {

  datatype Json =
    | Null
    | Bool(bool)
    | Number(text: string)
    | String(text: string)
    | Array(items: seq<Json>)
    | Object(members: seq<Member>)

  datatype Member = Member(key: string, value: Json)

  /** The first index from `i` on that holds the key, or the length of the object. */
  function IndexOf(members: seq<Member>, key: string, i: nat): (at: nat)
    requires i <= |members|
    ensures at <= |members| && (at < |members| ==> members[at].key == key)
    decreases |members| - i
  {
    if i == |members| || members[i].key == key then i else IndexOf(members, key, i + 1)
  }

  function Has(members: seq<Member>, key: string): bool {
    IndexOf(members, key, 0) < |members|
  }

  /** The value of a key, or null. */
  function Get(members: seq<Member>, key: string): Json {
    var at := IndexOf(members, key, 0);
    if at < |members| then members[at].value else Null
  }

  /** A key is looked up at the same place in objects with the same keys. */
  lemma {:induction false} SameKeysSameIndex(a: seq<Member>, b: seq<Member>, key: string, i: nat)
    requires |a| == |b| && i <= |a| && forall k :: 0 <= k < |a| ==> a[k].key == b[k].key
    ensures IndexOf(a, key, i) == IndexOf(b, key, i)
    decreases |a| - i
  {
    if i < |a| && a[i].key != key {
      SameKeysSameIndex(a, b, key, i + 1);
    }
  }
}
