/** Decoded JSON values. A mapping keeps its entries in the order it was read. */
module Json {
  import opened Wrappers

  datatype Json =
    | Null
    | Bool(b: bool)
    | Int(n: int)
    | Float(text: string)
    | Str(s: string)
    | List(items: seq<Json>)
    | Dict(entries: seq<(string, Json)>)

  function KeysOf(entries: seq<(string, Json)>): (keys: set<string>)
    ensures forall k :: k in keys <==> exists i :: 0 <= i < |entries| && entries[i].0 == k
  {
    set i | 0 <= i < |entries| :: entries[i].0
  }

  predicate DistinctKeys(entries: seq<(string, Json)>) {
    forall i, j | 0 <= i < j < |entries| :: entries[i].0 != entries[j].0
  }

  function Find(entries: seq<(string, Json)>, key: string): (r: Option<Json>)
    ensures r.Some? <==> key in KeysOf(entries)
    ensures r.Some? ==> exists i :: 0 <= i < |entries| && entries[i] == (key, r.value)
  {
    if entries == [] then None
    else if entries[0].0 == key then assert entries[0] == (key, entries[0].1); Some(entries[0].1)
    else
      var rest := Find(entries[1..], key);
      assert forall i | 1 <= i < |entries| :: entries[i] == entries[1..][i - 1];
      rest
  }

  /** Every mapping in the value has distinct keys. */
  predicate Keyed(j: Json) {
    match j
    case List(items) => forall i | 0 <= i < |items| :: Keyed(items[i])
    case Dict(entries) => DistinctKeys(entries) && forall i | 0 <= i < |entries| :: Keyed(entries[i].1)
    case _ => true
  }
}
