/**
 * JSON values as the tap receives them from the API and hands them to the
 * output protocol. An object keeps its entries in insertion order, as a
 * Python dict does; lookups find the first entry with the key.
 */
module Json {
  import opened Wrappers

  datatype Value =
    | JNull
    | JBool(b: bool)
    | JInt(i: int)
    | JStr(s: string)
    | JArray(items: seq<Value>)
    | JObject(fields: seq<Field>)

  datatype Field = Field(key: string, value: Value)

  type Object = seq<Field>

  /** Position of the first entry of `o` whose key is `key`. */
  function Find(o: Object, key: string): (r: Option<nat>)
    ensures r.Some? ==> r.value < |o| && o[r.value].key == key
    ensures r.Some? ==> forall j :: 0 <= j < r.value ==> o[j].key != key
    ensures r.None? ==> forall j :: 0 <= j < |o| ==> o[j].key != key
  {
    if |o| == 0 then None
    else if o[0].key == key then Some(0)
    else match Find(o[1..], key)
      case None => None
      case Some(k) => Some(k + 1)
  }

  /** `o.get(key)`: the value stored under `key`, if any. */
  function Get(o: Object, key: string): Option<Value>
  {
    match Find(o, key)
    case None => None
    case Some(k) => Some(o[k].value)
  }

  /** No two entries share a key (true of every object a Python dict produces). */
  predicate DistinctKeys(o: Object)
  {
    forall i, j :: 0 <= i < j < |o| ==> o[i].key != o[j].key
  }
}
