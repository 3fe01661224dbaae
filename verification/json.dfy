/**
  An abstract JSON document: what `encoding/json` hands to, or takes from,
  the custom marshalling code once bytes, whitespace and escapes are gone.
  An object keeps its members in document order, duplicates included.
*/
module Json {
  import opened Wrappers

  datatype JsonValue =
    | JNull
    | JBool(b: bool)
      /** A number literal written as an optional minus sign and digits. */
    | JInt(i: int)
      /** A number literal with a fraction or an exponent part, kept as its text. */
    | JDecimal(literal: string)
    | JString(s: string)
    | JArray(items: seq<JsonValue>)
    | JObject(members: seq<(string, JsonValue)>)

  type Member = (string, JsonValue)

  /** Input to a decoder: bytes that are not well-formed JSON, or one well-formed document. */
  datatype Wire = Malformed | Document(value: JsonValue)

  /** The keys of an object, in document order. */
  function Keys(ms: seq<Member>): (r: seq<string>)
    ensures |r| == |ms|
    ensures forall i :: 0 <= i < |ms| ==> r[i] == ms[i].0
  {
    seq(|ms|, i requires 0 <= i < |ms| => ms[i].0)
  }

  /** The value of the first member named `key`, if any. */
  function Get(ms: seq<Member>, key: string): (r: Option<JsonValue>)
    ensures r.None? <==> forall i :: 0 <= i < |ms| ==> ms[i].0 != key
    ensures r.Some? ==> exists i :: 0 <= i < |ms| && ms[i] == (key, r.value)
                                   && forall j :: 0 <= j < i ==> ms[j].0 != key
  {
    if |ms| == 0 then None
    else if ms[0].0 == key then Some(ms[0].1)
    else Get(ms[1..], key)
  }

  /** `Get` finds the member at the first position that carries the key. */
  lemma GetFirst(ms: seq<Member>, key: string, k: int)
    requires 0 <= k < |ms| && ms[k].0 == key
    requires forall j :: 0 <= j < k ==> ms[j].0 != key
    ensures Get(ms, key) == Some(ms[k].1)
  {
  }
}
