/** The JavaScript view of a decoded JSON response body: scalar values, nested
    objects (whose content the front end never inspects) and objects as ordered
    lists of own properties. A JavaScript object never holds a key twice, so an
    object is a key/value sequence with distinct keys, in insertion order. */
module Json {
  import opened Wrappers

  datatype JsValue =
    | JNull
    | JBool(b: bool)
    | JNum(n: int)
    | JStr(s: string)
    | JObject

  predicate DistinctKeys<V>(s: seq<(string, V)>)
  {
    forall i, j :: 0 <= i < j < |s| ==> s[i].0 != s[j].0
  }

  /** An object's own enumerable properties, in `Object.entries` order. */
  type Assoc<V> = s: seq<(string, V)> | DistinctKeys(s) witness []

  /** JavaScript's `'key' in obj`. */
  predicate HasKey<V>(o: seq<(string, V)>, key: string)
  {
    exists i :: 0 <= i < |o| && o[i].0 == key
  }

  /** Property access `obj[key]`; `None` is `undefined`. */
  function Get<V>(o: Assoc<V>, key: string): (r: Option<V>)
    ensures r.Some? <==> HasKey(o, key)
    ensures r.Some? ==> exists i :: 0 <= i < |o| && o[i] == (key, r.value)
  {
    if o == [] then None
    else if o[0].0 == key then Some(o[0].1)
    else
      var rest: Assoc<V> := o[1..];
      assert forall i :: 0 <= i < |rest| ==> rest[i] == o[i + 1];
      Get(rest, key)
  }

  /** Property assignment `obj[key] = value`: an existing key keeps its place and
      takes the new value, a new key goes to the end. */
  function Put<V>(o: Assoc<V>, key: string, value: V): (r: Assoc<V>)
    ensures HasKey(o, key) ==> |r| == |o|
    ensures !HasKey(o, key) ==> r == o + [(key, value)]
    ensures Get(r, key) == Some(value)
  {
    if HasKey(o, key) then
      var r := seq(|o|, i requires 0 <= i < |o| => if o[i].0 == key then (key, value) else o[i]);
      assert forall i :: 0 <= i < |r| ==> r[i].0 == o[i].0;
      var j :| 0 <= j < |o| && o[j].0 == key;
      assert r[j] == (key, value);
      GetAt(r, j);
      r
    else
      var r := o + [(key, value)];
      assert forall i :: 0 <= i < |o| ==> r[i] == o[i];
      GetAt(r, |o|);
      r
  }

  lemma GetAt<V>(o: Assoc<V>, i: nat)
    requires i < |o|
    ensures Get(o, o[i].0) == Some(o[i].1)
  {
    if i > 0 {
      var rest: Assoc<V> := o[1..];
      assert rest[i - 1] == o[i];
      GetAt(rest, i - 1);
    }
  }

  /** JavaScript truthiness; `undefined` is falsy. */
  predicate Truthy(v: Option<JsValue>)
  {
    match v
    case None => false
    case Some(JNull) => false
    case Some(JBool(b)) => b
    case Some(JNum(n)) => n != 0
    case Some(JStr(s)) => s != ""
    case Some(JObject) => true
  }

  function DigitChar(d: nat): char
    requires d < 10
  {
    "0123456789"[d]
  }

  function NatToDecimal(n: nat): (r: string)
    ensures |r| > 0
    decreases n
  {
    if n < 10 then [DigitChar(n)] else NatToDecimal(n / 10) + [DigitChar(n % 10)]
  }

  /** JavaScript's `String(value)`. */
  function ToJsString(v: JsValue): string
  {
    match v
    case JNull => "null"
    case JBool(b) => if b then "true" else "false"
    case JNum(n) => if n < 0 then "-" + NatToDecimal(-n) else NatToDecimal(n)
    case JStr(s) => s
    case JObject => "[object Object]"
  }
}
