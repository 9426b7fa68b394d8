/**
 * The few JavaScript values and language rules the device-identity layer
 * relies on: JSON values, `undefined`, truthiness (ECMAScript ToBoolean),
 * property access, the `env || 'fallback'` idiom, and the shape of a
 * `fetch` request and its outcome.
 */
module Js {

  datatype Option<+T> = None | Some(value: T)

  /** A value produced by `JSON.parse` or `response.json()`. */
  datatype Json =
    | JNull
    | JBool(b: bool)
    | JNum(n: real)
    | JStr(s: string)
    | JArr(items: seq<Json>)
    | JObj(fields: map<string, Json>)

  /** ToBoolean of a value; `None` stands for `undefined`. */
  predicate Truthy(v: Option<Json>)
  {
    match v
    case None => false
    case Some(j) =>
      match j
      case JNull => false
      case JBool(b) => b
      case JNum(n) => n != 0.0
      case JStr(s) => s != ""
      case JArr(_) => true
      case JObj(_) => true
  }

  /**
   * `j.key` on a value that is not null: only an object has own
   * properties that JSON can give it; anything else yields `undefined`.
   */
  function Prop(j: Json, key: string): (r: Option<Json>)
    requires j != JNull
    ensures r.Some? <==> j.JObj? && key in j.fields
    ensures r.Some? ==> r.value == j.fields[key]
  {
    if j.JObj? && key in j.fields then Some(j.fields[key]) else None
  }

  /** `process.env.NAME || fallback`: an unset or empty variable gives the fallback. */
  function EnvOr(env: Option<string>, fallback: string): (r: string)
    ensures env.Some? && env.value != "" ==> r == env.value
    ensures env.None? || env.value == "" ==> r == fallback
  {
    if env.Some? && env.value != "" then env.value else fallback
  }

  /** The number a string of decimal digits denotes. */
  function DecimalValue(s: string): nat
    requires forall i :: 0 <= i < |s| ==> '0' <= s[i] <= '9'
  {
    if s == [] then 0
    else DecimalValue(s[..|s| - 1]) * 10 + (s[|s| - 1] as int - '0' as int)
  }

  /** The decimal text of a non-negative integer. */
  function NatText(n: nat): (s: string)
    ensures |s| >= 1
    ensures forall i :: 0 <= i < |s| ==> '0' <= s[i] <= '9'
    decreases n
  {
    var last := [('0' as int + n % 10) as char];
    if n < 10 then last else NatText(n / 10) + last
  }

  /** The text denotes the number, without a leading zero. */
  lemma {:induction false} NatTextValue(n: nat)
    ensures DecimalValue(NatText(n)) == n
    ensures |NatText(n)| > 1 ==> NatText(n)[0] != '0'
    decreases n
  {
    var s := NatText(n);
    if n >= 10 {
      NatTextValue(n / 10);
      var prefix := NatText(n / 10);
      assert s[..|s| - 1] == prefix;
      assert s[0] == prefix[0];
    }
  }

  /** `${n}` for an integer-valued number. */
  function IntText(n: int): (s: string)
    ensures 0 <= n ==> s == NatText(n)
    ensures n < 0 ==> s == "-" + NatText(-n)
  {
    if n < 0 then "-" + NatText(-n) else NatText(n)
  }

  /**
   * The object literal passed as `headers` (a `HeadersInit` record): the
   * values are whatever the code stored; `fetch` turns them into text.
   */
  type Headers = map<string, Json>

  /** The arguments of one `fetch(url, { method, headers, body })` call (`verb` is `method`). */
  datatype Request = Request(verb: string, url: string, headers: Headers, body: Option<Json>)

  /** A response; `json` is `None` when `response.json()` rejects. */
  datatype Response = Response(ok: bool, json: Option<Json>)

  /** What awaiting `fetch` gives: a rejection (network error) or a response. */
  datatype FetchOutcome = NetworkError | Received(response: Response)
}
