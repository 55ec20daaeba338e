/** The JavaScript values the widget handles: what `JSON.parse` yields and
    the few coercions (truthiness, property access, `toString`,
    `Object.values`) the widget applies to them. */
module Js {
  import opened Wrappers

  /** A JavaScript number together with the text `Number.prototype.toString`
      gives for it. The conversion from binary floating point to text is
      not modelled; the text is carried along with the value. */
  datatype Number = Number(value: real, text: string)

  /** A parsed JSON value. An object lists its members in the order in which
      JavaScript enumerates them; each key occurs once, as in every JavaScript
      object (`JSON.parse` keeps the last of repeated keys). */
  datatype Json =
    | JNull
    | JBool(b: bool)
    | JNum(n: Number)
    | JStr(s: string)
    | JArr(items: seq<Json>)
    | JObj(fields: seq<(string, Json)>)

  /** JavaScript truthiness. A JSON number cannot be NaN, so only 0 is falsy. */
  predicate Truthy(v: Json)
    // the falsy JSON values are exactly null, false, 0 and ""
    ensures Truthy(v) <==> !(v == JNull || v == JBool(false) || v == JStr("") || (v.JNum? && v.n.value == 0.0))
  {
    match v
    case JNull => false
    case JBool(b) => b
    case JNum(n) => n.value != 0.0
    case JStr(s) => s != ""
    case JArr(_) => true
    case JObj(_) => true
  }

  /** Truthiness of a property read, where `None` is `undefined`. */
  predicate TruthyOpt(v: Option<Json>)
    ensures v.None? ==> !TruthyOpt(v)
    ensures v.Some? ==> (TruthyOpt(v) <==> Truthy(v.value))
  {
    v.Some? && Truthy(v.value)
  }

  /** The first member of `fields` named `key`, or `None`. */
  function Lookup(fields: seq<(string, Json)>, key: string): (r: Option<Json>)
    ensures r.None? <==> forall i :: 0 <= i < |fields| ==> fields[i].0 != key
    ensures r.Some? ==>
              exists i :: 0 <= i < |fields| && fields[i] == (key, r.value) &&
                          forall j :: 0 <= j < i ==> fields[j].0 != key
  {
    if |fields| == 0 then None
    else if fields[0].0 == key then Some(fields[0].1)
    else
      var r := Lookup(fields[1..], key);
      assert forall i :: 1 <= i < |fields| ==> fields[i] == fields[1..][i - 1];
      if r.Some? then
        var i :| 0 <= i < |fields[1..]| && fields[1..][i] == (key, r.value) &&
                 forall j :: 0 <= j < i ==> fields[1..][j].0 != key;
        assert fields[i + 1] == (key, r.value) && forall j :: 0 <= j < i + 1 ==> fields[j].0 != key;
        r
      else r
  }

  /** Property access `v.key` on a value that is not `null`. Arrays, strings,
      numbers and booleans have none of the properties the widget reads;
      `None` is `undefined`. */
  function Property(v: Json, key: string): (r: Option<Json>)
    ensures !v.JObj? ==> r.None?
  {
    match v
    case JObj(fields) => Lookup(fields, key)
    case _ => None
  }

  /** `Object.values(v)`: an object's member values in order, a string's
      characters, nothing for a number or boolean; `null` makes it throw,
      which is `None`. */
  function ObjectValues(v: Json): (r: Option<seq<Json>>)
    ensures r.None? <==> v.JNull?
    ensures v.JObj? ==>
              r.Some? && |r.value| == |v.fields| &&
              forall i :: 0 <= i < |v.fields| ==> r.value[i] == v.fields[i].1
    ensures v.JStr? ==>
              r.Some? && |r.value| == |v.s| &&
              forall i :: 0 <= i < |v.s| ==> r.value[i] == JStr([v.s[i]])
  {
    match v
    case JNull => None
    case JBool(_) => Some([])
    case JNum(_) => Some([])
    case JStr(s) => Some(seq(|s|, i requires 0 <= i < |s| => JStr([s[i]])))
    case JArr(items) => Some(items)
    case JObj(fields) => Some(seq(|fields|, i requires 0 <= i < |fields| => fields[i].1))
  }

  /** `String(v)` / template-literal interpolation (`${v}`) of a value that is
      not `undefined`. An array joins its elements with "," and writes
      `null` elements as the empty string. */
  function ToText(v: Json): (r: string)
    ensures v.JStr? ==> r == v.s
    ensures v.JNum? ==> r == v.n.text
    ensures v == JNull ==> r == "null"
    ensures v.JBool? ==> r == if v.b then "true" else "false"
    ensures v == JArr([]) || v == JArr([JNull]) ==> r == ""
    ensures v.JObj? ==> r == "[object Object]"
    decreases v, 1
  {
    match v
    case JNull => "null"
    case JBool(b) => if b then "true" else "false"
    case JNum(n) => n.text
    case JStr(s) => s
    case JArr(items) => JoinText(items, 0)
    case JObj(_) => "[object Object]"
  }

  /** The `join(",")` of `items[i..]`. */
  function JoinText(items: seq<Json>, i: nat): (r: string)
    requires i <= |items|
    decreases JArr(items), 0, |items| - i
  {
    if i == |items| then ""
    else
      var head := if items[i].JNull? then "" else ToText(items[i]);
      if i + 1 == |items| then head else head + "," + JoinText(items, i + 1)
  }

  /** Interpolation of a property read: `undefined` is written "undefined". */
  function ToTextOpt(v: Option<Json>): (r: string)
  {
    match v
    case None => "undefined"
    case Some(x) => ToText(x)
  }

  /** Decimal digits of a natural number. The timestamp written to the cache
      carries this text only so that the entry is a complete JSON number; no
      read depends on it. */
  function NatText(n: nat): (r: string)
    ensures |r| > 0
    ensures forall i :: 0 <= i < |r| ==> '0' <= r[i] <= '9'
  {
    var d := ['0' + (n % 10) as char];
    if n < 10 then d else NatText(n / 10) + d
  }

  /** The number a JavaScript integer such as `Date.now()` is, with its text. */
  function IntNumber(t: int): (r: Number)
    ensures r.value == t as real
  {
    Number(t as real, if t < 0 then "-" + NatText(-t) else NatText(t))
  }
}
