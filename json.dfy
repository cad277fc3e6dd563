/** Parsed JSON values as the handler sees them after `JSON.parse`, and the
    string conversion a template literal such as `Discharge notes: ${x}` applies. */
module Json {

  datatype Option<+T> = None | Some(value: T)

  /** A value produced by `JSON.parse`. Numbers are kept as integers. */
  datatype Value =
    | Null
    | Bool(b: bool)
    | Num(n: int)
    | Str(s: string)
    | Arr(items: seq<Value>)
    | Obj(fields: map<string, Value>)

  /** A parsed JSON object: a patient, a note or a request body. */
  type Record = map<string, Value>

  /** Property access `r.k` on a parsed object; `None` stands for `undefined`. */
  function Get(r: Record, k: string): Option<Value>
  {
    if k in r then Some(r[k]) else None
  }

  predicate IsDigit(c: char)
  {
    '0' <= c <= '9'
  }

  function DigitChar(d: nat): (c: char)
    requires d < 10
    ensures IsDigit(c)
  {
    (48 + d) as char
  }

  function DigitValue(c: char): (d: nat)
    requires IsDigit(c)
    ensures d < 10
  {
    c as int - 48
  }

  /** The decimal numeral of a natural number, as `String(n)` writes it. */
  function NatToDecimal(n: nat): (s: string)
    ensures |s| >= 1
    ensures forall i :: 0 <= i < |s| ==> IsDigit(s[i])
    ensures |s| > 1 ==> s[0] != '0'
    decreases n
  {
    if n < 10 then [DigitChar(n)] else NatToDecimal(n / 10) + [DigitChar(n % 10)]
  }

  /** The number a string of decimal digits denotes. */
  function DecimalValue(s: string): nat
    requires forall i :: 0 <= i < |s| ==> IsDigit(s[i])
  {
    if s == [] then 0 else DecimalValue(s[..|s| - 1]) * 10 + DigitValue(s[|s| - 1])
  }

  lemma {:induction false} DecimalRoundTrip(n: nat)
    ensures DecimalValue(NatToDecimal(n)) == n
    decreases n
  {
    var s := NatToDecimal(n);
    if n >= 10 {
      DecimalRoundTrip(n / 10);
      assert s[..|s| - 1] == NatToDecimal(n / 10);
    }
  }

  /** `String(n)` for an integer. */
  function IntToDecimal(n: int): string
  {
    if n < 0 then "-" + NatToDecimal(-n) else NatToDecimal(n)
  }

  /** `Array.prototype.join(",")` over already converted elements; a conversion
      that threw (None) makes the whole join throw. */
  function JoinTexts(ts: seq<Option<string>>): (r: Option<string>)
    ensures r.None? <==> exists i :: 0 <= i < |ts| && ts[i].None?
  {
    if ts == [] then Some("")
    else if |ts| == 1 then ts[0]
    else
      var rest := JoinTexts(ts[1..]);
      if ts[0].Some? && rest.Some? then Some(ts[0].value + "," + rest.value) else None
  }

  /** The string a template literal substitutes for a parsed value, or None
      where the conversion throws a TypeError. An array joins its elements
      with "," (null elements become ""); a plain object becomes
      "[object Object]"; an object with its own `toString` key has no callable
      conversion left (its `valueOf` returns the object itself) and throws. */
  function ToText(v: Value): Option<string>
    decreases v
  {
    match v
    case Null => Some("null")
    case Bool(b) => Some(if b then "true" else "false")
    case Num(n) => Some(IntToDecimal(n))
    case Str(s) => Some(s)
    case Arr(items) =>
      JoinTexts(seq(|items|, i requires 0 <= i < |items| =>
        if items[i].Null? then Some("") else ToText(items[i])))
    case Obj(fields) => if "toString" in fields then None else Some("[object Object]")
  }

  /** `${x}` where `x` may be `undefined`. */
  function TemplateText(v: Option<Value>): Option<string>
  {
    match v
    case None => Some("undefined")
    case Some(x) => ToText(x)
  }

  /** Whether some object inside `v` (itself, or an array element at any depth)
      carries its own `toString` key. */
  predicate HasOwnToString(v: Value)
    decreases v
  {
    match v
    case Obj(fields) => "toString" in fields
    case Arr(items) => exists i :: 0 <= i < |items| && HasOwnToString(items[i])
    case _ => false
  }

  /** Converting a parsed value into template text fails exactly when some
      object in it has its own `toString` key. */
  lemma {:induction false} ToTextFails(v: Value)
    ensures ToText(v).None? <==> HasOwnToString(v)
    decreases v
  {
    match v
    case Arr(items) =>
      var ts := seq(|items|, i requires 0 <= i < |items| =>
        if items[i].Null? then Some("") else ToText(items[i]));
      forall i | 0 <= i < |items|
        ensures ts[i].None? <==> HasOwnToString(items[i])
      {
        ToTextFails(items[i]);
      }
    case _ =>
  }

  /** A string is substituted verbatim and `undefined` as the word "undefined". */
  lemma TemplateTextOfString(s: string)
    ensures TemplateText(Some(Str(s))) == Some(s)
    ensures TemplateText(None) == Some("undefined")
  {
  }
}
