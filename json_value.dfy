/**
 A parsed JSON document as the validator sees it after `json.load`: the value
 kinds Python's decoder produces (None, bool, int, float, str, list, dict),
 together with the few Python built-ins the validator applies to them
 (`type(v).__name__`, `str(v)` and hashability).
 */
module JsonValue {

  datatype Json =
    | Null
    | Bool(b: bool)
    | Int(i: int)
      /** A JSON number with a fraction or exponent, which Python decodes to a
          float. Only the text `str()` gives for it is kept; no arithmetic is done. */
    | Num(text: string)
    | Str(s: string)
    | Arr(items: seq<Json>)
    | Obj(fields: map<string, Json>)

  /** A record: one JSON object taken from a collection's array. */
  type Row = map<string, Json>

  /** Python's `type(v).__name__` for the values `json.load` produces. */
  function TypeName(v: Json): (name: string)
    ensures |name| > 0
    ensures name == "dict" <==> v.Obj?
    ensures name == "bool" <==> v.Bool?
    ensures name == "int" <==> v.Int?
  {
    match v
    case Null => "NoneType"
    case Bool(_) => "bool"
    case Int(_) => "int"
    case Num(_) => "float"
    case Str(_) => "str"
    case Arr(_) => "list"
    case Obj(_) => "dict"
  }

  /** Lists and dicts cannot be set elements; `x in some_set` raises TypeError for them. */
  predicate Hashable(v: Json) {
    !v.Arr? && !v.Obj?
  }

  function DigitChar(d: nat): (c: char)
    requires d < 10
    ensures '0' <= c <= '9'
    ensures c as int - '0' as int == d
  {
    ('0' as int + d) as char
  }

  /** The decimal digits of `n`, most significant first, without leading zeros. */
  function Digits(n: nat): (ds: string)
    ensures |ds| > 0
    ensures forall k :: 0 <= k < |ds| ==> '0' <= ds[k] <= '9'
    ensures |ds| > 1 ==> ds[0] != '0'
  {
    if n < 10 then [DigitChar(n)] else Digits(n / 10) + [DigitChar(n % 10)]
  }

  /** The number a string of decimal digits denotes, most significant first. */
  function DigitsValue(ds: string): int
    requires forall k :: 0 <= k < |ds| ==> '0' <= ds[k] <= '9'
  {
    if ds == [] then 0
    else DigitsValue(ds[..|ds| - 1]) * 10 + (ds[|ds| - 1] as int - '0' as int)
  }

  /** `Digits` writes out `n` itself: reading the digits back gives `n`. */
  lemma {:induction false} DigitsRoundTrip(n: nat)
    ensures DigitsValue(Digits(n)) == n
  {
    if n >= 10 {
      DigitsRoundTrip(n / 10);
      var ds := Digits(n);
      assert ds[..|ds| - 1] == Digits(n / 10);
    }
  }

  /** Python's `str(n)` for an int. */
  function DecimalString(n: int): (s: string)
    ensures |s| > 0
    ensures s[0] == '-' <==> n < 0
  {
    if n < 0 then "-" + Digits(-n) else Digits(n)
  }

  /** Different integers have different decimal strings. */
  lemma DecimalStringInjective(a: int, b: int)
    ensures DecimalString(a) == DecimalString(b) ==> a == b
  {
    if DecimalString(a) == DecimalString(b) {
      if a < 0 {
        assert DecimalString(a)[1..] == Digits(-a);
        assert DecimalString(b)[1..] == Digits(-b);
        DigitsRoundTrip(-a);
        DigitsRoundTrip(-b);
      } else {
        DigitsRoundTrip(a);
        DigitsRoundTrip(b);
      }
    }
  }

  /** Python's `str(v)` for the hashable values an `id` field can hold. */
  function Stringify(v: Json): (s: string)
    requires Hashable(v)
    ensures v.Str? ==> s == v.s
  {
    match v
    case Null => "None"
    case Bool(b) => if b then "True" else "False"
    case Int(n) => DecimalString(n)
    case Num(text) => text
    case Str(s) => s
  }
}
