/** The slice of JavaScript's value semantics that the chart transforms rely on:
    truthiness (for `||` and `if (x)`), the `||` operator itself, and the
    string conversion that turns a value into an object property key. */
module JsValues {

  /** A JavaScript value as it arrives in a parsed JSON record. Numbers are
      integers here; arrays hold strings (the only arrays the records carry
      are lists of ids); an object is known only by its identity. */
  datatype JsValue =
    | Undefined
    | Null
    | Bool(b: bool)
    | Num(n: int)
    | Str(s: string)
    | Arr(elems: seq<string>)
    | Obj(ref: nat)

  /** JavaScript's ToBoolean: `undefined`, `null`, `false`, `0` and `""` are
      falsy, everything else (including an empty array or object) is truthy. */
  predicate Truthy(v: JsValue)
    ensures !Truthy(v) <==> v in {Undefined, Null, Bool(false), Num(0), Str("")}
  {
    match v
    case Undefined => false
    case Null => false
    case Bool(b) => b
    case Num(n) => n != 0
    case Str(s) => s != ""
    case Arr(_) => true
    case Obj(_) => true
  }

  /** `a || b`: the left operand when it is truthy, otherwise the right one. */
  function Or(a: JsValue, b: JsValue): (r: JsValue)
    ensures Truthy(a) ==> r == a
    ensures !Truthy(a) ==> r == b
    ensures Truthy(r) <==> Truthy(a) || Truthy(b)
  {
    if Truthy(a) then a else b
  }

  /** The decimal digits of a natural number, most significant first. */
  function NatToDecimal(n: nat): (r: string)
    ensures r != []
    ensures forall i :: 0 <= i < |r| ==> '0' <= r[i] <= '9'
    ensures r[0] == '0' <==> n == 0
    ensures n == 0 ==> r == "0"
  {
    if n < 10 then ['0' + n as char]
    else NatToDecimal(n / 10) + ['0' + (n % 10) as char]
  }

  /** The elements of an array joined with commas, as Array.prototype.join does. */
  function JoinWithCommas(elems: seq<string>): (r: string)
    ensures |elems| == 1 ==> r == elems[0]
    ensures elems == [] ==> r == ""
  {
    if elems == [] then ""
    else if |elems| == 1 then elems[0]
    else elems[0] + "," + JoinWithCommas(elems[1..])
  }

  /** Read left to right, the join of two or more elements is the join of all
      but the last, a comma, and the last. */
  lemma {:induction false} JoinWithCommasLast(elems: seq<string>)
    requires |elems| >= 2
    ensures JoinWithCommas(elems) == JoinWithCommas(elems[..|elems| - 1]) + "," + elems[|elems| - 1]
  {
    var init := elems[..|elems| - 1];
    assert init[0] == elems[0];
    if |elems| == 2 {
      assert init == [elems[0]];
    } else {
      JoinWithCommasLast(elems[1..]);
      assert elems[1..][..|elems| - 2] == init[1..];
      assert elems[1..][|elems| - 2] == elems[|elems| - 1];
    }
  }

  /** JavaScript's ToString, which is also how a value becomes a property key
      when it indexes a plain object (`groupedData[v]`). */
  function ToKey(v: JsValue): (r: string)
    ensures v.Str? ==> r == v.s
    ensures v == Undefined ==> r == "undefined"
    ensures v == Null ==> r == "null"
    ensures v.Bool? ==> r == (if v.b then "true" else "false")
    ensures v.Num? && v.n >= 0 ==> r == NatToDecimal(v.n)
    ensures v.Num? && v.n < 0 ==> r == "-" + NatToDecimal(-v.n)
    ensures v.Arr? ==> r == JoinWithCommas(v.elems)
    ensures v.Obj? ==> r == "[object Object]"
  {
    match v
    case Undefined => "undefined"
    case Null => "null"
    case Bool(b) => if b then "true" else "false"
    case Num(n) => if n < 0 then "-" + NatToDecimal(-n) else NatToDecimal(n)
    case Str(s) => s
    case Arr(elems) => JoinWithCommas(elems)
    case Obj(_) => "[object Object]"
  }

  /** The number a string of decimal digits spells, most significant first. */
  function DecimalValue(s: string): int {
    if s == [] then 0
    else 10 * DecimalValue(s[..|s| - 1]) + (s[|s| - 1] as int - '0' as int)
  }

  /** A string of digits with an optional leading minus sign, read as a number. */
  function SignedDecimalValue(s: string): int {
    if s != [] && s[0] == '-' then -DecimalValue(s[1..]) else DecimalValue(s)
  }

  /** The digits of `n` spell `n`. */
  lemma {:induction false} NatToDecimalRoundTrip(n: nat)
    ensures DecimalValue(NatToDecimal(n)) == n
  {
    if n >= 10 {
      var s := NatToDecimal(n);
      NatToDecimalRoundTrip(n / 10);
      assert s[..|s| - 1] == NatToDecimal(n / 10);
      assert s[|s| - 1] == '0' + (n % 10) as char;
    }
  }

  /** The property key of a number reads back as that number, so distinct
      numbers give distinct keys. */
  lemma NumKeyRoundTrip(n: int)
    ensures SignedDecimalValue(ToKey(Num(n))) == n
  {
    if n < 0 {
      var s := ToKey(Num(n));
      NatToDecimalRoundTrip(-n);
      assert s[1..] == NatToDecimal(-n);
    } else {
      NatToDecimalRoundTrip(n);
    }
  }

  /** Two numbers with the same property key are equal. */
  lemma NumKeyInjective(a: int, b: int)
    requires ToKey(Num(a)) == ToKey(Num(b))
    ensures a == b
  {
    NumKeyRoundTrip(a);
    NumKeyRoundTrip(b);
  }
}
