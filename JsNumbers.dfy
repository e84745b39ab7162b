/**
 * The JavaScript number values the date helpers produce and print: an integer,
 * `NaN` (a failed `parseInt` or an Invalid Date) or `undefined` (a missing array
 * element), with `parseInt(s, 10)` and `String(x)`.
 */
module JsNumbers {
  import opened Text

  datatype Num = Undefined | NaN | Int(value: int)

  /** `String(x)` (and `${x}` in a template). */
  function Show(x: Num): string {
    match x
    case Undefined => "undefined"
    case NaN => "NaN"
    case Int(i) => IntToString(i)
  }

  /** `a - b`: any operand that is not a number gives `NaN`. */
  function Minus(a: Num, b: Num): (r: Num)
    ensures r.Int? <==> a.Int? && b.Int?
    ensures r.Int? ==> r.value + b.value == a.value
  {
    if a.Int? && b.Int? then Int(a.value - b.value) else NaN
  }

  /**
   * `parseInt(s, 10)`: leading whitespace is skipped, then an optional sign, then
   * the longest run of decimal digits; with no digit the result is `NaN`.
   */
  function ParseInt(s: string): (r: Num)
    ensures !r.Undefined?
  {
    ParseSigned(TrimStart(s))
  }

  /** `parseInt` after the leading whitespace: an optional sign, then digits. */
  function ParseSigned(t: string): (r: Num)
    ensures !r.Undefined?
  {
    var negative := |t| > 0 && t[0] == '-';
    var body := if |t| > 0 && (t[0] == '-' || t[0] == '+') then t[1..] else t;
    var digits := LeadingDigits(body);
    if digits == [] then NaN
    else
      var v: int := DigitsValue(digits);
      Int(if negative then -v else v)
  }

  lemma LeadingDigitsOfDigits(s: string)
    requires AllDigits(s)
    ensures LeadingDigits(s) == s
  {
  }

  lemma TrimStartKeeps(s: string)
    requires s != [] && (IsDigit(s[0]) || s[0] == '-')
    ensures TrimStart(s) == s
  {
  }

  /** `parseInt` reads back what `String` prints for an integer. */
  lemma {:induction false} ParseIntOfIntToString(i: int)
    ensures ParseInt(IntToString(i)) == Int(i)
  {
    var n: nat := if i < 0 then -i else i;
    var ds := NatToString(n);
    DigitsValueOfNatToString(n);
    LeadingDigitsOfDigits(ds);
    var s := IntToString(i);
    TrimStartKeeps(s);
    if i < 0 {
      assert s[1..] == ds;
    }
  }

  /** Zero-padding (`padStart(w, "0")`) does not change the number `parseInt` reads. */
  lemma {:induction false} ParseIntOfPadded(n: nat, w: nat)
    ensures ParseInt(PadStart(NatToString(n), w, '0')) == Int(n)
  {
    var ds := NatToString(n);
    DigitsValueOfNatToString(n);
    PadStartDigits(ds, w);
    ParseIntOfDigits(PadStart(ds, w, '0'));
  }

  /** A non-empty string of digits reads as the number it denotes. */
  lemma ParseIntOfDigits(s: string)
    requires s != [] && AllDigits(s)
    ensures ParseInt(s) == Int(DigitsValue(s))
  {
    LeadingDigitsOfDigits(s);
    TrimStartKeeps(s);
    assert ParseSigned(s) == Int(DigitsValue(s));
  }
}
