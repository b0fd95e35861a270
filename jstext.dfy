/**
 * The pieces of JavaScript string semantics the tools rely on: the whitespace
 * class of `\s` and `trim`, the ASCII digit class of `\d`, decimal printing of
 * numbers in template strings, `parseInt`, and the UTF-16 code units that
 * `charCodeAt` and `length` count.
 */
module JsText {
  import opened Wrappers

  /** The characters matched by `\s` and removed by `trim`: WhiteSpace and LineTerminator. */
  predicate IsWhitespace(c: char) {
    var n := c as int;
    (9 <= n <= 13) || n == 32 || n == 0xA0 || n == 0x1680 || (0x2000 <= n <= 0x200A)
    || n == 0x2028 || n == 0x2029 || n == 0x202F || n == 0x205F || n == 0x3000 || n == 0xFEFF
  }

  /** The characters `.` does not match in a regular expression without the `s` flag. */
  predicate IsLineTerminator(c: char) {
    c == '\n' || c == '\r' || c as int == 0x2028 || c as int == 0x2029
  }

  predicate IsDigit(c: char) {
    '0' <= c <= '9'
  }

  predicate AllDigits(s: string) {
    forall k :: 0 <= k < |s| ==> IsDigit(s[k])
  }

  predicate HasWhitespace(s: string) {
    exists k :: 0 <= k < |s| && IsWhitespace(s[k])
  }

  /** Number of leading whitespace characters. */
  function LeadingSpace(s: string): (k: nat)
    ensures k <= |s|
    ensures forall i :: 0 <= i < k ==> IsWhitespace(s[i])
    ensures k == |s| || !IsWhitespace(s[k])
  {
    if s == [] || !IsWhitespace(s[0]) then 0 else 1 + LeadingSpace(s[1..])
  }

  /** Number of trailing whitespace characters. */
  function TrailingSpace(s: string): (k: nat)
    ensures k <= |s|
    ensures forall i :: |s| - k <= i < |s| ==> IsWhitespace(s[i])
    ensures k == |s| || !IsWhitespace(s[|s| - 1 - k])
  {
    if s == [] || !IsWhitespace(s[|s| - 1]) then 0 else 1 + TrailingSpace(s[..|s| - 1])
  }

  function TrimStart(s: string): (r: string)
    ensures r == s[LeadingSpace(s)..]
  {
    s[LeadingSpace(s)..]
  }

  /** `String.prototype.trim`: the slice between the leading and trailing whitespace. */
  function Trim(s: string): (r: string)
    ensures |r| <= |s|
    ensures r == [] || (!IsWhitespace(r[0]) && !IsWhitespace(r[|r| - 1]))
    ensures !HasWhitespace(s) ==> r == s
    ensures r == [] <==> forall i :: 0 <= i < |s| ==> IsWhitespace(s[i])
    ensures exists a, b ::
              && 0 <= a <= b <= |s| && r == s[a..b]
              && (forall k :: 0 <= k < a ==> IsWhitespace(s[k]))
              && (forall k :: b <= k < |s| ==> IsWhitespace(s[k]))
  {
    var t := TrimStart(s);
    var r := t[..|t| - TrailingSpace(t)];
    assert !HasWhitespace(s) ==> LeadingSpace(s) == 0 && TrailingSpace(t) == 0;
    assert r == [] ==> LeadingSpace(s) == |s|;
    var a := LeadingSpace(s);
    var b := |s| - TrailingSpace(t);
    assert r == s[a..b];
    assert forall k :: b <= k < |s| ==> s[k] == t[k - a];
    r
  }

  /** Trimming twice is trimming once. */
  lemma TrimIdempotent(s: string)
    ensures Trim(Trim(s)) == Trim(s)
  {
    var r := Trim(s);
    if r != [] {
      assert LeadingSpace(r) == 0;
      assert TrailingSpace(r) == 0;
    }
  }

  /** `raw.replace(/\D/g, '')`: the ASCII digits of `s`, in order. */
  function DigitsOf(s: string): (r: string)
    ensures |r| <= |s|
  {
    if s == [] then []
    else (if IsDigit(s[0]) then [s[0]] else []) + DigitsOf(s[1..])
  }

  /** Only digits are kept. */
  lemma {:induction false} DigitsOfAllDigits(s: string)
    ensures AllDigits(DigitsOf(s))
  {
    if s != [] {
      DigitsOfAllDigits(s[1..]);
    }
  }

  lemma {:induction false} DigitsOfAppend(a: string, b: string)
    ensures DigitsOf(a + b) == DigitsOf(a) + DigitsOf(b)
  {
    if a != [] {
      assert (a + b)[0] == a[0];
      assert (a + b)[1..] == a[1..] + b;
      DigitsOfAppend(a[1..], b);
      var head := if IsDigit(a[0]) then [a[0]] else [];
      assert DigitsOf(a) == head + DigitsOf(a[1..]);
      assert DigitsOf(a + b) == head + DigitsOf(a[1..] + b);
      assert head + (DigitsOf(a[1..]) + DigitsOf(b)) == (head + DigitsOf(a[1..])) + DigitsOf(b);
    } else {
      assert a + b == b;
    }
  }

  lemma {:induction false} DigitsOfDigits(s: string)
    requires AllDigits(s)
    ensures DigitsOf(s) == s
  {
    if s != [] {
      DigitsOfDigits(s[1..]);
    }
  }

  lemma {:induction false} DigitsOfNoDigits(s: string)
    requires forall k :: 0 <= k < |s| ==> !IsDigit(s[k])
    ensures DigitsOf(s) == []
  {
    if s != [] {
      DigitsOfNoDigits(s[1..]);
    }
  }

  /** End of the run of digits that starts at `i`. */
  function DigitRun(s: string, i: nat): (j: nat)
    requires i <= |s|
    ensures i <= j <= |s|
    ensures AllDigits(s[i..j])
    ensures j == |s| || !IsDigit(s[j])
    decreases |s| - i
  {
    if i < |s| && IsDigit(s[i]) then
      var j := DigitRun(s, i + 1);
      assert s[i..j] == [s[i]] + s[i + 1..j];
      j
    else i
  }

  function DigitValue(c: char): nat
    requires IsDigit(c)
  {
    c as int - '0' as int
  }

  function DigitChar(d: nat): (c: char)
    requires d < 10
    ensures IsDigit(c) && DigitValue(c) == d
  {
    ('0' as int + d) as char
  }

  /** The value of a string of decimal digits (leading zeros allowed). */
  function DecimalValue(s: string): nat
    requires AllDigits(s)
  {
    if s == [] then 0 else DecimalValue(s[..|s| - 1]) * 10 + DigitValue(s[|s| - 1])
  }

  /** How a non-negative integer is printed by `${n}` or `String(n)`. */
  function NatToString(n: nat): (s: string)
    ensures AllDigits(s) && s != []
    ensures s[0] == '0' ==> n == 0
  {
    if n < 10 then [DigitChar(n)] else NatToString(n / 10) + [DigitChar(n % 10)]
  }

  /** How an integer is printed by `${n}`. */
  function IntToString(n: int): string {
    if n < 0 then "-" + NatToString(-n) else NatToString(n)
  }

  /** Printing then reading a decimal gives the number back. */
  lemma {:induction false} DecimalOfNatToString(n: nat)
    ensures DecimalValue(NatToString(n)) == n
  {
    if n >= 10 {
      DecimalOfNatToString(n / 10);
      var s := NatToString(n);
      assert s[..|s| - 1] == NatToString(n / 10);
    }
  }

  lemma NatToStringInjective(m: nat, n: nat)
    requires NatToString(m) == NatToString(n)
    ensures m == n
  {
    DecimalOfNatToString(m);
    DecimalOfNatToString(n);
  }

  predicate IsHexDigit(c: char) {
    IsDigit(c) || 'a' <= c <= 'f' || 'A' <= c <= 'F'
  }

  function HexDigitValue(c: char): nat
    requires IsHexDigit(c)
  {
    if IsDigit(c) then DigitValue(c)
    else if 'a' <= c <= 'f' then c as int - 'a' as int + 10
    else c as int - 'A' as int + 10
  }

  function HexRun(s: string): (j: nat)
    ensures j <= |s|
    ensures forall k :: 0 <= k < j ==> IsHexDigit(s[k])
  {
    if s != [] && IsHexDigit(s[0]) then 1 + HexRun(s[1..]) else 0
  }

  function HexValue(s: string): nat
    requires forall k :: 0 <= k < |s| ==> IsHexDigit(s[k])
  {
    if s == [] then 0 else HexValue(s[..|s| - 1]) * 16 + HexDigitValue(s[|s| - 1])
  }

  /**
   * The digits `parseInt(s, 10)` reads when `detectHex` is false, and
   * `parseInt(s)` (radix left out) when it is true, as an exact signed
   * integer; None stands for NaN. Leading whitespace and one sign are
   * skipped; the longest run of digits is read; nothing read means NaN.
   * A "-0" result is the integer 0. `ParseIntNumber` rounds the value to the
   * double `parseInt` returns.
   */
  function ParseInt(s: string, detectHex: bool): (r: Option<int>)
    ensures (forall k :: 0 <= k < |s| ==> !IsDigit(s[k])) ==> r.None?
  {
    var t := TrimStart(s);
    var negative := |t| > 0 && t[0] == '-';
    var u := if |t| > 0 && (t[0] == '-' || t[0] == '+') then t[1..] else t;
    var sign := if negative then -1 else 1;
    if detectHex && |u| >= 2 && u[0] == '0' && (u[1] == 'x' || u[1] == 'X') then
      var h := u[2..][..HexRun(u[2..])];
      if h == [] then None else Some(sign * HexValue(h))
    else
      var d := u[..DigitRun(u, 0)];
      if d == [] then None else Some(sign * DecimalValue(d))
  }

  /** A number `parseInt` can return: NaN, a finite double (an integer here), or an infinity. */
  datatype IntNumber = NaN | Finite(value: int) | Infinite(negative: bool)

  /** 2^53: every integer of smaller magnitude is a double. */
  const TWO53: int := 0x20_0000_0000_0000

  /** 2^1024: a magnitude that rounds to it or beyond is an infinity. */
  const TWO1024: int := 0x1_0000000000000000_0000000000000000_0000000000000000_0000000000000000_0000000000000000_0000000000000000_0000000000000000_0000000000000000_0000000000000000_0000000000000000_0000000000000000_0000000000000000_0000000000000000_0000000000000000_0000000000000000_0000000000000000

  /** The gap between neighbouring doubles of magnitude about n: the least power of two u, from `u` up, with n < 2^53 * u. */
  function Spacing(n: nat, u: nat): (w: nat)
    requires u >= 1
    ensures w >= u && n < TWO53 * w
    decreases n + 1 - u
  {
    if n < TWO53 * u then u else Spacing(n, 2 * u)
  }

  /**
   * The double nearest to the integer n >= 0, as the conversion of a digit
   * string to a number gives it: the nearest multiple of the spacing, the
   * even multiple on a tie, and Infinity when that reaches 2^1024.
   */
  /** A remainder never exceeds the number divided. */
  lemma RemainderAtMost(n: nat, u: nat)
    requires u >= 1
    ensures n % u <= n
  {
    if n < u {
      assert n == 0 * u + n;
    }
  }

  function DoubleOfNat(n: nat): (r: IntNumber)
    ensures r.NaN? == false && (r.Infinite? ==> !r.negative)
    ensures r.Finite? ==> r.value == n - n % Spacing(n, 1) || r.value == n - n % Spacing(n, 1) + Spacing(n, 1)
    ensures r.Finite? ==> 2 * (r.value - n) <= Spacing(n, 1) && 2 * (n - r.value) <= Spacing(n, 1)
    ensures r.Finite? ==> 0 <= r.value < TWO1024
    ensures r.Infinite? ==> 2 * n >= 2 * TWO1024 - Spacing(n, 1)
  {
    var u := Spacing(n, 1);
    var rem := n % u;
    RemainderAtMost(n, u);
    var m := if 2 * rem > u || (2 * rem == u && (n / u) % 2 == 1) then n - rem + u else n - rem;
    if m >= TWO1024 then Infinite(false) else Finite(m)
  }

  /** Integers below 2^53 in magnitude convert to doubles exactly. */
  lemma DoubleOfSmallNat(n: nat)
    requires n < TWO53
    ensures DoubleOfNat(n) == Finite(n)
  {
    assert Spacing(n, 1) == 1;
  }

  /** The gap between doubles near n is at most 2n / 2^53 once it is wider than 1. */
  lemma {:induction false} SpacingBound(n: nat, u: nat)
    requires u >= 1
    ensures Spacing(n, u) == u || TWO53 * Spacing(n, u) <= 2 * n
    decreases n + 1 - u
  {
    if n >= TWO53 * u {
      SpacingBound(n, 2 * u);
    }
  }

  /** Integers from 2^53 on round to at least half of 2^53, or to Infinity. */
  lemma DoubleOfLargeNat(n: nat)
    requires n >= TWO53
    ensures DoubleOfNat(n).Finite? ==> DoubleOfNat(n).value >= TWO53 / 2
  {
    SpacingBound(n, 1);
  }

  /** 2^53 + 1 is the first integer that is not a double: it rounds to the even neighbour 2^53. */
  lemma DoubleOfTwo53Plus1()
    ensures DoubleOfNat(TWO53 + 1) == Finite(TWO53)
  {
    assert Spacing(TWO53 + 1, 2) == 2;
  }

  /**
   * The number `parseInt(s, 10)` (or `parseInt(s)`) returns: NaN when no
   * digit is read, otherwise the value of the digits rounded to the nearest
   * double, with its sign.
   */
  function ParseIntNumber(s: string, detectHex: bool): (r: IntNumber)
    ensures r.NaN? <==> ParseInt(s, detectHex).None?
    ensures r.Infinite? ==> (r.negative <==> ParseInt(s, detectHex).value < 0)
  {
    match ParseInt(s, detectHex)
    case None => NaN
    case Some(v) =>
      if v >= 0 then DoubleOfNat(v)
      else match DoubleOfNat(-v)
        case Finite(m) => Finite(-m)
        case _ => Infinite(true)
  }

  /** Below 2^53 in magnitude, the number `parseInt` returns is the value of the digits it reads. */
  lemma ParseIntNumberExact(s: string, detectHex: bool)
    requires ParseInt(s, detectHex).Some?
    requires -TWO53 < ParseInt(s, detectHex).value < TWO53
    ensures ParseIntNumber(s, detectHex) == Finite(ParseInt(s, detectHex).value)
  {
    var v := ParseInt(s, detectHex).value;
    if v >= 0 {
      DoubleOfSmallNat(v);
    } else {
      DoubleOfSmallNat(-v);
    }
  }

  /**
   * Rounding keeps the sign and the size class of what `parseInt` reads: a
   * value at most 0 stays at most 0 (or becomes -Infinity), one below 2^53 in
   * magnitude is kept, and one from 2^53 on stays at least 2^52 (or becomes
   * Infinity).
   */
  lemma ParseIntNumberCases(s: string, detectHex: bool)
    ensures ParseInt(s, detectHex).Some? ==> var v, d := ParseInt(s, detectHex).value, ParseIntNumber(s, detectHex);
      && (v <= 0 ==> (d.Finite? && d.value <= 0) || d == Infinite(true))
      && (-TWO53 < v < TWO53 ==> d == Finite(v))
      && (v >= TWO53 ==> (d.Finite? && d.value >= TWO53 / 2) || d == Infinite(false))
  {
    if ParseInt(s, detectHex).Some? {
      var v := ParseInt(s, detectHex).value;
      if -TWO53 < v < TWO53 {
        ParseIntNumberExact(s, detectHex);
      }
      if v >= TWO53 {
        DoubleOfLargeNat(v);
      }
    }
  }

  /** The digits `parseInt` reads, as an exact integer: any printed non-negative integer reads back. */
  lemma ParseIntOfNat(n: nat, detectHex: bool)
    ensures ParseInt(NatToString(n), detectHex) == Some(n)
  {
    var s := NatToString(n);
    assert !IsWhitespace(s[0]);
    assert TrimStart(s) == s;
    DigitRunOfDigits(s);
    assert s[..|s|] == s;
    DecimalOfNatToString(n);
  }

  lemma DigitRunOfDigits(s: string)
    requires AllDigits(s)
    ensures DigitRun(s, 0) == |s|
  {
    DigitRunAt(s, 0, |s|);
  }

  /** A run of digits from i to j that is followed by a non-digit (or the end) is the digit run at i. */
  lemma {:induction false} DigitRunAt(s: string, i: nat, j: nat)
    requires i <= j <= |s|
    requires AllDigits(s[i..j])
    requires j == |s| || !IsDigit(s[j])
    ensures DigitRun(s, i) == j
    decreases j - i
  {
    if i < j {
      assert IsDigit(s[i..j][0]);
      assert s[i + 1..j] == s[i..j][1..];
      DigitRunAt(s, i + 1, j);
    }
  }

  /** The one or two UTF-16 code units of one character (a surrogate pair above U+FFFF). */
  function CodeUnits(ch: char): (units: seq<int>)
    ensures 1 <= |units| <= 2
    ensures forall k :: 0 <= k < |units| ==> 0 <= units[k] < 0x10000
    ensures ch as int < 0x10000 <==> units == [ch as int]
  {
    var c := ch as int;
    if c < 0x10000 then [c]
    else [0xD800 + (c - 0x10000) / 0x400, 0xDC00 + (c - 0x10000) % 0x400]
  }

  /** The UTF-16 code units of a string: what `length` counts and `charCodeAt` returns. */
  function Utf16(s: string): (units: seq<int>)
    ensures forall k :: 0 <= k < |units| ==> 0 <= units[k] < 0x10000
    ensures |units| >= |s|
  {
    if s == [] then [] else CodeUnits(s[0]) + Utf16(s[1..])
  }

  lemma AppendHead(a: string, b: string)
    requires a != []
    ensures (a + b)[0] == a[0] && (a + b)[1..] == a[1..] + b
  {
  }

  lemma SeqAssoc(x: seq<int>, y: seq<int>, z: seq<int>)
    ensures x + (y + z) == (x + y) + z
  {
  }

  lemma {:induction false} Utf16Append(a: string, b: string)
    ensures Utf16(a + b) == Utf16(a) + Utf16(b)
  {
    if a != [] {
      AppendHead(a, b);
      Utf16Append(a[1..], b);
      SeqAssoc(CodeUnits(a[0]), Utf16(a[1..]), Utf16(b));
    } else {
      assert a + b == b;
    }
  }
}
