/** The two Python string builtins the core relies on: `str(v)` for the
    scalar values of a hierarchy snapshot, and `str.strip()` without
    arguments. */
module PyStr {

  /** A scalar attribute value of a hierarchy snapshot (JSON string,
      integer, boolean or null). */
  datatype Scalar = Str(s: string) | Int(i: int) | Bool(b: bool) | Null

  function DigitChar(d: nat): (c: char)
    requires d < 10
    ensures '0' <= c <= '9'
  {
    "0123456789"[d]
  }

  predicate IsDigitString(s: string) {
    s != [] && forall k :: 0 <= k < |s| ==> '0' <= s[k] <= '9'
  }

  /** The decimal digits of `n`, most significant first, as `str(n)` writes them. */
  function NatToText(n: nat): (r: string)
    ensures IsDigitString(r)
    ensures n >= 10 ==> r[0] != '0'
  {
    if n < 10 then [DigitChar(n)] else NatToText(n / 10) + [DigitChar(n % 10)]
  }

  /** The number a string of decimal digits denotes. */
  function DecimalValue(s: string): nat
    requires IsDigitString(s)
  {
    if |s| == 1 then (s[0] as int - '0' as int)
    else 10 * DecimalValue(s[..|s| - 1]) + (s[|s| - 1] as int - '0' as int)
  }

  /** `str(i)` for an integer: an optional minus sign, then the digits. */
  function IntToText(i: int): (r: string)
    ensures i >= 0 ==> IsDigitString(r)
    ensures i < 0 ==> |r| > 1 && r[0] == '-' && IsDigitString(r[1..])
  {
    if i < 0 then "-" + NatToText(-i) else NatToText(i)
  }

  /** Python's `str(v)` on a scalar: a string is itself; anything else is
      written with visible ASCII characters only. */
  function ToText(v: Scalar): (r: string)
    ensures v.Str? ==> r == v.s
    ensures !v.Str? ==> r != [] && forall k :: 0 <= k < |r| ==> 0x20 < r[k] as int < 0x7F
  {
    match v
    case Str(s) => s
    case Int(i) => IntToText(i)
    case Bool(b) => if b then "True" else "False"
    case Null => "None"
  }

  /** Decimal text reads back as the number it was written from. */
  lemma {:induction false} NatToTextRoundTrip(n: nat)
    ensures DecimalValue(NatToText(n)) == n
  {
    if n >= 10 {
      var r := NatToText(n);
      assert r[..|r| - 1] == NatToText(n / 10);
      NatToTextRoundTrip(n / 10);
    }
  }

  /** `str(i)` determines `i`: the integer text written for a number reads
      back as that number, sign included. */
  lemma {:induction false} IntToTextRoundTrip(i: int)
    ensures i >= 0 ==> DecimalValue(IntToText(i)) == i
    ensures i < 0 ==> i == -(DecimalValue(IntToText(i)[1..]) as int)
  {
    if i < 0 {
      var digits := NatToText(-i);
      assert IntToText(i) == "-" + digits;
      assert IntToText(i)[1..] == digits;
      NatToTextRoundTrip(-i);
    } else {
      NatToTextRoundTrip(i);
    }
  }

  /** Python's `str.isspace()` for one character: the characters that
      `str.strip()` with no argument removes. */
  predicate IsSpace(c: char)
    ensures c == ' ' ==> IsSpace(c)
    ensures '!' <= c <= '~' ==> !IsSpace(c)
  {
    var n := c as int;
    (0x09 <= n <= 0x0D) || (0x1C <= n <= 0x20) || n == 0x85 || n == 0xA0
    || n == 0x1680 || (0x2000 <= n <= 0x200A) || n == 0x2028 || n == 0x2029
    || n == 0x202F || n == 0x205F || n == 0x3000
  }

  /** `s.lstrip()`: a suffix of `s`; what it dropped is all whitespace and
      what it kept does not start with whitespace. */
  function TrimStart(s: string): (r: string)
    ensures |r| <= |s| && r == s[|s| - |r|..]
    ensures forall k :: 0 <= k < |s| - |r| ==> IsSpace(s[k])
    ensures r != [] ==> !IsSpace(r[0])
  {
    if s != [] && IsSpace(s[0]) then TrimStart(s[1..]) else s
  }

  /** `s.rstrip()`: a prefix of `s`; what it dropped is all whitespace and
      what it kept does not end with whitespace. */
  function TrimEnd(s: string): (r: string)
    ensures |r| <= |s| && r == s[..|r|]
    ensures forall k :: |r| <= k < |s| ==> IsSpace(s[k])
    ensures r != [] ==> !IsSpace(r[|r| - 1])
  {
    if s != [] && IsSpace(s[|s| - 1]) then TrimEnd(s[..|s| - 1]) else s
  }

  /** `s.strip()`: the slice `s[i..j]` left after removing the whitespace
      run at each end; it neither starts nor ends with whitespace. */
  function Strip(s: string): (r: string)
    ensures exists i, j ::
              && 0 <= i <= j <= |s| && r == s[i..j]
              && (forall k :: 0 <= k < i ==> IsSpace(s[k]))
              && (forall k :: j <= k < |s| ==> IsSpace(s[k]))
    ensures r != [] ==> !IsSpace(r[0]) && !IsSpace(r[|r| - 1])
  {
    var t := TrimStart(s);
    var r := TrimEnd(t);
    var i := |s| - |t|;
    assert r == s[i..i + |r|];
    r
  }

  /** Stripping is idempotent. */
  lemma StripIdempotent(s: string)
    ensures Strip(Strip(s)) == Strip(s)
  {
  }

  /** A string strips to "" exactly when it consists of whitespace only. */
  lemma StripEmptyIff(s: string)
    ensures Strip(s) == "" <==> forall k :: 0 <= k < |s| ==> IsSpace(s[k])
  {
  }
}
