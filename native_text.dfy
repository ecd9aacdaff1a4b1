/**
 * The C-level text and number conversions the native callbacks rely on:
 * printf's decimal rendering of an int (%i and %d), the suffix after the last
 * '/' that strrchr(path, '/') + 1 points to, printf's rendering of a C string
 * that was NULL, and the reinterpretation of a uint64_t as a Java long when it
 * is passed to a jlong parameter.
 */
module NativeText {
  import opened Wrappers
  import opened JavaLang

  predicate IsDigit(c: char) {
    '0' <= c <= '9'
  }

  predicate AllDigits(s: string) {
    forall i :: 0 <= i < |s| ==> IsDigit(s[i])
  }

  function DigitChar(d: nat): (c: char)
    requires d < 10
    ensures IsDigit(c) && c as int - '0' as int == d
  {
    ('0' as int + d) as char
  }

  /** The decimal digits of n, most significant first, without leading zeros. */
  function NatDigits(n: nat): (s: string)
    ensures s != [] && AllDigits(s)
    ensures |s| > 1 ==> s[0] != '0'
  {
    if n < 10 then [DigitChar(n)] else NatDigits(n / 10) + [DigitChar(n % 10)]
  }

  /** printf("%i", n): a '-' for a negative n, then the digits of its magnitude. */
  function Decimal(n: int): (s: string)
    ensures s != []
    ensures n < 0 <==> s[0] == '-'
  {
    if n < 0 then "-" + NatDigits(-n) else NatDigits(n)
  }

  /** The value of a string of decimal digits. */
  function ParseNat(s: string): nat
    requires AllDigits(s)
  {
    if s == [] then 0 else 10 * ParseNat(s[..|s| - 1]) + (s[|s| - 1] as int - '0' as int)
  }

  /** The int a decimal rendering stands for, or None for any other text. */
  function ParseDecimal(s: string): (r: Option<int>)
    ensures r.Some? ==> s != []
  {
    if s != [] && s[0] == '-' && |s| > 1 && AllDigits(s[1..]) then Some(0 - ParseNat(s[1..]) as int)
    else if s != [] && AllDigits(s) then Some(ParseNat(s))
    else None
  }

  lemma {:induction false} ParseNatDigits(n: nat)
    ensures ParseNat(NatDigits(n)) == n
  {
    if n >= 10 {
      var s := NatDigits(n);
      assert s[..|s| - 1] == NatDigits(n / 10);
      ParseNatDigits(n / 10);
    }
  }

  /** Digits alone read as their value. */
  lemma ParseDecimalOfDigits(d: string)
    requires d != [] && AllDigits(d)
    ensures ParseDecimal(d) == Some(ParseNat(d))
  {
    assert IsDigit(d[0]);
  }

  /** A '-' and then digits read as the negated value of the digits. */
  lemma ParseDecimalOfNegative(d: string)
    requires d != [] && AllDigits(d)
    ensures ParseDecimal("-" + d) == Some(0 - ParseNat(d))
  {
    var s := "-" + d;
    assert s[0] == '-';
    assert s[1..] == d;
  }

  /** Reading a decimal rendering back gives the number: the rendering loses nothing. */
  lemma DecimalRoundTrip(n: int)
    ensures ParseDecimal(Decimal(n)) == Some(n)
  {
    if n < 0 {
      ParseDecimalOfNegative(NatDigits(-n));
      ParseNatDigits(-n);
    } else {
      ParseDecimalOfDigits(NatDigits(n));
      ParseNatDigits(n);
    }
  }

  /** Different numbers render differently. */
  lemma DecimalInjective(a: int, b: int)
    ensures Decimal(a) == Decimal(b) ==> a == b
  {
    DecimalRoundTrip(a);
    DecimalRoundTrip(b);
  }

  /** Text between a fixed prefix and a fixed suffix is recovered from the whole. */
  lemma Unwrap(p: string, x: string, y: string, q: string)
    requires p + x + q == p + y + q
    ensures x == y
  {
    assert |x| == |y|;
    assert x == (p + x + q)[|p|..|p| + |x|];
    assert y == (p + y + q)[|p|..|p| + |y|];
  }

  /** A number in a message between a fixed prefix and a fixed suffix is recovered from the message. */
  lemma DecimalInContext(p: string, a: int, b: int, q: string)
    ensures p + Decimal(a) + q == p + Decimal(b) + q ==> a == b
  {
    if p + Decimal(a) + q == p + Decimal(b) + q {
      Unwrap(p, Decimal(a), Decimal(b), q);
      DecimalInjective(a, b);
    }
  }

  /** The index of the last '/' in s, as strrchr(s, '/') finds it. */
  function LastSlash(s: string): (k: nat)
    requires '/' in s
    ensures k < |s| && s[k] == '/'
    ensures forall j :: k < j < |s| ==> s[j] != '/'
  {
    if s[|s| - 1] == '/' then |s| - 1
    else
      assert '/' in s[..|s| - 1] by {
        var i :| 0 <= i < |s| && s[i] == '/';
        assert s[..|s| - 1][i] == '/';
      }
      LastSlash(s[..|s| - 1])
  }

  /**
   * strrchr(path, '/') + 1: the text after the last '/'. It holds no '/', and
   * the path is some prefix, a '/', and then the result.
   */
  function SuffixAfterLastSlash(path: string): (id: string)
    requires '/' in path
    ensures '/' !in id
    ensures |id| < |path| && path[|path| - |id| - 1] == '/' && path[|path| - |id|..] == id
  {
    var k := LastSlash(path);
    path[k + 1..]
  }

  /** A request path that ends in "/" and an id without '/' gives that id back. */
  lemma SuffixOfRequestPath(prefix: string, id: string)
    requires '/' !in id
    ensures SuffixAfterLastSlash(prefix + "/" + id) == id
  {
    var path := prefix + "/" + id;
    assert path[|prefix|] == '/';
    assert path[|path| - |id|..] == id;
  }

  /** printf("%s", s) on a string that may be NULL: glibc prints "(null)" for NULL. */
  function CString(s: JString): (r: string)
    ensures s.Some? ==> r == s.value
  {
    if s.None? then "(null)" else s.value
  }

  const TwoTo63: int := 0x8000_0000_0000_0000
  const TwoTo64: int := 0x1_0000_0000_0000_0000

  /** A C uint64_t. */
  type UInt64 = x: int | 0 <= x < 0x1_0000_0000_0000_0000

  /**
   * A uint64_t passed where a jlong is expected: the same 64 bits read as a
   * two's-complement long, so sizes of 2^63 and above become negative.
   */
  function ToJavaLong(u: UInt64): (r: Int64)
    ensures (u - r) % TwoTo64 == 0
    ensures u < TwoTo63 <==> r == u
    ensures r < 0 <==> u >= TwoTo63
  {
    if u >= TwoTo63 then u - TwoTo64 else u
  }
}
