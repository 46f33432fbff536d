/**
 * String helpers the modelled code relies on: invariant-culture decimal
 * formatting of integers (`int.ToString(CultureInfo.InvariantCulture)`,
 * `Convert.ToString`, `string.Format("{0}", i)`), `string.Join`, the ASCII
 * part of `StringComparer.OrdinalIgnoreCase`, and ordinal string order.
 */
module Text {

  predicate IsDigit(c: char) {
    '0' <= c <= '9'
  }

  predicate AllDigits(s: string) {
    forall i :: 0 <= i < |s| ==> IsDigit(s[i])
  }

  function DigitChar(d: nat): (c: char)
    requires d < 10
    ensures IsDigit(c) && c as int - '0' as int == d
  {
    ('0' as int + d) as char
  }

  /** The decimal digits of `n`, most significant first, without leading zeros. */
  function Decimal(n: nat): (s: string)
    ensures |s| >= 1 && AllDigits(s)
    ensures s[0] == '0' <==> n == 0
  {
    if n < 10 then [DigitChar(n)] else Decimal(n / 10) + [DigitChar(n % 10)]
  }

  /** Reads a string of decimal digits back as a number. */
  function ParseDecimal(s: string): nat
    requires AllDigits(s)
  {
    if s == [] then 0 else 10 * ParseDecimal(s[..|s| - 1]) + (s[|s| - 1] as int - '0' as int)
  }

  lemma {:induction false} DecimalRoundTrip(n: nat)
    ensures ParseDecimal(Decimal(n)) == n
  {
    if n >= 10 {
      DecimalRoundTrip(n / 10);
      var s := Decimal(n);
      assert s[..|s| - 1] == Decimal(n / 10);
    }
  }

  /** Distinct numbers have distinct decimal forms. */
  lemma DecimalInjective(a: nat, b: nat)
    ensures Decimal(a) == Decimal(b) ==> a == b
  {
    DecimalRoundTrip(a);
    DecimalRoundTrip(b);
  }

  /** Invariant-culture formatting of a signed integer. */
  function IntString(i: int): (s: string)
    ensures |s| >= 1
  {
    if i < 0 then "-" + Decimal(-i) else Decimal(i)
  }

  predicate IsIntString(s: string) {
    |s| >= 1 && (if s[0] == '-' then |s| >= 2 && AllDigits(s[1..]) else AllDigits(s))
  }

  function ParseInt(s: string): int
    requires IsIntString(s)
  {
    if s[0] == '-' then 0 - ParseDecimal(s[1..]) else ParseDecimal(s)
  }

  lemma IntStringRoundTrip(i: int)
    ensures IsIntString(IntString(i)) && ParseInt(IntString(i)) == i
  {
    if i < 0 {
      DecimalRoundTrip(-i);
      assert IntString(i)[1..] == Decimal(-i);
    } else {
      DecimalRoundTrip(i);
    }
  }

  /** Distinct integers have distinct invariant-culture forms. */
  lemma IntStringInjective(a: int, b: int)
    ensures IntString(a) == IntString(b) ==> a == b
  {
    IntStringRoundTrip(a);
    IntStringRoundTrip(b);
  }

  /** `string.Join(sep, parts)`. */
  function Join(sep: string, parts: seq<string>): string
  {
    if |parts| == 0 then ""
    else if |parts| == 1 then parts[0]
    else Join(sep, parts[..|parts| - 1]) + sep + parts[|parts| - 1]
  }

  /** The case folding of `StringComparer.OrdinalIgnoreCase`, restricted to ASCII letters. */
  function LowerChar(c: char): char
  {
    if 'A' <= c <= 'Z' then (c as int + 32) as char else c
  }

  /** `x` is an upper-case ASCII letter and `y` the same letter in lower case. */
  predicate CasePair(x: char, y: char) {
    'A' <= x <= 'Z' && y as int == x as int + 32
  }

  /**
   * The folded form of a name: no upper-case ASCII letter is left, and each
   * position keeps its character or turns an upper-case letter into its
   * lower-case partner.
   */
  function Fold(s: string): (r: string)
    ensures |r| == |s|
    ensures forall i :: 0 <= i < |r| ==> !('A' <= r[i] <= 'Z')
    ensures forall i :: 0 <= i < |s| ==> r[i] == s[i] || CasePair(s[i], r[i])
  {
    seq(|s|, i requires 0 <= i < |s| => LowerChar(s[i]))
  }

  predicate EqualsIgnoreCase(a: string, b: string) {
    Fold(a) == Fold(b)
  }

  /**
   * Two names are equal ignoring case exactly when they have the same length
   * and each position holds the same character or the two cases of one
   * ASCII letter.
   */
  lemma EqualsIgnoreCaseMeans(a: string, b: string)
    ensures EqualsIgnoreCase(a, b) <==>
      |a| == |b| && forall i :: 0 <= i < |a| ==> a[i] == b[i] || CasePair(a[i], b[i]) || CasePair(b[i], a[i])
  {
  }

  lemma FoldIdempotent(s: string)
    ensures Fold(Fold(s)) == Fold(s)
  {
  }

  /** Ordinal (code point) order on strings. */
  predicate OrdinalLe(a: string, b: string)
  {
    if a == [] then true
    else if b == [] then false
    else if a[0] != b[0] then a[0] < b[0]
    else OrdinalLe(a[1..], b[1..])
  }

  lemma OrdinalTotal(a: string, b: string)
    ensures OrdinalLe(a, b) || OrdinalLe(b, a)
  {
  }

  lemma OrdinalTransitive(a: string, b: string, c: string)
    requires OrdinalLe(a, b) && OrdinalLe(b, c)
    ensures OrdinalLe(a, c)
  {
  }
}
