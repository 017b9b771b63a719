/** Decimal numerals and the few string operations the control plane relies on. */
module Text {

  predicate IsDigit(c: char) {
    '0' <= c <= '9'
  }

  /** str.isdigit over ASCII: at least one character, all of them digits. */
  predicate AllDigits(s: string) {
    |s| > 0 && forall i :: 0 <= i < |s| ==> IsDigit(s[i])
  }

  function Digit(d: nat): (c: char)
    requires d < 10
    ensures IsDigit(c) && DigitValue(c) == d
  {
    ('0' as int + d) as char
  }

  function DigitValue(c: char): (d: nat)
    requires IsDigit(c)
    ensures d < 10
  {
    c as int - '0' as int
  }

  /** str(n) */
  function Decimal(n: nat): (s: string)
    ensures AllDigits(s)
  {
    if n < 10 then [Digit(n)] else Decimal(n / 10) + [Digit(n % 10)]
  }

  /** int(s) */
  function ParseNat(s: string): nat
    requires AllDigits(s)
  {
    var last := DigitValue(s[|s| - 1]);
    if |s| == 1 then last else 10 * ParseNat(s[..|s| - 1]) + last
  }

  lemma {:induction false} ParseDecimal(n: nat)
    ensures ParseNat(Decimal(n)) == n
  {
    if n >= 10 {
      ParseDecimal(n / 10);
      assert Decimal(n)[..|Decimal(n)| - 1] == Decimal(n / 10);
    }
  }

  /** A numeral is written with the usual digits, the last one standing for the units. */
  lemma DecimalTells(n: nat)
    ensures n < 10 ==> Decimal(n) == ["0123456789"[n]]
    ensures n >= 10 ==> Decimal(n) == Decimal(n / 10) + ["0123456789"[n % 10]]
  {
    assert "0123456789"[n % 10] == Digit(n % 10);
  }

  lemma DecimalInjective(m: nat, n: nat)
    requires Decimal(m) == Decimal(n)
    ensures m == n
  {
    ParseDecimal(m);
    ParseDecimal(n);
  }

  predicate StartsWith(s: string, prefix: string) {
    prefix <= s
  }

  /** What str.strip removes. */
  predicate IsSpace(c: char) {
    var n := c as int;
    || 9 <= n <= 13 || 28 <= n <= 32 || n == 0x85 || n == 0xA0 || n == 0x1680
    || 0x2000 <= n <= 0x200A || n == 0x2028 || n == 0x2029 || n == 0x202F || n == 0x205F || n == 0x3000
  }

  function StripLeft(s: string): string {
    if s != "" && IsSpace(s[0]) then StripLeft(s[1..]) else s
  }

  function StripRight(s: string): string {
    if s != "" && IsSpace(s[|s| - 1]) then StripRight(s[..|s| - 1]) else s
  }

  /** str.strip() */
  function Strip(s: string): string {
    StripRight(StripLeft(s))
  }

  /** The code points of Unicode white space. */
  ghost predicate White(c: char) {
    c as int in {9, 10, 11, 12, 13, 28, 29, 30, 31, 32, 0x85, 0xA0, 0x1680, 0x2000, 0x2001, 0x2002, 0x2003, 0x2004,
                 0x2005, 0x2006, 0x2007, 0x2008, 0x2009, 0x200A, 0x2028, 0x2029, 0x202F, 0x205F, 0x3000}
  }

  lemma SpaceIsWhite()
    ensures forall c :: IsSpace(c) <==> White(c)
  {
  }

  lemma {:induction false} StripLeftTells(s: string) returns (i: nat)
    ensures i <= |s| && StripLeft(s) == s[i..] && (i < |s| ==> !IsSpace(s[i]))
    ensures forall k :: 0 <= k < i ==> IsSpace(s[k])
  {
    i := 0;
    if s != "" && IsSpace(s[0]) {
      var rest := s[1..];
      var j := StripLeftTells(rest);
      i := j + 1;
      assert rest[j..] == s[i..];
      assert forall k :: 1 <= k < i ==> s[k] == rest[k - 1];
    }
  }

  lemma {:induction false} StripRightTells(s: string) returns (j: nat)
    ensures j <= |s| && StripRight(s) == s[..j] && (0 < j ==> !IsSpace(s[j - 1]))
    ensures forall k :: j <= k < |s| ==> IsSpace(s[k])
  {
    j := |s|;
    if s != "" && IsSpace(s[|s| - 1]) {
      var front := s[..|s| - 1];
      j := StripRightTells(front);
      assert front[..j] == s[..j];
      assert forall k :: j <= k < |front| ==> s[k] == front[k];
    } else {
      assert s[..|s|] == s;
    }
  }

  /** What is stripped at either end is white space, and what is left does not begin or end with any. */
  lemma StripTells(s: string) returns (i: nat, j: nat)
    ensures i <= j <= |s| && Strip(s) == s[i..j]
    ensures forall k :: 0 <= k < i || j <= k < |s| ==> White(s[k])
    ensures i < j ==> !White(s[i]) && !White(s[j - 1])
  {
    SpaceIsWhite();
    i := StripLeftTells(s);
    var left := s[i..];
    var m := StripRightTells(left);
    j := i + m;
    assert left[..m] == s[i..j];
    assert forall k :: i <= k < |s| ==> s[k] == left[k - i];
    assert i < j ==> s[j - 1] == left[m - 1];
  }

  function LowerChar(c: char): char {
    if 'A' <= c <= 'Z' then (c as int + 32) as char else c
  }

  /** str.lower() on ASCII letters; other characters keep their case. */
  function Lower(s: string): string {
    seq(|s|, i requires 0 <= i < |s| => LowerChar(s[i]))
  }

  /** Lower casing moves every capital letter, and nothing else, to the small letter of the same place. */
  lemma LowerTells(s: string)
    ensures |Lower(s)| == |s|
    ensures forall i, k :: 0 <= i < |s| && 0 <= k < 26 && s[i] == "ABCDEFGHIJKLMNOPQRSTUVWXYZ"[k] ==>
      Lower(s)[i] == "abcdefghijklmnopqrstuvwxyz"[k]
    ensures forall i :: 0 <= i < |s| && s[i] !in "ABCDEFGHIJKLMNOPQRSTUVWXYZ" ==> Lower(s)[i] == s[i]
  {
    var upper, lower := "ABCDEFGHIJKLMNOPQRSTUVWXYZ", "abcdefghijklmnopqrstuvwxyz";
    assert forall k :: 0 <= k < 26 ==> upper[k] as int == 65 + k && lower[k] as int == 97 + k;
    forall i | 0 <= i < |s| && 'A' <= s[i] <= 'Z' ensures s[i] in upper {
      assert upper[s[i] as int - 65] == s[i];
    }
  }
}
