/**
 * Hexadecimal digit strings and the numbers they denote: `BigInt('0x' + s)`
 * on the reading side, `Number.prototype.toString(16)` on the writing side.
 */
module Hex {

  const Digits: string := "0123456789abcdef"

  /** A digit `BigInt` accepts after a `0x` prefix (either case). */
  predicate IsHexDigit(c: char) {
    '0' <= c <= '9' || 'a' <= c <= 'f' || 'A' <= c <= 'F'
  }

  predicate IsHex(s: string) {
    forall c :: c in s ==> IsHexDigit(c)
  }

  /** Only the digits `toString(16)` writes: 0-9 and lower-case a-f. */
  predicate IsLowerHex(s: string) {
    forall c :: c in s ==> '0' <= c <= '9' || 'a' <= c <= 'f'
  }

  lemma IsHexConcat(a: string, b: string)
    requires IsHex(a) && IsHex(b)
    ensures IsHex(a + b)
  {
  }

  predicate AllZeroDigits(s: string) {
    forall c :: c in s ==> c == '0'
  }

  function DigitValue(c: char): (d: nat)
    requires IsHexDigit(c)
    ensures d < 16
    ensures d == 0 <==> c == '0'
  {
    if '0' <= c <= '9' then c as int - '0' as int
    else if 'a' <= c <= 'f' then c as int - 'a' as int + 10
    else c as int - 'A' as int + 10
  }

  function DigitChar(d: nat): (c: char)
    requires d < 16
    ensures ('0' <= c <= '9' || 'a' <= c <= 'f') && DigitValue(c) == d
  {
    Digits[d]
  }

  /** The number a string of hex digits denotes, most significant first. */
  function HexValue(s: string): (v: nat)
    requires IsHex(s)
    ensures s == [] ==> v == 0
    ensures s != [] ==> v % 16 == DigitValue(s[|s| - 1])
  {
    if s == [] then 0 else HexValue(s[..|s| - 1]) * 16 + DigitValue(s[|s| - 1])
  }

  lemma HexValueTwoDigits(s: string)
    requires |s| == 2 && IsHex(s)
    ensures HexValue(s) == DigitValue(s[0]) * 16 + DigitValue(s[1])
  {
    var first := s[..1];
    assert first[..0] == [];
    assert HexValue(first) == DigitValue(s[0]);
    assert HexValue(s) == HexValue(first) * 16 + DigitValue(s[1]);
  }

  function Pow16(k: nat): (p: nat)
    ensures p >= 1
  {
    if k == 0 then 1 else 16 * Pow16(k - 1)
  }

  /** `k` hex digits denote less than 16^k. */
  lemma {:induction false} HexValueBound(s: string)
    requires IsHex(s)
    ensures HexValue(s) < Pow16(|s|)
  {
    if s != [] {
      HexValueBound(s[..|s| - 1]);
    }
  }

  /** A digit string denotes zero exactly when every digit is '0'. */
  lemma {:induction false} HexValueZeroIff(s: string)
    requires IsHex(s)
    ensures HexValue(s) == 0 <==> AllZeroDigits(s)
  {
    if s != [] {
      var init, last := s[..|s| - 1], s[|s| - 1];
      assert s == init + [last];
      HexValueZeroIff(init);
      if HexValue(s) == 0 {
        forall c | c in s ensures c == '0' {
          if c !in init { assert c == last; }
        }
      }
      if AllZeroDigits(s) {
        assert last in s;
        forall c | c in init ensures c == '0' { assert c in s; }
      }
    }
  }

  function Zeros(k: nat): (z: string)
    ensures |z| == k && AllZeroDigits(z)
  {
    seq(k, _ => '0')
  }

  /** Leading zeros do not change the value. */
  lemma {:induction false} HexValueLeadingZeros(k: nat, s: string)
    requires IsHex(s)
    ensures IsHex(Zeros(k) + s) && HexValue(Zeros(k) + s) == HexValue(s)
  {
    if s == [] {
      assert Zeros(k) + s == Zeros(k);
      HexValueZeroIff(Zeros(k));
    } else {
      var init := s[..|s| - 1];
      HexValueLeadingZeros(k, init);
      assert (Zeros(k) + s)[..|Zeros(k) + s| - 1] == Zeros(k) + init;
    }
  }

  /** Appending one digit: the value shifts one place and adds the digit. */
  lemma HexValueSnoc(s: string, c: char)
    requires IsHex(s) && IsHexDigit(c)
    ensures IsHex(s + [c]) && HexValue(s + [c]) == HexValue(s) * 16 + DigitValue(c)
  {
    assert (s + [c])[..|s|] == s;
  }

  /** `n.toString(16)`: lower-case digits, no leading zero unless n is 0. */
  function ToHex(n: nat): (r: string)
    ensures |r| >= 1 && IsLowerHex(r) && IsHex(r)
    ensures HexValue(r) == n
    ensures r[0] == '0' ==> n == 0
  {
    if n < 16 then [DigitChar(n)]
    else
      var init := ToHex(n / 16);
      HexValueSnoc(init, DigitChar(n % 16));
      init + [DigitChar(n % 16)]
  }

  /** A number below 16^k needs at most k digits. */
  lemma {:induction false} ToHexLength(n: nat, k: nat)
    requires 1 <= k && n < Pow16(k)
    ensures |ToHex(n)| <= k
  {
    if n >= 16 {
      ToHexLength(n / 16, k - 1);
    }
  }
}
