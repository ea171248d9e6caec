/** The free helper functions at the foot of gfx.js: padnum, hex2 and zmod. */
module Util {
  import opened JsText

  /** padnum(num, len, radix): Math.floor(num) written in the radix, padded with
      leading zeros to at least len characters. A negative num keeps its '-' sign
      (padStart then puts any zeros in front of the sign). */
  function Padnum(num: real, len: nat, radix: nat): (r: string)
    requires 2 <= radix <= 36
    ensures |r| >= len
    ensures num >= 0.0 ==> AllDigits(r, radix) && DigitsValue(r, radix) == num.Floor
    ensures num < 0.0 ==> '-' in r
  {
    var digits := IntToString(num.Floor, radix);
    var r := PadStart(digits, len, '0');
    assert r[|r| - |digits|..] == digits;
    if num >= 0.0 then
      assert r == r[..|r| - |digits|] + digits;
      LeadingZeros(r[..|r| - |digits|], digits, radix);
      r
    else
      assert r[|r| - |digits|] == '-';
      r
  }

  /** padnum exactly: Math.floor(num).toString(radix), with just enough zeros in
      front to make len characters. For a non-negative num every character is a
      lower-case digit; a negative num has its '-' right after the zeros. */
  lemma PadnumExact(num: real, len: nat, radix: nat)
    requires 2 <= radix <= 36
    ensures var digits, r := IntToString(num.Floor, radix), Padnum(num, len, radix);
            && |r| == (if |digits| >= len then |digits| else len)
            && r[|r| - |digits|..] == digits
            && (forall i :: 0 <= i < |r| - |digits| ==> r[i] == '0')
            && (num >= 0.0 ==> forall i :: 0 <= i < |r| ==> IsLowerDigit(r[i]))
            && (num < 0.0 ==> r[|r| - |digits|] == '-')
  {
    var digits, r := IntToString(num.Floor, radix), Padnum(num, len, radix);
    assert r == PadStart(digits, len, '0');
    if num >= 0.0 {
      assert forall i :: |r| - |digits| <= i < |r| ==> r[i] == digits[i - (|r| - |digits|)];
    }
  }

  /** hex2(num): padnum(num, 2, 16). */
  function Hex2(num: real): string {
    Padnum(num, 2, 16)
  }

  /** Inside [0, 256) hex2 writes exactly two lower-case hex digits whose value
      is Math.floor(num), and parseInt reads them back as that value. */
  lemma Hex2InRange(num: real)
    requires 0.0 <= num < 256.0
    ensures var r := Hex2(num);
            && |r| == 2 && IsLowerDigit(r[0]) && IsLowerDigit(r[1])
            && AllDigits(r, 16) && DigitsValue(r, 16) == num.Floor
            && ParseInt(r, 16) == Some(num.Floor)
  {
    var r := Hex2(num);
    var digits := NatToRadix(num.Floor, 16);
    RadixLength(num.Floor, 16);
    assert r == PadStart(digits, 2, '0');
    assert |r| == 2;
    assert r[0] == '0' || r[0] == digits[0];
  }

  /** hex2 does not clamp: from 256 on it writes three or more digits, and a
      negative value comes out with a leading '-'. */
  lemma Hex2OutOfRange(num: real)
    ensures num >= 256.0 ==> |Hex2(num)| >= 3
    ensures num < 0.0 ==> Hex2(num)[0] == '-'
  {
    if num >= 256.0 {
      RadixLength(num.Floor, 16);
    }
  }

  /** The product of two numbers. It is kept a function of its own so that the
      bounds proved about it are stated about one product term. */
  function Times(x: real, y: real): real {
    x * y
  }

  /** A fraction in [0, 1] of d lies between 0 and d. */
  lemma TimesFraction(d: real, frac: real)
    requires 0.0 <= frac <= 1.0
    ensures d >= 0.0 ==> 0.0 <= Times(d, frac) <= d
    ensures d <= 0.0 ==> d <= Times(d, frac) <= 0.0
  {
  }

  /** The % operator of JavaScript on integral values: truncating division, so a
      non-zero remainder takes the sign of the dividend. */
  function JsRem(a: int, b: int): (r: int)
    requires b != 0
    ensures a >= 0 ==> 0 <= r < Abs(b)
    ensures a < 0 ==> -Abs(b) < r <= 0
    ensures (a - r) % Abs(b) == 0
  {
    var m := Abs(b);
    MultipleMod(a, m);
    if a >= 0 then a % m
    else
      MultipleMod(-a, m);
      ModUnique(a + (-a) % m, m, -((-a) / m), 0);
      -((-a) % m)
  }

  function Abs(x: int): (r: int)
    ensures r >= 0
  {
    if x < 0 then -x else x
  }

  /** zmod(x, m): the modulus of gfx.js built on JavaScript's truncating %.
      With m == 0 the % gives NaN, here None. */
  function Zmod(x: int, m: int): (r: Option<int>)
    ensures r.None? <==> m == 0
  {
    if m == 0 then None
    else if x >= 0 then Some(JsRem(x, m))
    else
      var r := JsRem(-x, m);
      Some(if r > 0 then m - r else r)
  }

  /** For a positive m, zmod(x, m) lies in [0, m) and differs from x by a multiple
      of m: it is the Euclidean x mod m. */
  lemma ZmodInRange(x: int, m: int)
    requires m > 0
    ensures 0 <= Zmod(x, m).value < m
    ensures (x - Zmod(x, m).value) % m == 0
    ensures Zmod(x, m) == Some(x % m)
  {
    MultipleMod(x, m);
    if x < 0 {
      assert JsRem(-x, m) == (-x) % m;
      NegatedMod(-x, m);
    }
  }

  /** For a negative m, a non-negative x still lands in [0, -m), but a negative
      x that m does not divide lands below m: m minus a positive remainder. */
  lemma ZmodNegativeModulus(x: int, m: int)
    requires m < 0
    ensures x >= 0 ==> 0 <= Zmod(x, m).value < -m
    ensures x < 0 && (-x) % (-m) != 0 ==> 2 * m < Zmod(x, m).value < m
    ensures x < 0 && (-x) % (-m) == 0 ==> Zmod(x, m) == Some(0)
  {
  }

  /** So zmod(-1, -3) is -4. */
  lemma ZmodNegativeExample()
    ensures Zmod(-1, -3) == Some(-4)
  {
    assert JsRem(1, -3) == 1;
  }

  /** (-y) mod m in terms of y mod m. */
  lemma NegatedMod(y: int, m: int)
    requires y > 0 && m > 0
    ensures y % m != 0 ==> (-y) % m == m - y % m
    ensures y % m == 0 ==> (-y) % m == 0
  {
    var q, s := y / m, y % m;
    assert y == q * m + s;
    if s != 0 {
      assert -y == (-q - 1) * m + (m - s);
      ModUnique(-y, m, -q - 1, m - s);
    } else {
      assert -y == (-q) * m + 0;
      ModUnique(-y, m, -q, 0);
    }
  }

  lemma ModUnique(a: int, m: int, q: int, s: int)
    requires m > 0 && 0 <= s < m && a == q * m + s
    ensures a % m == s
  {
    var k := a / m - q;
    assert a == (a / m) * m + a % m;
    assert k * m == s - a % m;
    SmallMultiple(k, m);
  }

  lemma SmallMultiple(k: int, m: int)
    requires m > 0 && -m < k * m < m
    ensures k == 0
  {
  }

  lemma MultipleMod(x: int, m: int)
    requires m > 0
    ensures (x - x % m) % m == 0
  {
    ModUnique(x - x % m, m, x / m, 0);
  }
}
