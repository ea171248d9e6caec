/** The JavaScript built-ins that the colour code of gfx.js leans on, stated over
    Dafny strings: Number.prototype.toString(radix) for integral values,
    String.prototype.padStart with a one-character filler, and the global
    parseInt(string, radix). A JavaScript NaN result is `None`. */
module JsText {

  datatype Option<+T> = None | Some(value: T)

  /** ECMAScript StrWhiteSpaceChar: the characters parseInt skips before the number. */
  predicate IsJsSpace(c: char) {
    c == '\t' || c == '\n' || c == '\U{B}' || c == '\U{C}' || c == '\r' || c == ' '
    || c == '\U{A0}' || c == '\U{1680}' || ('\U{2000}' <= c <= '\U{200A}')
    || c == '\U{2028}' || c == '\U{2029}' || c == '\U{202F}' || c == '\U{205F}'
    || c == '\U{3000}' || c == '\U{FEFF}'
  }

  /** Value of a character as a digit of radix 36 (either case); 36 for any other character. */
  function DigitOf(c: char): (d: nat)
    ensures d <= 36
    ensures d < 10 <==> '0' <= c <= '9'
  {
    if '0' <= c <= '9' then c as int - '0' as int
    else if 'a' <= c <= 'z' then c as int - 'a' as int + 10
    else if 'A' <= c <= 'Z' then c as int - 'A' as int + 10
    else 36
  }

  predicate IsDigit(c: char, radix: nat) {
    DigitOf(c) < radix
  }

  predicate AllDigits(s: string, radix: nat) {
    forall i :: 0 <= i < |s| ==> IsDigit(s[i], radix)
  }

  /** The lower-case digits toString(radix) writes. */
  predicate IsLowerDigit(c: char) {
    '0' <= c <= '9' || 'a' <= c <= 'z'
  }

  /** The character toString(radix) writes for digit value d. */
  function DigitChar(d: nat): (c: char)
    requires d < 36
    ensures DigitOf(c) == d
    ensures IsLowerDigit(c)
  {
    if d < 10 then ('0' as int + d) as char else ('a' as int + d - 10) as char
  }

  /** The value of a string of digits, most significant first. */
  function DigitsValue(s: string, radix: nat): nat
    requires 2 <= radix <= 36
    requires AllDigits(s, radix)
    decreases |s|
  {
    if s == [] then 0
    else DigitsValue(s[..|s| - 1], radix) * radix + DigitOf(s[|s| - 1])
  }

  /** n.toString(radix) for a non-negative integral n: the shortest digit string. */
  function NatToRadix(n: nat, radix: nat): (r: string)
    requires 2 <= radix <= 36
    ensures 1 <= |r|
    ensures AllDigits(r, radix) && DigitsValue(r, radix) == n
    ensures forall i :: 0 <= i < |r| ==> IsLowerDigit(r[i])
    ensures |r| > 1 ==> r[0] != '0'
    ensures n < radix <==> |r| == 1
    decreases n
  {
    if n < radix then [DigitChar(n)]
    else
      DivStep(n, radix);
      var high := NatToRadix(n / radix, radix);
      var r := high + [DigitChar(n % radix)];
      assert r[..|r| - 1] == high;
      assert DigitsValue(r, radix) == n by {
        assert DigitsValue(r, radix) == DigitsValue(high, radix) * radix + n % radix;
      }
      r
  }

  /** Two digits hold exactly the values below radix * radix. */
  lemma RadixLength(n: nat, radix: nat)
    requires 2 <= radix <= 36
    ensures n < radix * radix ==> |NatToRadix(n, radix)| <= 2
    ensures n >= radix * radix ==> |NatToRadix(n, radix)| >= 3
  {
    if n >= radix {
      DivStep(n, radix);
      if n >= radix * radix {
        DivLowerBound(n, radix);
      } else {
        DivUpperBound(n, radix);
      }
    }
  }

  lemma DivStep(n: nat, radix: nat)
    requires 2 <= radix <= n
    ensures 1 <= n / radix < n && n % radix < radix
    ensures n == n / radix * radix + n % radix
  {
  }

  lemma DivLowerBound(n: nat, radix: nat)
    requires 2 <= radix && n >= radix * radix
    ensures n / radix >= radix
  {
    var q := n / radix;
    assert n == q * radix + n % radix;
    assert q * radix > (radix - 1) * radix;
    MulCancel(q, radix - 1, radix);
  }

  lemma DivUpperBound(n: nat, radix: nat)
    requires 2 <= radix && n < radix * radix
    ensures n / radix < radix
  {
    var q := n / radix;
    assert n == q * radix + n % radix;
    assert q * radix < radix * radix;
    MulCancel(radix, q, radix);
  }

  /** Cancelling a positive factor keeps a strict inequality. */
  lemma MulCancel(a: int, b: int, c: int)
    requires c > 0 && a * c > b * c
    ensures a > b
  {
  }

  /** Number.prototype.toString(radix) on an integral value. */
  function IntToString(n: int, radix: nat): (r: string)
    requires 2 <= radix <= 36
    ensures n >= 0 ==> r == NatToRadix(n, radix)
    ensures n < 0 ==> |r| >= 2 && r[0] == '-' && r[1..] == NatToRadix(-n, radix)
  {
    if n < 0 then "-" + NatToRadix(-n, radix) else NatToRadix(n, radix)
  }

  /** s.padStart(len, fill) with a one-character filler. */
  function PadStart(s: string, len: nat, fill: char): (r: string)
    ensures |r| == if |s| >= len then |s| else len
    ensures r[|r| - |s|..] == s
    ensures forall i :: 0 <= i < |r| - |s| ==> r[i] == fill
  {
    if |s| >= len then s else seq(len - |s|, _ => fill) + s
  }

  /** Leading zeros do not change the value of a digit string. */
  lemma {:induction false} LeadingZeros(z: string, s: string, radix: nat)
    requires 2 <= radix <= 36
    requires forall i :: 0 <= i < |z| ==> z[i] == '0'
    requires AllDigits(s, radix)
    ensures AllDigits(z + s, radix)
    ensures DigitsValue(z + s, radix) == DigitsValue(s, radix)
    decreases |s|, |z|
  {
    assert forall i :: 0 <= i < |z + s| ==> (z + s)[i] == if i < |z| then z[i] else s[i - |z|];
    if s == [] {
      assert z + s == z;
      if z != [] {
        LeadingZeros(z[..|z| - 1], [], radix);
        assert z[..|z| - 1] + [] == z[..|z| - 1];
      }
    } else {
      var init := s[..|s| - 1];
      LeadingZeros(z, init, radix);
      assert (z + s)[..|z + s| - 1] == z + init;
    }
  }

  /** The longest prefix of s made of digits of the radix. */
  function DigitPrefix(s: string, radix: nat): (r: string)
    ensures |r| <= |s| && r == s[..|r|]
    ensures AllDigits(r, radix)
    ensures |r| == |s| || !IsDigit(s[|r|], radix)
    ensures AllDigits(s, radix) ==> r == s
  {
    if s != [] && IsDigit(s[0], radix) then
      var rest := DigitPrefix(s[1..], radix);
      assert [s[0]] + rest == s[..1 + |rest|];
      [s[0]] + rest
    else []
  }

  /** parseInt(s, radix) for an explicit radix in 2..36: skip leading white space,
      take one sign, drop a "0x"/"0X" prefix when the radix is 16, then read the
      longest run of digits; no digit at all gives NaN. A "-0" reads as 0. */
  function ParseInt(s: string, radix: nat): (r: Option<int>)
    requires 2 <= radix <= 36
    ensures AllDigits(s, radix) && s != [] ==> r == Some(DigitsValue(s, radix))
    ensures s == [] ==> r == None
  {
    var t := TrimStart(s);
    var negative := t != [] && t[0] == '-';
    var u := if t != [] && (t[0] == '-' || t[0] == '+') then t[1..] else t;
    var v := if radix == 16 && |u| >= 2 && u[0] == '0' && (u[1] == 'x' || u[1] == 'X') then u[2..] else u;
    var z := DigitPrefix(v, radix);
    if z == [] then None
    else
      var magnitude: int := DigitsValue(z, radix);
      Some(if negative then -magnitude else magnitude)
  }

  function TrimStart(s: string): (r: string)
    ensures |r| <= |s| && r == s[|s| - |r|..]
    ensures r == [] || !IsJsSpace(r[0])
    ensures forall i :: 0 <= i < |s| - |r| ==> IsJsSpace(s[i])
  {
    if s != [] && IsJsSpace(s[0]) then TrimStart(s[1..]) else s
  }
}
