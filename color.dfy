/** The Color class of gfx.js. A colour is its hex string, six hex digits "rrggbb";
    every channel is read back with parseInt from a fixed two-character slot.
    new_rgb, darker and opposite build a new colour by writing each channel with
    hex2, and so does fade for a fraction strictly between 0 and 1; otherwise
    fade returns one of its two colours. contrast returns the literal black
    "000000" or white "ffffff". A channel that parseInt cannot read is JavaScript's NaN, here `None`; NaN
    survives arithmetic and hex2 writes it as "NaN". */
module Colors {
  import opened JsText
  import opened Util

  /** s.substr(start, n) for non-negative start and n: the part of the window that
      lies inside the string. */
  function Substr(s: string, start: nat, n: nat): (r: string)
    ensures start + n <= |s| ==> r == s[start..start + n]
    ensures start >= |s| ==> r == []
  {
    var b := if start < |s| then start else |s|;
    var e := if start + n < |s| then start + n else |s|;
    s[b..e]
  }

  /** hex2 applied to a channel value that may be NaN. */
  function Encode(v: Option<real>): (s: string)
    ensures v.Some? ==> s == Hex2(v.value)
    ensures v.None? ==> s == "NaN"
  {
    match v
    case None => "NaN"
    case Some(x) => Hex2(x)
  }

  /** c * mult, NaN-propagating. */
  function Scale(c: Option<int>, mult: real): Option<real> {
    match c
    case None => None
    case Some(v) => Some(Times(v as real, mult))
  }

  /** 255 - c, NaN-propagating. */
  function Complement(c: Option<int>): Option<real> {
    match c
    case None => None
    case Some(v) => Some((255 - v) as real)
  }

  /** c1 + (c2 - c1) * frac, NaN when either operand is NaN. */
  function Lerp(c1: Option<int>, c2: Option<int>, frac: real): Option<real> {
    if c1.Some? && c2.Some? then
      var a, b := c1.value as real, c2.value as real;
      Some(a + Times(b - a, frac))
    else None
  }

  datatype Color = Color(hexStr: string) {

    /** Six hex digits: the form every channel slot reads back from. */
    predicate Valid() {
      |hexStr| == 6 && AllDigits(hexStr, 16)
    }

    /** Valid and written with lower-case digits, as hex2 writes them. */
    predicate Canonical() {
      Valid() && forall i :: 0 <= i < 6 ==> IsLowerDigit(hexStr[i])
    }

    /** The two characters that hold channel k. */
    function Slot(k: nat): string
      requires Valid() && k < 3
    {
      hexStr[2 * k..2 * k + 2]
    }

    /** Color.new_rgb(r, g, b): hex2 of each channel, concatenated. Channels in
        [0, 256) give a canonical colour whose channels read back as the
        rounded-down inputs. */
    static function NewRgb(r: real, g: real, b: real): (c: Color)
      ensures 0.0 <= r < 256.0 && 0.0 <= g < 256.0 && 0.0 <= b < 256.0 ==>
                c.Canonical() && c.Red() == Some(r.Floor) && c.Green() == Some(g.Floor)
                && c.Blue() == Some(b.Floor)
      ensures r < 0.0 || r >= 256.0 || g < 0.0 || g >= 256.0 || b < 0.0 || b >= 256.0 ==> !c.Valid()
    {
      var c := Color(Hex2(r) + Hex2(g) + Hex2(b));
      if 0.0 <= r < 256.0 && 0.0 <= g < 256.0 && 0.0 <= b < 256.0 then
        Rebuilt(r, g, b);
        c
      else
        OutOfRangeInvalid(r, g, b);
        c
    }

    /** hex(): the stored string, six hex digits for a valid colour; a colour
        built from it is this colour again. */
    function Hex(): (s: string)
      ensures Color(s) == this
      ensures Valid() ==> |s| == 6 && AllDigits(s, 16)
    {
      hexStr
    }

    /** jstring(): the CSS form "#rrggbb". */
    function JString(): (s: string)
      ensures |s| == |hexStr| + 1 && s[0] == '#' && s[1..] == Hex()
    {
      "#" + hexStr
    }

    /** get_comp(comp): parseInt of the two-character slot at 2 * comp, base 16. On
        a valid colour, channels 0..2 are the values of their two digits and any
        later slot is empty, so NaN. */
    function GetComp(comp: nat): (v: Option<int>)
      ensures Valid() && comp < 3 ==> v == Some(DigitsValue(Slot(comp), 16)) && 0 <= v.value < 256
      ensures Valid() && comp >= 3 ==> v == None
    {
      var slot := Substr(hexStr, comp * 2, 2);
      if Valid() && comp < 3 then
        TwoDigitValue(slot);
        ParseInt(slot, 16)
      else ParseInt(slot, 16)
    }

    function Red(): (v: Option<int>)
      ensures Valid() ==> v.Some? && 0 <= v.value < 256 && v == GetComp(0)
    {
      GetComp(0)
    }

    function Green(): (v: Option<int>)
      ensures Valid() ==> v.Some? && 0 <= v.value < 256 && v == GetComp(1)
    {
      GetComp(1)
    }

    function Blue(): (v: Option<int>)
      ensures Valid() ==> v.Some? && 0 <= v.value < 256 && v == GetComp(2)
    {
      GetComp(2)
    }

    /** The channel fade writes for slot k. */
    function FadedSlot(color2: Color, frac: real, k: nat): string {
      Encode(Lerp(GetComp(k), color2.GetComp(k), frac))
    }

    /** The colour fade builds for a fraction strictly between 0 and 1. */
    function Faded(color2: Color, frac: real): Color {
      Color(FadedSlot(color2, frac, 0) + FadedSlot(color2, frac, 1) + FadedSlot(color2, frac, 2))
    }

    /** fade(color2, frac): this colour for frac <= 0, color2 for frac >= 1, and
        otherwise each channel moved the fraction frac of the way to color2's,
        rounded down, which stays between the two channels. */
    method Fade(color2: Color, frac: real) returns (r: Color)
      ensures frac <= 0.0 ==> r == this
      ensures frac >= 1.0 ==> r == color2
      ensures 0.0 < frac < 1.0 ==> r == Faded(color2, frac)
      ensures 0.0 < frac < 1.0 && Valid() && color2.Valid() ==>
                && r.Canonical()
                && Interpolated(r.Red(), Red(), color2.Red(), frac)
                && Interpolated(r.Green(), Green(), color2.Green(), frac)
                && Interpolated(r.Blue(), Blue(), color2.Blue(), frac)
    {
      if frac <= 0.0 {
        return this;
      }
      if frac >= 1.0 {
        return color2;
      }
      var colorStr := "";
      for c := 0 to 3
        invariant colorStr == if c == 0 then "" else if c == 1 then FadedSlot(color2, frac, 0)
                              else if c == 2 then FadedSlot(color2, frac, 0) + FadedSlot(color2, frac, 1)
                              else FadedSlot(color2, frac, 0) + FadedSlot(color2, frac, 1) + FadedSlot(color2, frac, 2)
      {
        var c1 := GetComp(c);
        var c2 := color2.GetComp(c);
        colorStr := colorStr + Encode(Lerp(c1, c2, frac));
      }
      r := Color(colorStr);
      if Valid() && color2.Valid() {
        FadeChannels(color2, frac);
      }
    }

    /** The colour fade builds from two valid colours is canonical, and each of
        its channels is the rounded-down interpolation, between the two inputs. */
    lemma FadeChannels(color2: Color, frac: real)
      requires Valid() && color2.Valid() && 0.0 < frac < 1.0
      ensures Faded(color2, frac).Canonical()
      ensures Interpolated(Faded(color2, frac).Red(), Red(), color2.Red(), frac)
      ensures Interpolated(Faded(color2, frac).Green(), Green(), color2.Green(), frac)
      ensures Interpolated(Faded(color2, frac).Blue(), Blue(), color2.Blue(), frac)
    {
      var v0 := LerpChannel(color2, frac, 0);
      var v1 := LerpChannel(color2, frac, 1);
      var v2 := LerpChannel(color2, frac, 2);
      Rebuilt(v0, v1, v2);
      assert Faded(color2, frac) == Color(Hex2(v0) + Hex2(v1) + Hex2(v2));
    }

    /** Channel k of the fade before rounding: in [0, 256) and written by hex2. */
    lemma LerpChannel(color2: Color, frac: real, k: nat) returns (v: real)
      requires Valid() && color2.Valid() && 0.0 < frac < 1.0 && k < 3
      ensures Lerp(GetComp(k), color2.GetComp(k), frac) == Some(v)
      ensures 0.0 <= v < 256.0 && FadedSlot(color2, frac, k) == Hex2(v)
      ensures Between(v.Floor, GetComp(k).value, color2.GetComp(k).value)
    {
      var c1, c2 := GetComp(k).value, color2.GetComp(k).value;
      v := Lerp(GetComp(k), color2.GetComp(k), frac).value;
      LerpBetween(c1, c2, frac);
    }

    /** darker(mult): every channel multiplied by mult and written with hex2. */
    function Darker(mult: real): Color {
      Color(Encode(Scale(GetComp(0), mult)) + Encode(Scale(GetComp(1), mult)) + Encode(Scale(GetComp(2), mult)))
    }

    /** For mult in [0, 1] darker gives a canonical colour whose channels are the
        rounded-down products, none above the original channel. */
    lemma DarkerChannels(mult: real)
      requires Valid() && 0.0 <= mult <= 1.0
      ensures Darker(mult).Canonical()
      ensures Scaled(Darker(mult).Red(), Red(), mult)
      ensures Scaled(Darker(mult).Green(), Green(), mult)
      ensures Scaled(Darker(mult).Blue(), Blue(), mult)
    {
      var c0, c1, c2 := GetComp(0).value, GetComp(1).value, GetComp(2).value;
      var v0, v1, v2 := Times(c0 as real, mult), Times(c1 as real, mult), Times(c2 as real, mult);
      ScaleBetween(c0, mult);
      ScaleBetween(c1, mult);
      ScaleBetween(c2, mult);
      Rebuilt(v0, v1, v2);
      assert Darker(mult) == Color(Hex2(v0) + Hex2(v1) + Hex2(v2));
    }

    /** opposite(): every channel c replaced by 255 - c. */
    function Opposite(): Color {
      Color(Encode(Complement(GetComp(0))) + Encode(Complement(GetComp(1))) + Encode(Complement(GetComp(2))))
    }

    /** The opposite of a valid colour is canonical and each of its channels is
        255 minus the original one. */
    lemma OppositeChannels()
      requires Valid()
      ensures Opposite().Canonical()
      ensures Opposite().Red() == Some(255 - Red().value)
      ensures Opposite().Green() == Some(255 - Green().value)
      ensures Opposite().Blue() == Some(255 - Blue().value)
    {
      ComplementSlots();
      RebuiltInt(255 - Red().value, 255 - Green().value, 255 - Blue().value);
    }

    lemma ComplementSlots()
      requires Valid()
      ensures Opposite() == Color(Hex2((255 - Red().value) as real) + Hex2((255 - Green().value) as real)
                                  + Hex2((255 - Blue().value) as real))
    {
      assert Red() == GetComp(0) && Green() == GetComp(1) && Blue() == GetComp(2);
      var a, b, c := Hex2((255 - Red().value) as real), Hex2((255 - Green().value) as real), Hex2((255 - Blue().value) as real);
      ComplementSlot(GetComp(0));
      ComplementSlot(GetComp(1));
      ComplementSlot(GetComp(2));
      assert Encode(Complement(GetComp(0))) == a;
      assert Encode(Complement(GetComp(1))) == b;
      assert Encode(Complement(GetComp(2))) == c;
    }

    /** contrast(): black when the three channels add up to more than 3 * 128,
        white otherwise (also when a channel is NaN, as NaN > 384 is false). */
    function Contrast(): (r: Color)
      ensures r == Color("000000") || r == Color("ffffff")
      ensures r == Color("000000") <==>
                GetComp(0).Some? && GetComp(1).Some? && GetComp(2).Some?
                && GetComp(0).value + GetComp(1).value + GetComp(2).value > 3 * 128
    {
      var bright := if GetComp(0).Some? && GetComp(1).Some? && GetComp(2).Some?
                    then Some(GetComp(0).value + GetComp(1).value + GetComp(2).value) else None;
      Color(if bright.Some? && bright.value > 3 * 128 then "000000" else "ffffff")
    }
  }

  lemma ComplementSlot(c: Option<int>)
    requires c.Some?
    ensures Encode(Complement(c)) == Hex2((255 - c.value) as real)
  {
  }

  /** A faded channel: both inputs are numbers, the output is their
      interpolation rounded down, and it lies between them. */
  predicate Interpolated(out: Option<int>, c1: Option<int>, c2: Option<int>, frac: real) {
    && c1.Some? && c2.Some? && out == Some(Lerp(c1, c2, frac).value.Floor)
    && Between(out.value, c1.value, c2.value)
  }

  /** A darkened channel: the input times mult rounded down, within [0, input]. */
  predicate Scaled(out: Option<int>, c: Option<int>, mult: real) {
    && c.Some? && out == Some(Times(c.value as real, mult).Floor)
    && 0 <= out.value <= c.value
  }

  /** v lies between the two channels, in either order. */
  predicate Between(v: int, c1: int, c2: int) {
    c1 <= v <= c2 || c2 <= v <= c1
  }

  /** Three channel values in [0, 256), each written with hex2 and concatenated,
      make a canonical colour whose channels read back as the rounded-down values. */
  lemma Rebuilt(x0: real, x1: real, x2: real)
    requires 0.0 <= x0 < 256.0 && 0.0 <= x1 < 256.0 && 0.0 <= x2 < 256.0
    ensures var col := Color(Hex2(x0) + Hex2(x1) + Hex2(x2));
            && col.Canonical()
            && col.Red() == Some(x0.Floor)
            && col.Green() == Some(x1.Floor)
            && col.Blue() == Some(x2.Floor)
  {
    var a, b, c := Hex2(x0), Hex2(x1), Hex2(x2);
    HexSlotValue(x0);
    HexSlotValue(x1);
    HexSlotValue(x2);
    ChannelSlots(a, b, c);
    var col := Color(a + b + c);
    ChannelRead(col, 0, x0);
    ChannelRead(col, 1, x1);
    ChannelRead(col, 2, x2);
  }

  /** Rebuilt for integral channel values, which read back unchanged. */
  lemma RebuiltInt(n0: int, n1: int, n2: int)
    requires 0 <= n0 < 256 && 0 <= n1 < 256 && 0 <= n2 < 256
    ensures var col := Color(Hex2(n0 as real) + Hex2(n1 as real) + Hex2(n2 as real));
            && col.Canonical()
            && col.Red() == Some(n0)
            && col.Green() == Some(n1)
            && col.Blue() == Some(n2)
  {
    IntFloor(n0);
    IntFloor(n1);
    IntFloor(n2);
    Rebuilt(n0 as real, n1 as real, n2 as real);
  }

  /** A valid colour whose slot k holds hex2(x) has channel k equal to floor(x). */
  lemma ChannelRead(col: Color, k: nat, x: real)
    requires col.Valid() && k < 3 && 0.0 <= x < 256.0 && col.Slot(k) == Hex2(x)
    ensures col.GetComp(k) == Some(x.Floor)
  {
    HexSlotValue(x);
  }

  /** hex2 of a value in [0, 256) is a slot whose digits are worth its floor. */
  lemma HexSlotValue(x: real)
    requires 0.0 <= x < 256.0
    ensures |Hex2(x)| == 2 && AllDigits(Hex2(x), 16) && DigitsValue(Hex2(x), 16) == x.Floor
    ensures LowerSlot(Hex2(x))
  {
    Hex2InRange(x);
  }

  /** Both characters of a two-character slot are lower-case digits. */
  predicate LowerSlot(s: string) {
    |s| == 2 && IsLowerDigit(s[0]) && IsLowerDigit(s[1])
  }

  /** Three two-digit slots make a valid colour whose slots are those strings;
      lower-case slots make it canonical. */
  lemma ChannelSlots(a: string, b: string, c: string)
    requires |a| == 2 && |b| == 2 && |c| == 2
    requires AllDigits(a, 16) && AllDigits(b, 16) && AllDigits(c, 16)
    ensures var col := Color(a + b + c);
            && col.Valid()
            && col.Slot(0) == a && col.Slot(1) == b && col.Slot(2) == c
            && (LowerSlot(a) && LowerSlot(b) && LowerSlot(c) ==> col.Canonical())
  {
    var s := a + b + c;
    assert forall i :: 0 <= i < 6 ==> s[i] == if i < 2 then a[i] else if i < 4 then b[i - 2] else c[i - 4];
    assert s[0..2] == a && s[2..4] == b && s[4..6] == c;
  }

  /** A value outside [0, 256) makes hex2 write something other than two digits,
      so the colour is not valid. */
  lemma OutOfRangeInvalid(r: real, g: real, b: real)
    requires r < 0.0 || r >= 256.0 || g < 0.0 || g >= 256.0 || b < 0.0 || b >= 256.0
    ensures !Color(Hex2(r) + Hex2(g) + Hex2(b)).Valid()
  {
    var x, y, z := Hex2(r), Hex2(g), Hex2(b);
    NotSlot(r);
    NotSlot(g);
    NotSlot(b);
    if |x + y + z| == 6 && AllDigits(x + y + z, 16) {
      DigitsSplit(x, y, z);
    }
  }

  /** Outside [0, 256) hex2 writes at least two characters that are not a pair
      of hex digits. */
  lemma NotSlot(x: real)
    ensures |Hex2(x)| >= 2
    ensures x < 0.0 || x >= 256.0 ==> !(|Hex2(x)| == 2 && AllDigits(Hex2(x), 16))
  {
    Hex2OutOfRange(x);
    if x < 0.0 {
      assert !IsDigit(Hex2(x)[0], 16);
    }
  }

  /** The parts of a digit string are digit strings. */
  lemma DigitsSplit(x: string, y: string, z: string)
    requires AllDigits(x + y + z, 16)
    ensures AllDigits(x, 16) && AllDigits(y, 16) && AllDigits(z, 16)
  {
    var s := x + y + z;
    assert forall i :: 0 <= i < |x| ==> s[i] == x[i];
    assert forall i :: 0 <= i < |y| ==> s[|x| + i] == y[i];
    assert forall i :: 0 <= i < |z| ==> s[|x| + |y| + i] == z[i];
  }

  /** Two hex digits have value 16 * first + second, below 256. */
  lemma TwoDigitValue(s: string)
    requires |s| == 2 && AllDigits(s, 16)
    ensures DigitsValue(s, 16) == 16 * DigitOf(s[0]) + DigitOf(s[1]) < 256
  {
    var first := s[..1];
    assert s[..|s| - 1] == first && first[..0] == [] && first[0] == s[0];
    assert DigitsValue(first, 16) == DigitOf(s[0]);
  }

  /** The interpolation of two channels lies in [0, 256) and rounds down to a
      value between them. */
  lemma LerpBetween(c1: int, c2: int, frac: real)
    requires 0 <= c1 < 256 && 0 <= c2 < 256 && 0.0 < frac < 1.0
    ensures var v := Lerp(Some(c1), Some(c2), frac).value;
            && 0.0 <= v < 256.0
            && Between(v.Floor, c1, c2)
  {
    var a, b := c1 as real, c2 as real;
    var v := a + Times(b - a, frac);
    TimesFraction(b - a, frac);
    if c1 <= c2 {
      FloorBetween(v, c1, c2);
    } else {
      FloorBetween(v, c2, c1);
    }
  }

  lemma IntFloor(n: int)
    ensures (n as real).Floor == n
  {
  }

  lemma FloorBetween(v: real, lo: int, hi: int)
    requires lo as real <= v <= hi as real
    ensures lo <= v.Floor <= hi
  {
  }

  /** A channel scaled by mult in [0, 1] stays in [0, c] and rounds down there. */
  lemma ScaleBetween(c: int, mult: real)
    requires 0 <= c < 256 && 0.0 <= mult <= 1.0
    ensures var v := Times(c as real, mult);
            0.0 <= v <= c as real && 0 <= v.Floor <= c
  {
    var v := Times(c as real, mult);
    TimesFraction(c as real, mult);
    FloorBetween(v, 0, c);
  }

  /** A lower-case digit is determined by its value. */
  lemma LowerDigitUnique(c: char, d: char)
    requires IsLowerDigit(c) && IsLowerDigit(d) && DigitOf(c) == DigitOf(d)
    ensures c == d
  {
  }

  /** hex2 of the value of a lower-case two-digit slot writes that slot again. */
  lemma SlotRoundTrip(s: string)
    requires LowerSlot(s) && AllDigits(s, 16)
    ensures Hex2(DigitsValue(s, 16) as real) == s
  {
    var n := DigitsValue(s, 16);
    var t := Hex2(n as real);
    TwoDigitValue(s);
    IntFloor(n);
    HexSlotValue(n as real);
    TwoDigitValue(t);
    DigitPairUnique(DigitOf(s[0]), DigitOf(s[1]), DigitOf(t[0]), DigitOf(t[1]));
    LowerDigitUnique(s[0], t[0]);
    LowerDigitUnique(s[1], t[1]);
    TwoCharsEqual(s, t);
  }

  /** Two hex digits are determined by the value they make. */
  lemma DigitPairUnique(a: int, b: int, c: int, d: int)
    requires 0 <= b < 16 && 0 <= d < 16 && 16 * a + b == 16 * c + d
    ensures a == c && b == d
  {
    assert 16 * (a - c) == d - b;
  }

  lemma TwoCharsEqual(s: string, t: string)
    requires |s| == 2 && |t| == 2 && s[0] == t[0] && s[1] == t[1]
    ensures s == t
  {
  }

  /** A canonical colour is new_rgb of its own channels: reading the channels
      and writing them back loses nothing. */
  lemma CanonicalRoundTrip(c: Color)
    requires c.Canonical()
    ensures Color.NewRgb(c.Red().value as real, c.Green().value as real, c.Blue().value as real) == c
  {
    var a, b, d := c.Slot(0), c.Slot(1), c.Slot(2);
    assert c.hexStr == a + b + d;
    assert LowerSlot(a) && LowerSlot(b) && LowerSlot(d) by {
      assert a[0] == c.hexStr[0] && a[1] == c.hexStr[1];
      assert b[0] == c.hexStr[2] && b[1] == c.hexStr[3];
      assert d[0] == c.hexStr[4] && d[1] == c.hexStr[5];
    }
    DigitsSplit(a, b, d);
    SlotRoundTrip(a);
    SlotRoundTrip(b);
    SlotRoundTrip(d);
  }

  /** Two canonical colours with the same channels are the same colour. */
  lemma CanonicalByChannels(c: Color, d: Color)
    requires c.Canonical() && d.Canonical()
    requires c.Red() == d.Red() && c.Green() == d.Green() && c.Blue() == d.Blue()
    ensures c == d
  {
    CanonicalRoundTrip(c);
    CanonicalRoundTrip(d);
  }

  /** On any valid colour, opposite() twice gives the colour with the same
      channels written in lower case, so an upper-case colour comes back
      lower-case. */
  lemma OppositeTwice(c: Color)
    requires c.Valid()
    ensures var oo := c.Opposite().Opposite();
            && oo.Canonical()
            && oo.Red() == c.Red() && oo.Green() == c.Green() && oo.Blue() == c.Blue()
  {
    var o := c.Opposite();
    c.OppositeChannels();
    o.OppositeChannels();
    var oo := o.Opposite();
    assert oo.Red() == c.Red() && oo.Green() == c.Green() && oo.Blue() == c.Blue();
  }

  /** opposite() undoes itself on a canonical colour. */
  lemma OppositeInvolution(c: Color)
    requires c.Canonical()
    ensures c.Opposite().Opposite() == c
  {
    var o := c.Opposite();
    c.OppositeChannels();
    o.OppositeChannels();
    var oo := o.Opposite();
    assert oo.Red() == c.Red() && oo.Green() == c.Green() && oo.Blue() == c.Blue();
    CanonicalByChannels(oo, c);
  }
}
