# gfx.js colours and text layout in Dafny

This project models the colour and text-layout core of gfx.js, a small canvas
graphics library. It covers five parts.

- **Colours.** The `Color` class holds a six-hex-digit string `"rrggbb"`. A channel
  is read back with `parseInt` of a two-character slot. `new_rgb`, `darker` and
  `opposite` build a new colour by writing each channel with `hex2`. So does
  `fade` for a fraction strictly between 0 and 1; otherwise it returns one of
  its two colours. `contrast` returns the literal black `"000000"` or white
  `"ffffff"`. The class never changes a colour after construction, so
  `Color` is a Dafny `datatype` (`color.dfy`). A channel that `parseInt` cannot
  read is JavaScript's `NaN`, written `None` here.
- **Helpers.** These are the free helpers `padnum`, `hex2` and `zmod`
  (`util.dfy`). They rest on the JavaScript built-ins `Number.prototype.toString(radix)`,
  `String.prototype.padStart` and `parseInt` (`js_text.dfy`).
- **Measuring.** `Graphics.measure_text` returns the widest `"\n"`-separated piece
  and one font height per piece (`measure.dfy`). The canvas is reduced to two
  things: the width that `ctx.measureText` reports (any deterministic,
  non-negative function of the string) and the font height.
- **Wrapping.** `Graphics.end_word` and `Graphics.split_text` form the greedy word
  wrapper (`wrap.dfy`). Each is specified by functions, and each loop of the
  source is a method proved equal to its function.
- **Layout.** This part models where `draw_centered_text`, `draw_just_text`,
  `draw_paragraph` and `draw_vcentered_paragraph` put their text (`layout.dfy`).
  A drawing is recorded as the list of `fillText` calls it makes.

The main results are these.

- A canonical colour round-trips through its channels, and `opposite` undoes itself;
  on an upper-case colour it gives back the same channels in lower case.
- `fade` interpolates between the two channels, and `darker(mult)` with mult in [0, 1] never brightens.
- `zmod` is the Euclidean modulus for a positive modulus.
- `split_text` keeps every non-blank character in order. No line holds a
  newline, and every non-empty line fits and does not start with a space; an
  empty line is emitted where a newline ends a line at once. The lines tile
  the text: between two lines lie only spaces and at most the one newline that
  ended the first. So every newline ends a line, and two newlines in a row give
  an empty line, for every text.
- A cut word loses only what would have overflowed.
- `draw_paragraph` puts line k exactly k font heights below the first line.

## Model

| member | source | states |
|---|---|---|
| JsText.NatToRadix | gfx.js:291 | `toString(radix)` of a non-negative integer is a non-empty string of lower-case digits of the radix whose value is the number, with no leading zero; it has one digit exactly when the number is below the radix |
| JsText.IntToString | gfx.js:291 | `toString(radix)` of a negative integer is `'-'` followed by the digits of its magnitude |
| JsText.PadStart | gfx.js:291 | `padStart(len, "0")` is as long as the longer of s and len, ends with s, and is filler in front of s |
| JsText.LeadingZeros | gfx.js:291 | zeros put in front of a digit string keep it a digit string of the same value |
| JsText.RadixLength | gfx.js:293 | below radix² a number takes at most two digits; from radix² on it takes at least three |
| JsText.TrimStart | gfx.js:29 | the white space `parseInt` skips is a prefix made only of ECMAScript white space, and what is left does not start with any |
| JsText.DigitPrefix | gfx.js:29 | the digits `parseInt` reads are the longest prefix made of digits of the radix |
| JsText.ParseInt | gfx.js:29 | `parseInt` of a non-empty string of digits of the radix is the value of those digits, and `parseInt` of the empty string is NaN |
| Util.Padnum | gfx.js:290-292 | `padnum` is at least len characters; for a non-negative number it is a digit string whose value is `Math.floor(num)`; a negative number keeps a `'-'` |
| Util.PadnumExact | gfx.js:290-292 | `padnum` is exactly `Math.floor(num).toString(radix)` with just enough `'0'`s in front to reach len characters; for a non-negative number every character is a lower-case digit; a negative one has its `'-'` right after the zeros |
| Util.Hex2 | gfx.js:293 | `hex2(num)` is `padnum(num, 2, 16)`; what it writes is stated by Util.Hex2InRange and Util.Hex2OutOfRange |
| Util.Hex2InRange | gfx.js:293 | inside [0, 256) `hex2` writes exactly two lower-case hex digits worth `Math.floor(num)`, which `parseInt(…, 16)` reads back |
| Util.Hex2OutOfRange | gfx.js:293 | `hex2` does not clamp: from 256 on it writes three or more characters, and below 0 it starts with `'-'` |
| Util.JsRem | gfx.js:296-297 | JavaScript's `%` on integers: the remainder has the sign of the dividend, is smaller in magnitude than the divisor, and differs from the dividend by a multiple of the divisor, which fixes it |
| Util.Zmod | gfx.js:295-300 | `zmod` is NaN (None) exactly when m is 0 |
| Util.ZmodInRange | gfx.js:295-300 | for m > 0 `zmod(x, m)` is in [0, m), differs from x by a multiple of m, and equals the Euclidean `x mod m` |
| Util.ZmodNegativeModulus | gfx.js:295-300 | for m < 0 a non-negative x lands in [0, -m); a negative x that m does not divide lands in (2m, m); one that m divides gives 0 |
| Util.ZmodNegativeExample | gfx.js:295-300 | `zmod(-1, -3)` is -4, so a negative modulus does not give a residue |
| Colors.Substr | gfx.js:29 | `substr(start, n)` is the window when it lies inside the string, and empty when start is past the end |
| Colors.Color.NewRgb | gfx.js:8-10 | `new_rgb` of three channels in [0, 256) is a canonical colour whose channels read back as the channels rounded down; any channel outside gives an invalid colour |
| Colors.Color.Hex | gfx.js:11-13 | `hex()` is the stored string, so `new Color(c.hex())` is c again; for a valid colour it is six hex digits |
| Colors.Color.JString | gfx.js:25-27 | `jstring()` is `'#'` followed by `hex()` |
| Colors.Color.GetComp | gfx.js:28-30 | on a valid colour, channels 0 to 2 are the values of their two-digit slots, in [0, 256); any later channel is NaN |
| Colors.Color.Red | gfx.js:31 | `red()` of a valid colour is a number in [0, 256), channel 0 |
| Colors.Color.Green | gfx.js:32 | `green()` of a valid colour is a number in [0, 256), channel 1 |
| Colors.Color.Blue | gfx.js:33 | `blue()` of a valid colour is a number in [0, 256), channel 2 |
| Colors.Color.Fade | gfx.js:14-24 | `fade` returns this colour for frac ≤ 0 and color2 for frac ≥ 1; otherwise it returns the per-channel fade, which for valid inputs is canonical, with each channel the rounded-down interpolation and between the two inputs |
| Colors.Color.Faded | gfx.js:17-23 | the per-channel fade that `fade` builds for a fraction in (0, 1); its channels are stated by Colors.Color.FadeChannels |
| Colors.Color.FadeChannels | gfx.js:14-24 | the fade of two valid colours is canonical, and each channel is `floor(c1 + (c2 - c1) * frac)`, lying between c1 and c2 |
| Colors.Color.LerpChannel | gfx.js:19-21 | a faded channel before rounding is in [0, 256) and rounds down to a value between the two channels |
| Colors.Color.Darker | gfx.js:34-36 | `darker(mult)`; its channels are stated by Colors.Color.DarkerChannels |
| Colors.Color.DarkerChannels | gfx.js:34-36 | for mult in [0, 1] `darker` is canonical, and each channel is `floor(c * mult)`, in [0, c] |
| Colors.Color.Opposite | gfx.js:37-39 | `opposite()`; its channels are stated by Colors.Color.OppositeChannels, and Colors.OppositeInvolution and Colors.OppositeTwice state that it undoes itself |
| Colors.Color.OppositeChannels | gfx.js:37-39 | `opposite` of a valid colour is canonical, and each channel is 255 minus the original |
| Colors.Color.Contrast | gfx.js:40-43 | `contrast` is black or white; it is black exactly when all three channels are numbers whose sum exceeds 384 |
| Colors.Rebuilt | gfx.js:8-10 | three values in [0, 256), each written with `hex2`, make a canonical colour whose channels are the values rounded down |
| Colors.RebuiltInt | gfx.js:37-39 | three integer channels in [0, 256) written with `hex2` read back unchanged |
| Colors.OutOfRangeInvalid | gfx.js:8-10 | one value outside [0, 256) makes the built string something other than six hex digits |
| Colors.TwoDigitValue | gfx.js:29 | a two-hex-digit slot is worth 16 × first + second, below 256 |
| Colors.SlotRoundTrip | gfx.js:28-30 | `hex2` of the value of a lower-case two-digit slot writes that slot again |
| Colors.CanonicalRoundTrip | gfx.js:8-33 | a canonical colour is `new_rgb` of its own red, green and blue |
| Colors.CanonicalByChannels | gfx.js:28-33 | two canonical colours with the same channels are equal |
| Colors.OppositeInvolution | gfx.js:37-39 | `c.opposite().opposite()` is c itself for every canonical colour c |
| Colors.OppositeTwice | gfx.js:37-39 | on any valid colour `opposite().opposite()` is canonical with the same three channels, so an upper-case colour such as `"FFFFFF"` comes back lower-case |
| Colors.LerpBetween | gfx.js:21 | the interpolation of two channels for frac in (0, 1) is in [0, 256) and rounds down between them |
| Colors.ScaleBetween | gfx.js:35 | a channel times mult in [0, 1] stays in [0, c] |
| TextMeasure.Segments | gfx.js:176 | `split("\n")` gives at least one piece |
| TextMeasure.SegmentsShape | gfx.js:176 | there is one piece more than there are newlines, and no piece holds a newline |
| TextMeasure.SegmentsJoin | gfx.js:176 | joining the pieces with `"\n"` gives the text back |
| TextMeasure.NoNewlineSegments | gfx.js:176 | text without a newline splits into itself alone |
| TextMeasure.MaxWidthBounds | gfx.js:174-180 | the running maximum is never negative, is at least every piece's width, and is the width of one piece unless it is 0 |
| TextMeasure.Surface.MeasureText | gfx.js:173-182 | the loop of `measure_text` computes the widest piece and the font height times the number of pieces |
| TextMeasure.Surface.TextSize | gfx.js:173-182 | the size `measure_text` returns, specified as a value; its shape is stated by TextMeasure.Surface.TextSizeShape |
| TextMeasure.Surface.TextSizeShape | gfx.js:173-182 | the width bounds every piece and is attained by one of them (or is 0); the height is the font height times (newlines + 1) |
| TextMeasure.Surface.SingleLineWidth | gfx.js:176-178 | on text without a newline, `measure_text(t).width` is the canvas width of t |
| TextWrap.SkipSpaces | gfx.js:191-193 | the first position from p that does not hold a space; everything skipped is a space |
| TextWrap.SkipWord | gfx.js:194-196 | the first position from p that holds a space or a newline; everything skipped is neither |
| TextWrap.WordEnd | gfx.js:190-198 | `end_word` stops at the end, a space or a newline; it crosses no newline; it moves forward unless p is at a newline or the end |
| TextWrap.EndWord | gfx.js:190-198 | the two loops of `end_word` compute WordEnd |
| TextWrap.SkipBlanks | gfx.js:204-205 | the space-skipping loop computes SkipSpaces |
| TextWrap.Shrink | gfx.js:218-219 | the cut ends at the longest prefix within e that fits, or at the line start when none fits; every longer prefix up to e is too wide |
| TextWrap.CutWord | gfx.js:217-221 | the cutting loop computes Shrink |
| TextWrap.Grow | gfx.js:208-228 | a break of the inner loop never goes backwards and stays within the text |
| TextWrap.GrowLine | gfx.js:206-228 | the inner loop of `split_text` computes Grow |
| TextWrap.NextLine | gfx.js:203-228 | one pass of the outer loop either emits the rest of the text and ends, or emits one line and moves strictly forward |
| TextWrap.Split | gfx.js:199-230 | the lines the greedy wrapper defines; their meaning is stated by TextWrap.SplitLinesGood, TextWrap.SplitKeepsContent and TextWrap.SplitTiles |
| TextWrap.SplitText | gfx.js:199-230 | `split_text` returns Split, the lines the greedy wrapper defines |
| TextWrap.SplitFromBreak | gfx.js:222-225 | a break emits its piece and goes on strictly after the line start |
| TextWrap.SplitFromLast | gfx.js:209-211 | at the end of the text the last piece is all that is left to emit |
| TextWrap.Progress | gfx.js:216-224 | a line that starts at a character other than a space breaks strictly after that character |
| TextWrap.OneCharFits | gfx.js:218-219 | under CharsFit, one character other than a space or a newline fits alone |
| TextWrap.Stall | gfx.js:217-224 | a lone character as wide as the line is cut to nothing and the line restarts where it was, so on such a one-character text `split_text` would not end |
| TextWrap.GrowShape | gfx.js:208-228 | each line is a stretch of the text that fits, holds no newline and does not start with a space. It ends at a newline, or where the next word or next character would overflow, or at the end of the text, where only a non-empty rest is emitted |
| TextWrap.GrowSpan | gfx.js:208-228 | the piece of a break is the text from the line start, followed by nothing or the newline that caused the break |
| TextWrap.SplitLinesGood | gfx.js:199-230 | every emitted line holds no newline; a non-empty one fits the width and does not start with a space |
| TextWrap.SplitNoNewlines | gfx.js:213-224 | no line of `split_text` holds a newline |
| TextWrap.SplitKeepsContent | gfx.js:199-230 | apart from spaces and newlines, the lines hold exactly the characters of the text, in order |
| TextWrap.SplitCountsNewlines | gfx.js:213-224 | there are at least as many lines as newlines in the text |
| TextWrap.SplitTiles | gfx.js:199-230 | the lines tile the text: each line follows a run of spaces and is the text that comes next, with no newline. After a line comes the newline that ended it, which is skipped, or a character other than a newline. Only the last line reaches the end of the text, and only spaces follow the lines |
| TextWrap.TileBreak | gfx.js:222-225 | a broken-off line, followed by its newline or by a character other than a newline, and then lines that tile the rest, tiles the text from the line start |
| TextWrap.TileLast | gfx.js:209-211 | the last line, or nothing after trailing spaces, tiles the rest of the text |
| TextWrap.GrowGap | gfx.js:213-225 | a break is followed by the newline that caused it, or by a character other than a newline |
| TextWrap.BlankLine | gfx.js:213-224 | in tiled lines, a newline right after the spaces at a position gives an empty first line |
| TextWrap.DoubleNewline | gfx.js:213-224 | in tiled lines, two newlines in a row anywhere give an empty line, and the lemma names its index |
| TextWrap.SplitBlankLine | gfx.js:199-230 | for every text, `split_text` emits an empty line when the text holds two newlines in a row |
| TextWrap.BlankLineExample | gfx.js:213-224 | `"a\n\nb"` wraps to `["a", "", "b"]`: two newlines in a row give an empty line |
| TextWrap.CutWordExample | gfx.js:217-221 | a word wider than the line, `"abc"` at width 2 with one unit per character, is cut into `["a", "b", "c"]` |
| TextLayout.DrawText | gfx.js:169-172 | `draw_text` draws the text in its colour at x, with the baseline one font height below y |
| TextLayout.CenteredX | gfx.js:184-186 | the left edge is never left of x; a narrower text gets equal room on both sides, a wider one starts at x |
| TextLayout.DrawCenteredText | gfx.js:183-189 | one `fillText` at the centred edge, returning the measured size |
| TextLayout.JustX | gfx.js:263-269 | just < 0 stays at x; just == 0 centres; just > 0 puts the right edge of a narrower text on the right edge of the box; a text at least as wide as the box starts at x |
| TextLayout.DrawJustText | gfx.js:262-273 | the shadow, when given, is drawn first with the same text, shifted right and down by the shadow shift; the text comes last at the justified edge; the measured size is returned |
| TextLayout.LineText | gfx.js:239-242 | the drawn text is the line without its leading tab when it starts with one, and the line itself otherwise |
| TextLayout.ListWidth | gfx.js:234 | the list indent is 0 without a list character, and otherwise the measured width of the list character |
| TextLayout.Indent | gfx.js:247-248 | a line that starts with the list character, or any line when there is none, is not indented; any other line moves right by the list indent |
| TextLayout.LineFill | gfx.js:236-249 | the `fillText` call `draw_paragraph` makes for one line; its text, colour, left edge and baseline are stated by TextLayout.LineFillPlacement |
| TextLayout.LineX | gfx.js:237-248 | the left edge of one paragraph line; where it lies is stated by TextLayout.LineFillPlacement |
| TextLayout.LineFillPlacement | gfx.js:236-249 | the call shows the line without a leading tab, in the colour. A line that is neither centred nor tab-led starts at x. A centred or tab-led one gets an integer left margin; the right margin is at least the left and less than 2 more. The list indent comes on top. The baseline is one font height below the line's top |
| TextLayout.FloorHalf | gfx.js:245 | `Math.floor(d / 2)` leaves at least as much on the other side, and less than 2 more |
| TextLayout.ParagraphDrawing | gfx.js:235-251 | the `fillText` calls of a paragraph from line i on, none without a colour; what they draw and where is stated by TextLayout.ParagraphFills, TextLayout.ParagraphLines and TextLayout.ParagraphLineSpacing |
| TextLayout.ParagraphFills | gfx.js:235-251 | the drawing makes one `fillText` per remaining line |
| TextLayout.ParagraphLines | gfx.js:235-251 | call k of the paragraph draws line k with its top k font heights below y |
| TextLayout.ParagraphLineSpacing | gfx.js:249-250 | call k has its baseline k + 1 font heights below y, shows line k without a leading tab, in the colour |
| TextLayout.LineWidth | gfx.js:244 | a line without a newline measures as the canvas measures it |
| TextLayout.ParagraphStep | gfx.js:249-250 | one loop pass draws line i (when there is a colour) and leaves the rest one font height lower |
| TextLayout.PlaceLine | gfx.js:236-248 | the loop body computes the drawn text and the left edge of one line |
| TextLayout.DrawLines | gfx.js:235-251 | the loop of `draw_paragraph` makes exactly the calls of the paragraph drawing, none without a colour |
| TextLayout.DrawParagraph | gfx.js:231-253 | `draw_paragraph` draws the lines of `split_text(msg, w)`, and returns a box of width w and one font height per line |
| TextLayout.ParagraphHeight | gfx.js:252 | the box is at least one font height per newline of msg tall |
| TextLayout.VCenterY | gfx.js:255-256 | the top at which `draw_vcentered_paragraph` starts; where it lies is stated by TextLayout.VCenterMargins |
| TextLayout.VCenterMargins | gfx.js:254-258 | the top is moved by half the room beside the height of (newlines + 1) lines; the paragraph is centred with equal room above and below when wrapping adds no line |
| TextLayout.DrawVCenteredParagraph | gfx.js:254-258 | `draw_vcentered_paragraph` is `draw_paragraph` with its top moved down to VCenterY, with the same box |

## Left out

- The `Point` class, the raw canvas drawing calls (lines, rectangles, circles, images), `set_font_size`/`get_font_size`, `el`, `now`, `randu` and `munge_config` are not part of this model. They are DOM, clock or randomness glue.
- `ctx.measureText` is a parameter: any deterministic, non-negative width of a string. Real font metrics are not modelled.
- JavaScript numbers are modelled as unbounded reals and integers. Double rounding is not modelled anywhere: not in the layout arithmetic, and not in `fade` and `darker`. For example, `darker(0.29)` of channel 100 gives `Math.floor(28.999999999999996)` = 28 in JavaScript, while Colors.Color.DarkerChannels gives 29. Overflow, infinities and `NaN` in the layout arithmetic are not modelled either.
- `toString` of numbers of 10^21 and above, which JavaScript writes in exponent form, is not modelled.
- Strings are sequences of Dafny characters, which never hold a lone UTF-16 surrogate (D800–DFFF). So text outside the Basic Multilingual Plane, such as emoji written as surrogate pairs, cannot be represented. Nor can `split_text`'s one-unit cut splitting such a pair in half.
- `substr` is modelled only for the non-negative positions the core uses.
- Colors.Color.GetComp: takes a natural channel number, so `get_comp` with a negative or fractional argument is not modelled.
- Colors.Color.Fade: returns a value, so the source's returning of the very same object (`this` or `color2`) is seen only as an equal colour.
- `config.shadow_shift` of `draw_just_text` is the parameter `shadowShift` of TextLayout.DrawJustText.
- TextWrap.SplitText: requires CharsFit: every character other than a space or a newline measures less than the width. Under this condition every pass of `split_text` moves forward. Without it, a lone character as wide as the line makes it emit `""` for ever (TextWrap.Stall).
- TextLayout.DrawParagraph: carries the same CharsFit precondition, because it calls `split_text`.
- TextLayout.DrawVCenteredParagraph: carries the same CharsFit precondition, because it calls `draw_paragraph`.
- Kept as the code does it:
  - `hex2` and `new_rgb` do not clamp. A channel outside [0, 256) gives an invalid colour (Colors.OutOfRangeInvalid, Util.Hex2OutOfRange).
  - `fade` rounds each channel down, not to the nearest integer.
  - `draw_vcentered_paragraph` centres by the hard-newline height that `measure_text` reports, not by the wrapped height (TextLayout.VCenterMargins).
  - `zmod` with a negative modulus is not a residue in [0, |m|) (Util.ZmodNegativeExample).
