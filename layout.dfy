/** The text layout of the Graphics class in gfx.js: where draw_centered_text,
    draw_just_text, draw_paragraph and draw_vcentered_paragraph put their text.
    A drawing is recorded as the list of fillText calls it makes. */
module TextLayout {
  import opened JsText
  import opened Util
  import opened Colors
  import opened TextMeasure
  import opened TextWrap

  /** One ctx.fillText call: text in colour with its baseline at (x, y). */
  datatype Fill = Fill(x: real, y: real, text: string, color: Color)

  /** What a one-line drawing did: its fillText calls, and the size it returns. */
  datatype Drawn = Drawn(fills: seq<Fill>, size: Size)

  /** The { w, h } box draw_paragraph returns. */
  datatype Box = Box(w: real, h: real)

  /** draw_text(x, y, text, color): the baseline goes one font height below y. */
  function DrawText(g: Surface, x: real, y: real, text: string, color: Color): (f: Fill)
    ensures f.x == x && f.text == text && f.color == color
    ensures f.y - y == g.fontHeight
  {
    Fill(x, y + g.fontHeight, text, color)
  }

  /** The left edge draw_centered_text picks in a box of width w at x: centred
      when the text is narrower than the box (equal space on both sides), and
      flush left otherwise; never left of x. */
  function CenteredX(g: Surface, x: real, w: real, text: string): (r: real)
    ensures r >= x
    ensures g.Width(text) < w ==> r > x && r - x == (x + w) - (r + g.Width(text))
    ensures g.Width(text) >= w ==> r == x
  {
    var nx := x + (w - g.Width(text)) / 2.0;
    if nx > x then nx else x
  }

  /** draw_centered_text(x, y, w, text, color): one fillText at the centred
      edge; it returns the measured size of the text. */
  function DrawCenteredText(g: Surface, x: real, y: real, w: real, text: string, color: Color): (r: Drawn)
    ensures r.size == g.TextSize(text)
    ensures |r.fills| == 1 && r.fills[0] == DrawText(g, CenteredX(g, x, w, text), y, text, color)
  {
    Drawn([DrawText(g, CenteredX(g, x, w, text), y, text, color)], g.TextSize(text))
  }

  /** The left edge draw_just_text picks: just == 0 centres, just > 0 puts the
      right edge of the text on the right edge of the box, just < 0 stays at x;
      a text at least as wide as the box always starts at x. */
  function JustX(g: Surface, x: real, w: real, text: string, just: real): (r: real)
    ensures r >= x
    ensures just < 0.0 ==> r == x
    ensures just == 0.0 ==> r == CenteredX(g, x, w, text)
    ensures just > 0.0 && g.Width(text) < w ==> r + g.Width(text) == x + w
    ensures g.Width(text) >= w ==> r == x
  {
    var tw := g.Width(text);
    var nx := if just == 0.0 then x + (w - tw) / 2.0 else if just > 0.0 then x + w - tw else x;
    if nx > x then nx else x
  }

  /** draw_just_text(x, y, w, text, just, color, color_shadow): the shadow, when
      there is one, is drawn first, shifted right and down by shadowShift (the
      configured shadow_shift); the text goes on top at the justified edge. */
  function DrawJustText(g: Surface, x: real, y: real, w: real, text: string, just: real,
                        color: Color, shadow: Option<Color>, shadowShift: real): (r: Drawn)
    ensures r.size == g.TextSize(text)
    ensures |r.fills| == if shadow.Some? then 2 else 1
    ensures r.fills[|r.fills| - 1] == DrawText(g, JustX(g, x, w, text, just), y, text, color)
    ensures shadow.Some? ==> && r.fills[0].color == shadow.value && r.fills[0].text == text
                             && r.fills[0].x - r.fills[1].x == shadowShift
                             && r.fills[0].y - r.fills[1].y == shadowShift
  {
    var jx := JustX(g, x, w, text, just);
    var front := DrawText(g, jx, y, text, color);
    var back := if shadow.Some? then [DrawText(g, jx + shadowShift, y + shadowShift, text, shadow.value)] else [];
    Drawn(back + [front], g.TextSize(text))
  }

  /** The text draw_paragraph draws for a line: a leading tab is dropped. */
  function LineText(line: string): (r: string)
    ensures line == r || line == ['\t'] + r
    ensures (|line| > 0 && line[0] == '\t') <==> line == ['\t'] + r
  {
    if |line| > 0 && line[0] == '\t' then line[1..] else line
  }

  /** The list indent draw_paragraph measures once: the width of list_char,
      or 0 when there is no list character. */
  function ListWidth(g: Surface, listChar: string): (r: real)
    ensures r >= 0.0
    ensures |listChar| > 0 ==> r == g.Width(listChar)
    ensures |listChar| == 0 ==> r == 0.0
  {
    if |listChar| > 0 then
      g.TextSizeShape(listChar);
      g.Width(listChar)
    else 0.0
  }

  /** The indent of a line in a list: lines that do not start with the list
      character are moved right by the list indent, so they line up after it. */
  function Indent(text: string, listChar: string, listIndent: real): (r: real)
    ensures |listChar| == 0 || listChar <= text ==> r == 0.0
    ensures |listChar| > 0 && !(listChar <= text) ==> r == listIndent
  {
    if |listChar| > 0 && !(listChar <= text) then listIndent else 0.0
  }

  /** The fillText call draw_paragraph makes for one line with its top at y. A
      line is centred when center is set or it starts with a tab: it moves right
      by Math.floor of half the room left beside it. The lines come from
      split_text and hold no newline, so measure_text(line).width is the canvas
      width of the line. */
  function LineFill(g: Surface, line: string, x: real, y: real, w: real,
                    color: Color, center: bool, listChar: string, listIndent: real): Fill
  {
    DrawText(g, LineX(g, line, x, w, center, listChar, listIndent), y, LineText(line), color)
  }

  /** The left edge of a line of draw_paragraph. */
  function LineX(g: Surface, line: string, x: real, w: real, center: bool, listChar: string, listIndent: real): real {
    var text := LineText(line);
    var centered := center || (|line| > 0 && line[0] == '\t');
    var tx := if centered then x + ((w - g.measure(text)) / 2.0).Floor as real else x;
    tx + Indent(text, listChar, listIndent)
  }

  /** Where a line goes: a line that is not centred starts at x; a centred one
      leaves the room beside it split between the two sides, the right side
      getting up to 2 more than the left, which is an integer (negative when
      the line is wider than the box); then the list indent is added. */
  lemma LineFillPlacement(g: Surface, line: string, x: real, y: real, w: real,
                          color: Color, center: bool, listChar: string, listIndent: real)
    ensures var f := LineFill(g, line, x, y, w, color, center, listChar, listIndent);
            var text := LineText(line);
            var left := f.x - x - Indent(text, listChar, listIndent);
            var right := w - g.measure(text) - left;
            && f.text == text && f.color == color && f.y == y + g.fontHeight
            && (!center && (|line| == 0 || line[0] != '\t') ==> left == 0.0)
            && (center || (|line| > 0 && line[0] == '\t') ==> left == left.Floor as real && left <= right < left + 2.0)
  {
    var text := LineText(line);
    if center || (|line| > 0 && line[0] == '\t') {
      FloorHalf(w - g.measure(text));
    }
  }

  /** Math.floor of half of d leaves at least as much on the other side, and
      less than 2 more. */
  lemma FloorHalf(d: real)
    ensures var h := (d / 2.0).Floor as real; h <= d - h < h + 2.0
  {
  }

  /** The fillText calls for the lines from i on, line i with its top at y
      and each next one lineH lower; place makes the call for one line. */
  function ParagraphFills(place: (string, real) -> Fill, lines: seq<string>, i: nat, y: real, lineH: real): (r: seq<Fill>)
    requires i <= |lines|
    ensures |r| == |lines| - i
    decreases |lines| - i
  {
    if i == |lines| then []
    else [place(lines[i], y)] + ParagraphFills(place, lines, i + 1, y + lineH, lineH)
  }

  /** How draw_paragraph places one line, as a function of the line and its top. */
  function LinePlacer(g: Surface, x: real, w: real, color: Color, center: bool, listChar: string, listIndent: real)
    : (string, real) -> Fill
  {
    (line: string, y: real) => LineFill(g, line, x, y, w, color, center, listChar, listIndent)
  }

  /** The calls draw_paragraph makes for the lines from i on: none without a
      colour. */
  function ParagraphDrawing(g: Surface, lines: seq<string>, i: nat, x: real, y: real, w: real,
                            color: Option<Color>, center: bool, listChar: string, listIndent: real): seq<Fill>
    requires i <= |lines|
  {
    if color.Some? then ParagraphFills(LinePlacer(g, x, w, color.value, center, listChar, listIndent), lines, i, y, g.fontHeight)
    else []
  }

  /** Line k of a paragraph is drawn for line k of the text, k font heights
      below the first. */
  lemma ParagraphLines(g: Surface, lines: seq<string>, x: real, y: real, w: real,
                       color: Color, center: bool, listChar: string, listIndent: real, k: nat)
    requires k < |lines|
    ensures ParagraphDrawing(g, lines, 0, x, y, w, Some(color), center, listChar, listIndent)[k]
            == LineFill(g, lines[k], x, y + Times(k as real, g.fontHeight), w, color, center, listChar, listIndent)
  {
    var place := LinePlacer(g, x, w, color, center, listChar, listIndent);
    var top := LineTop(y, g.fontHeight, k);
    FillsAt(place, lines, 0, y, g.fontHeight, k);
    LineTopTimes(y, g.fontHeight, k);
    assert place(lines[k], top) == LineFill(g, lines[k], x, top, w, color, center, listChar, listIndent);
  }

  /** The top of line k: k font heights below y, one at a time. */
  function LineTop(y: real, fh: real, k: nat): real
    decreases k
  {
    if k == 0 then y else LineTop(y + fh, fh, k - 1)
  }

  /** Line k is k font heights below the first. */
  lemma {:induction false} LineTopTimes(y: real, fh: real, k: nat)
    ensures LineTop(y, fh, k) == y + Times(k as real, fh)
    decreases k
  {
    TimesStep(k - 1, fh);
    if k > 0 {
      LineTopTimes(y + fh, fh, k - 1);
    }
  }

  /** The call k places after line i is for line i + k at LineTop. */
  lemma {:induction false} FillsAt(place: (string, real) -> Fill, lines: seq<string>, i: nat, y: real, lineH: real, k: nat)
    requires i + k < |lines|
    ensures ParagraphFills(place, lines, i, y, lineH)[k] == place(lines[i + k], LineTop(y, lineH, k))
    decreases k
  {
    if k > 0 {
      FillsAt(place, lines, i + 1, y + lineH, lineH, k - 1);
    }
  }

  /** So line k has its baseline k + 1 font heights below the top, and shows
      the text of line k without a leading tab. */
  lemma ParagraphLineSpacing(g: Surface, lines: seq<string>, x: real, y: real, w: real,
                             color: Color, center: bool, listChar: string, listIndent: real, k: nat)
    requires k < |lines|
    ensures var f := ParagraphDrawing(g, lines, 0, x, y, w, Some(color), center, listChar, listIndent)[k];
            f.y == y + Times((k + 1) as real, g.fontHeight) && f.text == LineText(lines[k]) && f.color == color
  {
    ParagraphLines(g, lines, x, y, w, color, center, listChar, listIndent, k);
    LineFillPlacement(g, lines[k], x, y + Times(k as real, g.fontHeight), w, color, center, listChar, listIndent);
    TimesStep(k, g.fontHeight);
  }

  /** One more line is one more font height. */
  lemma TimesStep(k: int, fh: real)
    ensures Times((k + 1) as real, fh) == Times(k as real, fh) + fh
    ensures k == -1 ==> Times((k + 1) as real, fh) == 0.0
  {
  }

  /** A line without a newline, with or without its leading tab, measures as
      the canvas measures it. */
  lemma LineWidth(g: Surface, line: string)
    requires '\n' !in line
    ensures g.Width(LineText(line)) == g.measure(LineText(line))
  {
    assert forall c :: c in LineText(line) ==> c in line;
    g.SingleLineWidth(LineText(line));
  }

  /** One pass of the loop of draw_paragraph: the fillText call for line i,
      then the lines after it a font height lower. */
  lemma ParagraphStep(g: Surface, lines: seq<string>, i: nat, x: real, y: real, w: real,
                      color: Option<Color>, center: bool, listChar: string, listIndent: real, text: string, tx: real)
    requires i < |lines|
    requires text == LineText(lines[i]) && tx == LineX(g, lines[i], x, w, center, listChar, listIndent)
    ensures ParagraphDrawing(g, lines, i, x, y, w, color, center, listChar, listIndent)
            == (if color.Some? then [DrawText(g, tx, y, text, color.value)] else [])
               + ParagraphDrawing(g, lines, i + 1, x, y + g.fontHeight, w, color, center, listChar, listIndent)
  {
  }

  /** The body of the loop of draw_paragraph for one line: drop a leading tab
      (which centres the line), centre with Math.floor of half the room left,
      and indent a line that does not start with the list character by
      listIndent. */
  method PlaceLine(g: Surface, line: string, x: real, w: real, center: bool, listChar: string, listIndent: real)
    returns (text: string, tx: real)
    requires '\n' !in line
    ensures text == LineText(line) && tx == LineX(g, line, x, w, center, listChar, listIndent)
  {
    text := line;
    tx := x;
    var centerLine := center;
    if |text| > 0 && text[0] == '\t' {
      centerLine := true;
      text := text[1..];
    }
    if centerLine {
      var size := g.MeasureText(text);
      LineWidth(g, line);
      tx := tx + ((w - size.width) / 2.0).Floor as real;
    }
    if |listChar| > 0 && !(listChar <= text) {
      tx := tx + listIndent;
    }
  }

  /** draw_paragraph(msg, x, y, w, color, center, list_char): wrap msg to the
      width w, then draw each line a font height below the one before; it
      returns a box as wide as w and a font height per line tall. */
  method DrawParagraph(g: Surface, msg: string, x: real, y: real, w: real,
                       color: Option<Color>, center: bool, listChar: string)
    returns (fills: seq<Fill>, box: Box)
    requires CharsFit(g.WidthOf(), msg, w)
    ensures fills == ParagraphDrawing(g, Split(g.WidthOf(), msg, w), 0, x, y, w, color, center, listChar, ListWidth(g, listChar))
    ensures box == Box(w, Times(|Split(g.WidthOf(), msg, w)| as real, g.fontHeight))
  {
    var lines := SplitText(g, msg, w);
    var lineH := g.fontHeight;
    var listIndent := 0.0;
    if |listChar| != 0 {
      var size := g.MeasureText(listChar);
      listIndent := size.width;
    }
    SplitNoNewlines(g.WidthOf(), msg, w);
    fills := DrawLines(g, lines, x, y, w, color, center, listChar, listIndent);
    box := Box(w, Times(|lines| as real, lineH));
  }

  /** The loop of draw_paragraph over the lines split_text made. */
  method DrawLines(g: Surface, lines: seq<string>, x: real, y: real, w: real,
                   color: Option<Color>, center: bool, listChar: string, listIndent: real)
    returns (fills: seq<Fill>)
    requires forall i :: 0 <= i < |lines| ==> '\n' !in lines[i]
    ensures fills == ParagraphDrawing(g, lines, 0, x, y, w, color, center, listChar, listIndent)
  {
    fills := [];
    var ty := y;
    ghost var todo := ParagraphDrawing(g, lines, 0, x, y, w, color, center, listChar, listIndent);
    for i := 0 to |lines|
      invariant todo == ParagraphDrawing(g, lines, i, x, ty, w, color, center, listChar, listIndent)
      invariant fills + todo == ParagraphDrawing(g, lines, 0, x, y, w, color, center, listChar, listIndent)
    {
      var line, tx := PlaceLine(g, lines[i], x, w, center, listChar, listIndent);
      ParagraphStep(g, lines, i, x, ty, w, color, center, listChar, listIndent, line, tx);
      var drawn := if color.Some? then [DrawText(g, tx, ty, line, color.value)] else [];
      ty := ty + g.fontHeight;
      ghost var rest := ParagraphDrawing(g, lines, i + 1, x, ty, w, color, center, listChar, listIndent);
      MoveDrawn(fills, drawn, todo, rest, ParagraphDrawing(g, lines, 0, x, y, w, color, center, listChar, listIndent));
      todo := rest;
      fills := fills + drawn;
    }
  }

  /** Drawing the head of what is left to draw keeps the calls made and the
      calls left together the whole drawing. */
  lemma MoveDrawn(made: seq<Fill>, head: seq<Fill>, left: seq<Fill>, rest: seq<Fill>, all: seq<Fill>)
    requires made + left == all && left == head + rest
    ensures (made + head) + rest == all
  {
  }

  /** Every line break of msg starts a new line of the paragraph, so the box is
      at least a font height per newline tall. */
  lemma ParagraphHeight(g: Surface, msg: string, w: real)
    requires CharsFit(g.WidthOf(), msg, w) && g.fontHeight >= 0.0
    ensures Times(CountNewlines(msg) as real, g.fontHeight) <= Times(|Split(g.WidthOf(), msg, w)| as real, g.fontHeight)
  {
    SplitCountsNewlines(g.WidthOf(), msg, w, 0);
    assert msg[0..] == msg;
    TimesMonotone(CountNewlines(msg) as real, |Split(g.WidthOf(), msg, w)| as real, g.fontHeight);
  }

  lemma TimesMonotone(a: real, b: real, c: real)
    requires a <= b && c >= 0.0
    ensures Times(a, c) <= Times(b, c)
  {
    assert Times(b, c) - Times(a, c) == Times(b - a, c);
    assert Times(b - a, c) >= 0.0;
  }

  /** The top draw_vcentered_paragraph gives the paragraph in a box of height h
      at y: half the room left beside the measured height of msg. */
  function VCenterY(g: Surface, msg: string, y: real, h: real): real {
    y + (h - g.TextSize(msg).height) / 2.0
  }

  /** The measured height counts one line per newline plus one, not the lines
      that wrapping adds. So the paragraph sits centred in the box, with equal
      room above and below, when wrapping adds no line. */
  lemma VCenterMargins(g: Surface, msg: string, y: real, h: real, w: real)
    requires CharsFit(g.WidthOf(), msg, w)
    ensures VCenterY(g, msg, y, h) == y + (h - Times(g.fontHeight, (CountNewlines(msg) + 1) as real)) / 2.0
    ensures var top := VCenterY(g, msg, y, h);
            var height := Times(|Split(g.WidthOf(), msg, w)| as real, g.fontHeight);
            |Split(g.WidthOf(), msg, w)| == CountNewlines(msg) + 1 ==> top - y == (y + h) - (top + height)
  {
    g.TextSizeShape(msg);
    var n := (CountNewlines(msg) + 1) as real;
    TimesSwap(g.fontHeight, n);
    CenterMargins(y, h, Times(n, g.fontHeight));
  }

  lemma TimesSwap(a: real, b: real)
    ensures Times(a, b) == Times(b, a)
  {
  }

  /** Moving down by half the room left beside a height leaves equal room
      above and below. */
  lemma CenterMargins(y: real, h: real, height: real)
    ensures var top := y + (h - height) / 2.0; top - y == (y + h) - (top + height)
  {
  }

  /** draw_vcentered_paragraph(msg, x, y, w, h, color, center, list_char):
      draw_paragraph with its top moved down by half the room left beside the
      measured height of msg. */
  method DrawVCenteredParagraph(g: Surface, msg: string, x: real, y: real, w: real, h: real,
                                color: Option<Color>, center: bool, listChar: string)
    returns (fills: seq<Fill>, box: Box)
    requires CharsFit(g.WidthOf(), msg, w)
    ensures fills == ParagraphDrawing(g, Split(g.WidthOf(), msg, w), 0, x, VCenterY(g, msg, y, h), w, color, center, listChar, ListWidth(g, listChar))
    ensures box == Box(w, Times(|Split(g.WidthOf(), msg, w)| as real, g.fontHeight))
  {
    var size := g.MeasureText(msg);
    var top := y + (h - size.height) / 2.0;
    assert top == VCenterY(g, msg, y, h);
    fills, box := DrawParagraph(g, msg, x, top, w, color, center, listChar);
  }
}
