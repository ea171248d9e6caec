/** Graphics.end_word and Graphics.split_text of gfx.js: the greedy word wrapper.
    A line takes words while the text from the line start to the end of the next
    word measures less than the width; a '\n' always ends a line; a first word
    that does not fit by itself is cut one character at a time until it fits. */
module TextWrap {
  import opened TextMeasure

  /** The first position from p on that is not a space (or p itself past the end). */
  function SkipSpaces(text: string, p: nat): (q: nat)
    ensures p <= q && (p <= |text| ==> q <= |text|)
    ensures q < |text| ==> text[q] != ' '
    ensures forall i :: p <= i < q ==> i < |text| && text[i] == ' '
    decreases |text| - p
  {
    if p < |text| && text[p] == ' ' then SkipSpaces(text, p + 1) else p
  }

  /** The first position from p on that holds a space or a newline. */
  function SkipWord(text: string, p: nat): (q: nat)
    ensures p <= q && (p <= |text| ==> q <= |text|)
    ensures q < |text| ==> text[q] == ' ' || text[q] == '\n'
    ensures forall i :: p <= i < q ==> i < |text| && text[i] != ' ' && text[i] != '\n'
    decreases |text| - p
  {
    if p < |text| && text[p] != ' ' && text[p] != '\n' then SkipWord(text, p + 1) else p
  }

  /** end_word(text, p): past the spaces at p, then past one word. The result
      stops at the end of the text, a space or a newline; no newline is crossed;
      and it moves forward unless p is at a newline or past the end. */
  function WordEnd(text: string, p: nat): (q: nat)
    ensures p <= q && (p <= |text| ==> q <= |text|)
    ensures q < |text| ==> text[q] == ' ' || text[q] == '\n'
    ensures forall i :: p <= i < q ==> i < |text| && text[i] != '\n'
    ensures p < |text| && text[p] != '\n' ==> q > p
    ensures p >= |text| ==> q == p
  {
    SkipWord(text, SkipSpaces(text, p))
  }

  /** The loop that steps p past spaces, in end_word and in split_text. */
  method SkipBlanks(text: string, p: nat) returns (q: nat)
    ensures q == SkipSpaces(text, p)
  {
    q := p;
    while q < |text| && text[q] == ' '
      invariant p <= q && (p <= |text| ==> q <= |text|)
      invariant SkipSpaces(text, q) == SkipSpaces(text, p)
      decreases |text| - q
    {
      q := q + 1;
    }
  }

  /** end_word as gfx.js writes it: a loop past the spaces, then one past the
      word. */
  method EndWord(text: string, p: nat) returns (q: nat)
    ensures q == WordEnd(text, p)
  {
    q := SkipBlanks(text, p);
    ghost var s := q;
    while q < |text| && text[q] != ' ' && text[q] != '\n'
      invariant s <= q && (s <= |text| ==> q <= |text|)
      invariant SkipWord(text, q) == SkipWord(text, s)
      decreases |text| - q
    {
      q := q + 1;
    }
  }

  /** The text s, as a line, measures less than the width. The wrapper is
      stated for any width measure widthOf; split_text uses the width
      measure_text reports. */
  predicate Fits(widthOf: string -> real, width: real, s: string) {
    widthOf(s) < width
  }

  /** The cutting loop of split_text: from e, step back one character while the
      part from line to e is still too wide. It stops at the longest prefix
      within e that fits, or at line itself when none does. */
  function Shrink(widthOf: string -> real, text: string, width: real, line: nat, e: nat): (r: nat)
    requires line <= e <= |text|
    ensures line <= r <= e
    ensures r == line || Fits(widthOf, width, text[line..r])
    ensures forall k :: r < k <= e ==> !Fits(widthOf, width, text[line..k])
    decreases e
  {
    if e > line && !Fits(widthOf, width, text[line..e]) then Shrink(widthOf, text, width, line, e - 1) else e
  }

  /** How the inner loop of split_text ends: at the end of the text, with the
      last line if it is not empty, or with a line break that emits piece and
      continues from next. */
  datatype LineEnd = Last(tail: seq<string>) | Break(piece: string, next: nat)

  /** The inner loop of split_text for the line starting at line, which has
      taken the text up to endLine so far. */
  function Grow(widthOf: string -> real, text: string, width: real, line: nat, endLine: nat): (r: LineEnd)
    requires line <= endLine <= |text|
    ensures r.Break? ==> endLine <= r.next <= |text|
    decreases |text| - endLine
  {
    if endLine >= |text| then Last(if endLine > line then [text[line..endLine]] else [])
    else if text[endLine] == '\n' then Break(text[line..endLine], endLine + 1)
    else
      var e := WordEnd(text, endLine);
      if !Fits(widthOf, width, text[line..e]) then
        if endLine == line then
          var cut := Shrink(widthOf, text, width, line, e);
          Break(text[line..cut], cut)
        else Break(text[line..endLine], endLine)
      else Grow(widthOf, text, width, line, e)
  }

  /** Every character that can start a line alone (anything but a space or a
      newline) measures less than the width. Without this split_text can stall. */
  predicate CharsFit(widthOf: string -> real, text: string, width: real) {
    forall i :: 0 <= i < |text| && text[i] != ' ' && text[i] != '\n' ==> widthOf([text[i]]) < width
  }

  /** split_text from position line on: skip the spaces, run the inner loop, and
      go on after the break. */
  function SplitFrom(widthOf: string -> real, text: string, width: real, line: nat): seq<string>
    requires CharsFit(widthOf, text, width) && line <= |text|
    decreases |text| - line
  {
    var start := SkipSpaces(text, line);
    match Grow(widthOf, text, width, start, start)
    case Last(tail) => tail
    case Break(piece, next) =>
      Progress(widthOf, text, width, start);
      [piece] + SplitFrom(widthOf, text, width, next)
  }

  /** split_text(text, width). */
  function Split(widthOf: string -> real, text: string, width: real): seq<string>
    requires CharsFit(widthOf, text, width)
  {
    SplitFrom(widthOf, text, width, 0)
  }

  /** A line that starts at a character other than a space breaks strictly
      after it: a newline is consumed, and a word that must be cut keeps at
      least its first character, which fits. */
  lemma Progress(widthOf: string -> real, text: string, width: real, line: nat)
    requires CharsFit(widthOf, text, width) && line < |text| && text[line] != ' '
    ensures var r := Grow(widthOf, text, width, line, line); r.Break? ==> r.next > line
  {
    if text[line] != '\n' {
      var e := WordEnd(text, line);
      if !Fits(widthOf, width, text[line..e]) {
        OneCharFits(widthOf, text, width, line);
      }
    }
  }

  /** A character other than a space or a newline fits on a line by itself. */
  lemma OneCharFits(widthOf: string -> real, text: string, width: real, i: nat)
    requires CharsFit(widthOf, text, width) && i < |text| && text[i] != ' ' && text[i] != '\n'
    ensures Fits(widthOf, width, text[i..i + 1])
  {
    assert text[i..i + 1] == [text[i]];
  }

  /** Without CharsFit the loop can stall: a lone character wider than the
      width is cut down to nothing, an empty line is emitted and the next line
      starts where this one did, so split_text would emit "" forever. */
  lemma Stall(widthOf: string -> real, c: char, width: real)
    requires c != ' ' && c != '\n' && widthOf([c]) >= width
    ensures Grow(widthOf, [c], width, 0, 0) == Break([], 0)
  {
    var text := [c];
    assert WordEnd(text, 0) == 1 by {
      assert SkipSpaces(text, 0) == 0;
      assert SkipWord(text, 1) == 1;
    }
    assert text[0..1] == [c];
    assert Shrink(widthOf, text, width, 0, 1) == 0;
  }

  /** The loop of split_text that cuts a first word which is too wide by
      itself: step back from e one character at a time, measuring with
      measure_text, until the part from line fits or nothing is left. */
  method CutWord(g: Surface, text: string, width: real, line: nat, e: nat) returns (cut: nat)
    requires line <= e <= |text|
    ensures cut == Shrink(g.WidthOf(), text, width, line, e)
  {
    cut := e;
    while true
      invariant line <= cut <= e
      invariant Shrink(g.WidthOf(), text, width, line, cut) == Shrink(g.WidthOf(), text, width, line, e)
      decreases cut
    {
      if cut <= line {
        break;
      }
      var size := g.MeasureText(text[line..cut]);
      if size.width < width {
        break;
      }
      cut := cut - 1;
    }
  }

  /** The inner loop of split_text for the line starting at line: take words
      while the text up to the end of the next word fits; stop at a newline,
      at a word that does not fit, or at the end of the text. */
  method GrowLine(g: Surface, text: string, width: real, line: nat) returns (r: LineEnd)
    requires line <= |text|
    ensures r == Grow(g.WidthOf(), text, width, line, line)
  {
    var endLine := line;
    while true
      invariant line <= endLine <= |text|
      invariant Grow(g.WidthOf(), text, width, line, endLine) == Grow(g.WidthOf(), text, width, line, line)
      decreases |text| - endLine
    {
      if endLine >= |text| {
        return Last(if endLine > line then [text[line..endLine]] else []);
      }
      var newline := text[endLine] == '\n';
      var e := endLine;
      var tooWide := newline;
      if !newline {
        e := EndWord(text, endLine);
        var size := g.MeasureText(text[line..e]);
        tooWide := size.width >= width;
      }
      if tooWide {
        if newline {
          return Break(text[line..endLine], endLine + 1);
        }
        if endLine == line {
          endLine := CutWord(g, text, width, line, e);
        }
        return Break(text[line..endLine], endLine);
      }
      endLine := e;
    }
  }

  /** split_text as gfx.js writes it: an outer loop over lines that emits
      each line NextLine finds, until the last. */
  method SplitText(g: Surface, text: string, width: real) returns (lines: seq<string>)
    requires CharsFit(g.WidthOf(), text, width)
    ensures lines == Split(g.WidthOf(), text, width)
  {
    lines := [];
    var line: nat := 0;
    while true
      invariant line <= |text|
      invariant lines + SplitFrom(g.WidthOf(), text, width, line) == Split(g.WidthOf(), text, width)
      decreases |text| - line
    {
      var r := NextLine(g, text, width, line);
      match r
      case Last(tail) =>
        lines := lines + tail;
        return;
      case Break(piece, next) =>
        lines := lines + [piece];
        line := next;
    }
  }

  /** One pass of the outer loop of split_text: skip the spaces at line, then
      run the inner loop. Its break emits a line and moves on; the end of the
      text emits what is left. */
  method NextLine(g: Surface, text: string, width: real, line: nat) returns (r: LineEnd)
    requires CharsFit(g.WidthOf(), text, width) && line <= |text|
    ensures r.Last? ==> SplitFrom(g.WidthOf(), text, width, line) == r.tail
    ensures r.Break? ==> && line < r.next <= |text|
                         && SplitFrom(g.WidthOf(), text, width, line) == [r.piece] + SplitFrom(g.WidthOf(), text, width, r.next)
  {
    var start := SkipBlanks(text, line);
    r := GrowLine(g, text, width, start);
    match r
    case Last(tail) =>
      SplitFromLast(g.WidthOf(), text, width, line, tail);
    case Break(piece, next) =>
      SplitFromBreak(g.WidthOf(), text, width, line, piece, next);
  }

  /** One step of split_text: a break of the line after the spaces at from
      emits its piece and goes on after it. */
  lemma SplitFromBreak(widthOf: string -> real, text: string, width: real, from: nat, piece: string, next: nat)
    requires CharsFit(widthOf, text, width) && from <= |text|
    requires var start := SkipSpaces(text, from); Grow(widthOf, text, width, start, start) == Break(piece, next)
    ensures from < next <= |text|
    ensures SplitFrom(widthOf, text, width, from) == [piece] + SplitFrom(widthOf, text, width, next)
  {
    Progress(widthOf, text, width, SkipSpaces(text, from));
  }

  /** The shape of every line split_text emits: no newline inside, and a
      non-empty line measures less than the width and does not start with a
      space. */
  predicate GoodLine(widthOf: string -> real, width: real, s: string) {
    && '\n' !in s
    && (s != [] ==> Fits(widthOf, width, s) && s[0] != ' ')
  }

  /** The concatenation of the lines. */
  function Concat(ss: seq<string>): string {
    if ss == [] then [] else ss[0] + Concat(ss[1..])
  }

  /** The characters other than spaces and newlines, in order. */
  function Strip(s: string): (r: string)
    ensures |r| <= |s|
  {
    if s == [] then []
    else if s[0] == ' ' || s[0] == '\n' then Strip(s[1..])
    else [s[0]] + Strip(s[1..])
  }

  /** A piece the inner loop breaks off at next is the text from line on,
      holds no newline, and is followed by nothing or by the one newline that
      caused the break. */
  predicate BreakSpan(text: string, line: nat, piece: string, next: nat)
    requires line <= |text|
  {
    && line + |piece| <= next <= |text|
    && piece == text[line..line + |piece|]
    && '\n' !in piece
    && (next == line + |piece| || (next == line + |piece| + 1 && text[next - 1] == '\n'))
  }

  /** What the inner loop leaves at the end of the text: the rest of the text
      from line on, without a newline, or nothing when the rest is empty. */
  predicate LastSpan(text: string, line: nat, tail: seq<string>)
    requires line <= |text|
  {
    && (line == |text| ==> tail == [])
    && (line < |text| ==> tail == [text[line..]] && '\n' !in text[line..])
  }

  /** A break is a good line; unless a newline caused it, the line would have
      become too wide with the next word, or with the next character of a word
      that was cut. */
  predicate BreakShape(widthOf: string -> real, text: string, width: real, line: nat, piece: string, next: nat)
    requires line <= |text|
  {
    && BreakSpan(text, line, piece, next)
    && GoodLine(widthOf, width, piece)
    && (|| next == line + |piece| + 1
        || (&& next < |text| && text[next] != '\n'
            && (!Fits(widthOf, width, text[line..WordEnd(text, next)]) || !Fits(widthOf, width, text[line..next + 1]))))
  }

  /** The last line is a good line. */
  predicate LastShape(widthOf: string -> real, text: string, width: real, line: nat, tail: seq<string>)
    requires line <= |text|
  {
    && LastSpan(text, line, tail)
    && forall i :: 0 <= i < |tail| ==> GoodLine(widthOf, width, tail[i])
  }

  /** The inner loop, run on a line that starts at a character other than a
      space and has so far taken text that fits and holds no newline, ends in a
      good last line or a good break. */
  lemma {:induction false} GrowShape(widthOf: string -> real, text: string, width: real, line: nat, endLine: nat)
    requires line <= endLine <= |text|
    requires line < |text| ==> text[line] != ' '
    requires endLine == line || Fits(widthOf, width, text[line..endLine])
    requires forall i :: line <= i < endLine ==> text[i] != '\n'
    ensures match Grow(widthOf, text, width, line, endLine)
            case Last(tail) => LastShape(widthOf, text, width, line, tail)
            case Break(piece, next) => BreakShape(widthOf, text, width, line, piece, next)
    decreases |text| - endLine
  {
    NoNewlineIn(text, line, endLine);
    if endLine >= |text| {
      if line < |text| {
        assert text[line..endLine] == text[line..];
      }
    } else if text[endLine] == '\n' {
      assert BreakShape(widthOf, text, width, line, text[line..endLine], endLine + 1);
    } else {
      var e := WordEnd(text, endLine);
      NoNewlineIn(text, line, e);
      if !Fits(widthOf, width, text[line..e]) {
        if endLine == line {
          var cut := Shrink(widthOf, text, width, line, e);
          NoNewlineIn(text, line, cut);
          assert cut < e;
          assert text[cut] != '\n';
          assert !Fits(widthOf, width, text[line..cut + 1]);
          assert BreakShape(widthOf, text, width, line, text[line..cut], cut);
        } else {
          assert BreakShape(widthOf, text, width, line, text[line..endLine], endLine);
        }
      } else {
        GrowShape(widthOf, text, width, line, e);
      }
    }
  }

  /** The span of the line that starts after some spaces. */
  lemma GrowSpan(widthOf: string -> real, text: string, width: real, start: nat)
    requires start <= |text| && (start < |text| ==> text[start] != ' ')
    ensures match Grow(widthOf, text, width, start, start)
            case Last(tail) => LastSpan(text, start, tail)
            case Break(piece, next) => BreakSpan(text, start, piece, next)
  {
    GrowShape(widthOf, text, width, start, start);
  }

  /** No index in [a, b) holds a newline, so the slice has none. */
  lemma NoNewlineIn(text: string, a: nat, b: nat)
    requires a <= b <= |text|
    requires forall i :: a <= i < b ==> text[i] != '\n'
    ensures '\n' !in text[a..b]
  {
  }

  /** Every line split_text emits is a good line. */
  lemma {:induction false} SplitLinesGood(widthOf: string -> real, text: string, width: real, line: nat)
    requires CharsFit(widthOf, text, width) && line <= |text|
    ensures forall i :: 0 <= i < |SplitFrom(widthOf, text, width, line)| ==> GoodLine(widthOf, width, SplitFrom(widthOf, text, width, line)[i])
    decreases |text| - line
  {
    var start := SkipSpaces(text, line);
    GrowShape(widthOf, text, width, start, start);
    match Grow(widthOf, text, width, start, start)
    case Last(tail) =>
    case Break(piece, next) =>
      Progress(widthOf, text, width, start);
      SplitLinesGood(widthOf, text, width, next);
      var rest := SplitFrom(widthOf, text, width, next);
      assert SplitFrom(widthOf, text, width, line) == [piece] + rest;
  }

  /** No line split_text emits holds a newline. */
  lemma SplitNoNewlines(widthOf: string -> real, text: string, width: real)
    requires CharsFit(widthOf, text, width)
    ensures forall i :: 0 <= i < |Split(widthOf, text, width)| ==> '\n' !in Split(widthOf, text, width)[i]
  {
    SplitLinesGood(widthOf, text, width, 0);
  }

  /** split_text loses and invents nothing: apart from spaces and newlines the
      lines hold exactly the characters of the text, in order. */
  lemma {:induction false} SplitKeepsContent(widthOf: string -> real, text: string, width: real, line: nat)
    requires CharsFit(widthOf, text, width) && line <= |text|
    ensures Strip(Concat(SplitFrom(widthOf, text, width, line))) == Strip(text[line..])
    decreases |text| - line
  {
    var start := SkipSpaces(text, line);
    GrowSpan(widthOf, text, width, start);
    StripSpaces(text, line, start);
    match Grow(widthOf, text, width, start, start)
    case Last(tail) =>
      SplitFromLast(widthOf, text, width, line, tail);
      KeepLast(text, start, tail);
    case Break(piece, next) =>
      SplitFromBreak(widthOf, text, width, line, piece, next);
      SplitKeepsContent(widthOf, text, width, next);
      KeepBreak(text, start, piece, next, SplitFrom(widthOf, text, width, next));
  }

  /** The last line keeps what is left of the text. */
  lemma KeepLast(text: string, start: nat, tail: seq<string>)
    requires start <= |text| && LastSpan(text, start, tail)
    ensures Strip(Concat(tail)) == Strip(text[start..])
  {
    if start < |text| {
      assert tail[1..] == [];
      assert Concat(tail) == text[start..] + [] == text[start..];
    } else {
      assert text[start..] == [];
    }
  }

  /** A broken-off piece followed by lines that keep the text after the break
      keeps the text from the piece on. */
  lemma KeepBreak(text: string, start: nat, piece: string, next: nat, rest: seq<string>)
    requires start <= |text| && BreakSpan(text, start, piece, next)
    requires Strip(Concat(rest)) == Strip(text[next..])
    ensures Strip(Concat([piece] + rest)) == Strip(text[start..])
  {
    assert ([piece] + rest)[1..] == rest;
    assert Concat([piece] + rest) == piece + Concat(rest);
    StripAppend(piece, Concat(rest));
    GapStrip(text, start, piece, next);
  }

  /** The end of split_text: when the line after the spaces at from runs to the
      end of the text, its tail is all that is left to emit. */
  lemma SplitFromLast(widthOf: string -> real, text: string, width: real, from: nat, tail: seq<string>)
    requires CharsFit(widthOf, text, width) && from <= |text|
    requires var start := SkipSpaces(text, from); Grow(widthOf, text, width, start, start) == Last(tail)
    ensures SplitFrom(widthOf, text, width, from) == tail
  {
  }

  /** Between a broken-off piece and the next line there is nothing, or the one
      newline that caused the break. */
  lemma GapAfter(text: string, start: nat, piece: string, next: nat)
    requires start + |piece| <= next <= |text|
    requires piece == text[start..start + |piece|]
    requires next == start + |piece| || (next == start + |piece| + 1 && text[next - 1] == '\n')
    ensures text[start..] == piece + (text[start + |piece|..next] + text[next..])
    ensures text[start + |piece|..next] == [] || text[start + |piece|..next] == "\n"
  {
  }

  /** Strip keeps nothing of the gap after a piece. */
  lemma GapStrip(text: string, start: nat, piece: string, next: nat)
    requires start + |piece| <= next <= |text|
    requires piece == text[start..start + |piece|]
    requires next == start + |piece| || (next == start + |piece| + 1 && text[next - 1] == '\n')
    ensures Strip(text[start..]) == Strip(piece) + Strip(text[next..])
  {
    GapAfter(text, start, piece, next);
    var gap := text[start + |piece|..next];
    assert Strip(gap) == [] by {
      if gap != [] {
        assert gap[1..] == [];
      }
    }
    StripAppend(gap, text[next..]);
    StripAppend(piece, gap + text[next..]);
    assert Strip(gap) + Strip(text[next..]) == Strip(text[next..]);
  }

  /** The gap after a piece holds the one newline that caused the break, if any. */
  lemma GapNewlines(text: string, start: nat, piece: string, next: nat)
    requires start + |piece| <= next <= |text|
    requires piece == text[start..start + |piece|]
    requires next == start + |piece| || (next == start + |piece| + 1 && text[next - 1] == '\n')
    ensures CountNewlines(text[start..]) == CountNewlines(piece) + (next - start - |piece|) + CountNewlines(text[next..])
  {
    GapAfter(text, start, piece, next);
    var gap := text[start + |piece|..next];
    NewlinesAppend(gap, text[next..]);
    NewlinesAppend(piece, gap + text[next..]);
  }

  /** Strip distributes over concatenation. */
  lemma {:induction false} StripAppend(a: string, b: string)
    ensures Strip(a + b) == Strip(a) + Strip(b)
  {
    if a != [] {
      assert (a + b)[1..] == a[1..] + b;
      StripAppend(a[1..], b);
    } else {
      assert a + b == b;
    }
  }

  /** Skipping spaces does not change what Strip keeps. */
  lemma {:induction false} StripSpaces(text: string, p: nat, q: nat)
    requires p <= q <= |text|
    requires forall i :: p <= i < q ==> text[i] == ' '
    ensures Strip(text[p..]) == Strip(text[q..])
    decreases q - p
  {
    if p < q {
      assert text[p..][1..] == text[p + 1..];
      StripSpaces(text, p + 1, q);
    }
  }

  /** How lines lie in the text from p on. Each line comes after a run of
      spaces, is the text that follows, and holds no newline. After it comes
      either the newline that ended it, which is skipped, or a character other
      than a newline, where the next line's spaces begin. Only the last line
      may run to the end of the text, and after the lines only spaces are left. */
  predicate Tiles(text: string, p: nat, lines: seq<string>)
    requires p <= |text|
    decreases |lines|
  {
    var s := SkipSpaces(text, p);
    if lines == [] then s == |text|
    else
      var e := s + |lines[0]|;
      && e <= |text|
      && lines[0] == text[s..e]
      && '\n' !in lines[0]
      && if e == |text| then |lines| == 1
         else if text[e] == '\n' then Tiles(text, e + 1, lines[1..])
         else Tiles(text, e, lines[1..])
  }

  /** The lines split_text emits tile the text: every newline of the text is
      the end of a line, and nothing but spaces lies between the lines. */
  lemma {:induction false} SplitTiles(widthOf: string -> real, text: string, width: real, line: nat)
    requires CharsFit(widthOf, text, width) && line <= |text|
    ensures Tiles(text, line, SplitFrom(widthOf, text, width, line))
    decreases |text| - line
  {
    var start := SkipSpaces(text, line);
    GrowGap(widthOf, text, width, start);
    match Grow(widthOf, text, width, start, start)
    case Last(tail) =>
      SplitFromLast(widthOf, text, width, line, tail);
      TileLast(text, line, tail);
    case Break(piece, next) =>
      SplitFromBreak(widthOf, text, width, line, piece, next);
      SplitTiles(widthOf, text, width, next);
      TileBreak(text, line, piece, next, SplitFrom(widthOf, text, width, next));
  }

  /** The span of a line, and what follows a break: the newline that caused
      it, or a character other than a newline. */
  lemma GrowGap(widthOf: string -> real, text: string, width: real, start: nat)
    requires start <= |text| && (start < |text| ==> text[start] != ' ')
    ensures match Grow(widthOf, text, width, start, start)
            case Last(tail) => LastSpan(text, start, tail)
            case Break(piece, next) =>
              && BreakSpan(text, start, piece, next)
              && (next == start + |piece| + 1 || (next < |text| && text[next] != '\n'))
  {
    GrowShape(widthOf, text, width, start, start);
  }

  /** The last line after the spaces at line tiles the rest of the text. */
  lemma TileLast(text: string, line: nat, tail: seq<string>)
    requires line <= |text| && LastSpan(text, SkipSpaces(text, line), tail)
    ensures Tiles(text, line, tail)
  {
  }

  /** A broken-off piece after the spaces at line, followed by lines that tile
      the text after the break, tiles the text from line on. */
  lemma TileBreak(text: string, line: nat, piece: string, next: nat, rest: seq<string>)
    requires line <= |text|
    requires BreakSpan(text, SkipSpaces(text, line), piece, next)
    requires next == SkipSpaces(text, line) + |piece| + 1 || (next < |text| && text[next] != '\n')
    requires Tiles(text, next, rest)
    ensures Tiles(text, line, [piece] + rest)
  {
    assert ([piece] + rest)[1..] == rest;
  }

  /** A newline that comes right after the spaces at p, as the second of two
      newlines in a row does, makes an empty line. */
  lemma BlankLine(text: string, p: nat, lines: seq<string>)
    requires p <= |text| && Tiles(text, p, lines)
    requires SkipSpaces(text, p) < |text| && text[SkipSpaces(text, p)] == '\n'
    ensures lines != [] && lines[0] == []
  {
  }

  /** Two newlines in a row anywhere from p on make an empty line among the
      lines that tile the text. */
  lemma {:induction false} DoubleNewline(text: string, p: nat, lines: seq<string>, i: nat) returns (k: nat)
    requires p <= i && i + 1 < |text| && Tiles(text, p, lines)
    requires text[i] == '\n' && text[i + 1] == '\n'
    ensures k < |lines| && lines[k] == []
    decreases |lines|
  {
    var e := NewlineAfterLine(text, p, lines, i);
    if text[e] == '\n' && i == e {
      BlankLine(text, e + 1, lines[1..]);
      k := 1;
    } else {
      var after := if text[e] == '\n' then e + 1 else e;
      var j := DoubleNewline(text, after, lines[1..], i);
      k := j + 1;
    }
  }

  /** A newline at i from p on lies at or after the end e of the first line,
      and the lines after the first tile the text after its gap. */
  lemma NewlineAfterLine(text: string, p: nat, lines: seq<string>, i: nat) returns (e: nat)
    requires p <= i < |text| && Tiles(text, p, lines) && text[i] == '\n'
    ensures lines != [] && e == SkipSpaces(text, p) + |lines[0]| && e <= i
    ensures text[e] == '\n' ==> Tiles(text, e + 1, lines[1..])
    ensures text[e] != '\n' ==> Tiles(text, e, lines[1..])
  {
    e := SkipSpaces(text, p) + |lines[0]|;
  }

  /** So split_text emits an empty line for every two newlines in a row. */
  lemma SplitBlankLine(widthOf: string -> real, text: string, width: real, i: nat)
    requires CharsFit(widthOf, text, width)
    requires i + 1 < |text| && text[i] == '\n' && text[i + 1] == '\n'
    ensures [] in Split(widthOf, text, width)
  {
    SplitTiles(widthOf, text, width, 0);
    var k := DoubleNewline(text, 0, Split(widthOf, text, width), i);
  }

  /** Every newline of the text ends one of the lines split_text emits, so there
      are at least as many lines as newlines. */
  lemma {:induction false} SplitCountsNewlines(widthOf: string -> real, text: string, width: real, line: nat)
    requires CharsFit(widthOf, text, width) && line <= |text|
    ensures CountNewlines(text[line..]) <= |SplitFrom(widthOf, text, width, line)|
    decreases |text| - line
  {
    var start := SkipSpaces(text, line);
    GrowSpan(widthOf, text, width, start);
    NewlinesOfSpaces(text, line, start);
    match Grow(widthOf, text, width, start, start)
    case Last(tail) =>
      SplitFromLast(widthOf, text, width, line, tail);
      CountLast(text, start, tail);
    case Break(piece, next) =>
      SplitFromBreak(widthOf, text, width, line, piece, next);
      SplitCountsNewlines(widthOf, text, width, next);
      CountBreak(text, start, piece, next);
  }

  /** The last line holds no newline. */
  lemma CountLast(text: string, start: nat, tail: seq<string>)
    requires start <= |text| && LastSpan(text, start, tail)
    ensures CountNewlines(text[start..]) == 0
  {
    if start < |text| {
      NoNewlineCount(text[start..]);
    }
  }

  /** A broken-off piece and its gap hold at most the one newline that caused
      the break. */
  lemma CountBreak(text: string, start: nat, piece: string, next: nat)
    requires start <= |text| && BreakSpan(text, start, piece, next)
    ensures CountNewlines(text[start..]) <= 1 + CountNewlines(text[next..])
  {
    GapNewlines(text, start, piece, next);
    NoNewlineCount(piece);
  }

  lemma {:induction false} NewlinesAppend(a: string, b: string)
    ensures CountNewlines(a + b) == CountNewlines(a) + CountNewlines(b)
  {
    if a != [] {
      assert (a + b)[1..] == a[1..] + b;
      NewlinesAppend(a[1..], b);
    } else {
      assert a + b == b;
    }
  }

  /** A string without a newline character counts none. */
  lemma {:induction false} NoNewlineCount(s: string)
    requires '\n' !in s
    ensures CountNewlines(s) == 0
  {
    if s != [] {
      assert s[0] != '\n' && forall c :: c in s[1..] ==> c in s;
      NoNewlineCount(s[1..]);
    }
  }

  /** Skipped spaces hold no newline. */
  lemma {:induction false} NewlinesOfSpaces(text: string, p: nat, q: nat)
    requires p <= q <= |text|
    requires forall i :: p <= i < q ==> text[i] == ' '
    ensures CountNewlines(text[p..]) == CountNewlines(text[q..])
    decreases q - p
  {
    if p < q {
      assert text[p..][1..] == text[p + 1..];
      NewlinesOfSpaces(text, p + 1, q);
    }
  }

  /** A width measure that counts characters. */
  function Cells(): string -> real {
    (t: string) => |t| as real
  }

  /** Two newlines in a row give an empty line between the lines around them. */
  lemma BlankLineExample()
    ensures CharsFit(Cells(), "a\n\nb", 2.0)
    ensures Split(Cells(), "a\n\nb", 2.0) == ["a", "", "b"]
  {
    var m, t := Cells(), "a\n\nb";
    assert t[0..1] == "a" && t[3..4] == "b";
    assert WordEnd(t, 0) == 1 by {
      assert SkipSpaces(t, 0) == 0 && SkipWord(t, 1) == 1;
    }
    assert WordEnd(t, 3) == 4 by {
      assert SkipSpaces(t, 3) == 3 && SkipWord(t, 4) == 4;
    }
    assert Grow(m, t, 2.0, 0, 1) == Break("a", 2);
    assert Grow(m, t, 2.0, 0, 0) == Break("a", 2);
    assert Grow(m, t, 2.0, 2, 2) == Break("", 3);
    assert Grow(m, t, 2.0, 3, 4) == Last(["b"]);
    assert Grow(m, t, 2.0, 3, 3) == Last(["b"]);
    assert SplitFrom(m, t, 2.0, 3) == ["b"];
    assert SplitFrom(m, t, 2.0, 2) == [""] + ["b"];
    assert SplitFrom(m, t, 2.0, 0) == ["a"] + ["", "b"];
  }

  /** A word wider than the line is cut character by character. */
  lemma CutWordExample()
    ensures CharsFit(Cells(), "abc", 2.0)
    ensures Split(Cells(), "abc", 2.0) == ["a", "b", "c"]
  {
    var m, t := Cells(), "abc";
    CutWordLines();
    assert SplitFrom(m, t, 2.0, 2) == ["c"];
    assert SplitFrom(m, t, 2.0, 1) == ["b"] + ["c"];
    assert SplitFrom(m, t, 2.0, 0) == ["a"] + ["b", "c"];
  }

  /** The three inner-loop runs of CutWordExample. */
  lemma CutWordLines()
    ensures Grow(Cells(), "abc", 2.0, 0, 0) == Break("a", 1)
    ensures Grow(Cells(), "abc", 2.0, 1, 1) == Break("b", 2)
    ensures Grow(Cells(), "abc", 2.0, 2, 2) == Last(["c"])
  {
    var m, t := Cells(), "abc";
    CutWordEnds();
    assert t[0..1] == "a" && t[0..2] == "ab" && t[0..3] == "abc";
    assert t[1..2] == "b" && t[1..3] == "bc" && t[2..3] == "c";
    assert Shrink(m, t, 2.0, 0, 3) == 1;
    assert Shrink(m, t, 2.0, 1, 3) == 2;
    assert Grow(m, t, 2.0, 2, 3) == Last(["c"]);
  }

  /** Every word of "abc" ends at the end of the text. */
  lemma CutWordEnds()
    ensures WordEnd("abc", 0) == 3 && WordEnd("abc", 1) == 3 && WordEnd("abc", 2) == 3
  {
    var t := "abc";
    assert SkipWord(t, 3) == 3;
    assert SkipWord(t, 2) == 3;
    assert SkipWord(t, 1) == 3;
    assert SkipWord(t, 0) == 3;
    assert SkipSpaces(t, 0) == 0 && SkipSpaces(t, 1) == 1 && SkipSpaces(t, 2) == 2;
  }
}
