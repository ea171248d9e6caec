/** measure_text of the Graphics class in gfx.js. The canvas is reduced to what
    the text code reads from it: ctx.measureText(t).width, a deterministic
    non-negative width for a string, and the font height. */
module TextMeasure {
  import opened Util

  /** ctx.measureText(t).width: any deterministic width that is never negative. */
  type Measurer = f: string -> real | forall t :: f(t) >= 0.0 witness (t: string) => 0.0

  /** The { width, height } record measure_text returns. */
  datatype Size = Size(width: real, height: real)

  /** Number of '\n' characters in s. */
  function CountNewlines(s: string): nat {
    if s == [] then 0 else (if s[0] == '\n' then 1 else 0) + CountNewlines(s[1..])
  }

  /** s.split("\n"): the pieces between newlines, one more than there are newlines
      (the empty string splits into one empty piece). */
  function Segments(s: string): (r: seq<string>)
    ensures |r| >= 1
  {
    if s == [] then [[]]
    else
      var rest := Segments(s[1..]);
      if s[0] == '\n' then [[]] + rest
      else [[s[0]] + rest[0]] + rest[1..]
  }

  /** The pieces glued back together with "\n" between them. */
  function Join(segs: seq<string>): string
    requires |segs| >= 1
  {
    if |segs| == 1 then segs[0] else segs[0] + "\n" + Join(segs[1..])
  }

  /** There is one piece more than there are newlines, and no piece holds one. */
  lemma {:induction false} SegmentsShape(s: string)
    ensures |Segments(s)| == CountNewlines(s) + 1
    ensures forall i :: 0 <= i < |Segments(s)| ==> '\n' !in Segments(s)[i]
  {
    if s != [] {
      SegmentsShape(s[1..]);
      var rest := Segments(s[1..]);
      if s[0] != '\n' {
        assert forall c :: c in [s[0]] + rest[0] ==> c == s[0] || c in rest[0];
      }
    }
  }

  /** Splitting on "\n" loses nothing: joining the pieces gives the text back. */
  lemma {:induction false} SegmentsJoin(s: string)
    ensures Join(Segments(s)) == s
  {
    if s != [] {
      var rest := Segments(s[1..]);
      SegmentsJoin(s[1..]);
      if s[0] == '\n' {
        JoinNewline(rest);
      } else {
        JoinChar(s[0], rest);
      }
      assert [s[0]] + s[1..] == s;
    }
  }

  /** A newline in front starts an empty first piece. */
  lemma JoinNewline(rest: seq<string>)
    requires |rest| >= 1
    ensures Join([[]] + rest) == "\n" + Join(rest)
  {
    assert ([[]] + rest)[1..] == rest;
  }

  /** Another character in front joins the first piece. */
  lemma JoinChar(c: char, rest: seq<string>)
    requires |rest| >= 1
    ensures Join([[c] + rest[0]] + rest[1..]) == [c] + Join(rest)
  {
    var r := [[c] + rest[0]] + rest[1..];
    if |rest| > 1 {
      assert r[1..] == rest[1..];
      JoinFront([c], rest[0], Join(rest[1..]));
    }
  }

  /** Gluing a prefix onto the first piece, before the newline that follows it. */
  lemma JoinFront(a: string, first: string, tail: string)
    ensures (a + first) + "\n" + tail == a + (first + "\n" + tail)
  {
  }

  /** The running maximum measure_text keeps: it starts at 0 and takes each
      piece's width when that is larger. */
  function MaxWidth(measure: Measurer, segs: seq<string>): real
  {
    if segs == [] then 0.0
    else
      var m := MaxWidth(measure, segs[..|segs| - 1]);
      var w := measure(segs[|segs| - 1]);
      if w > m then w else m
  }

  /** The running maximum is the largest width: never negative, at least the
      width of every piece, and the width of one of them unless it is 0. */
  lemma {:induction false} MaxWidthBounds(measure: Measurer, segs: seq<string>)
    ensures MaxWidth(measure, segs) >= 0.0
    ensures forall i :: 0 <= i < |segs| ==> measure(segs[i]) <= MaxWidth(measure, segs)
    ensures MaxWidth(measure, segs) == 0.0 || exists i :: 0 <= i < |segs| && measure(segs[i]) == MaxWidth(measure, segs)
  {
    if segs != [] {
      var init := segs[..|segs| - 1];
      MaxWidthBounds(measure, init);
      assert forall i :: 0 <= i < |init| ==> init[i] == segs[i];
    }
  }

  datatype Surface = Surface(measure: Measurer, fontHeight: real) {

    /** What measure_text(text) returns: the widest "\n"-separated piece, and
        the font height times the number of pieces. */
    function TextSize(text: string): Size {
      var segs := Segments(text);
      Size(MaxWidth(measure, segs), Times(fontHeight, |segs| as real))
    }

    /** measure_text(text).width. */
    function Width(text: string): real {
      TextSize(text).width
    }

    /** measure_text(...).width as a function value. */
    function WidthOf(): string -> real {
      (t: string) => Width(t)
    }

    /** measure_text(text): one pass over the pieces keeping the widest width
        and the number of pieces seen. */
    method MeasureText(text: string) returns (r: Size)
      ensures r == TextSize(text)
    {
      var maxWidth := 0.0;
      var numLines := 0;
      var segs := Segments(text);
      for i := 0 to |segs|
        invariant maxWidth == MaxWidth(measure, segs[..i])
        invariant numLines == i
      {
        var w := measure(segs[i]);
        assert segs[..i + 1][..i] == segs[..i];
        if w > maxWidth {
          maxWidth := w;
        }
        numLines := numLines + 1;
      }
      assert segs[..|segs|] == segs;
      r := Size(maxWidth, Times(fontHeight, numLines as real));
    }

    /** The width is at least that of every line and is the width of one of them
        (or 0); the height counts the hard newlines, one line per newline plus one. */
    lemma TextSizeShape(text: string)
      ensures var size := TextSize(text);
              && size.width >= 0.0
              && (forall i :: 0 <= i < |Segments(text)| ==> measure(Segments(text)[i]) <= size.width)
              && (size.width == 0.0 || exists i :: 0 <= i < |Segments(text)| && measure(Segments(text)[i]) == size.width)
              && size.height == Times(fontHeight, (CountNewlines(text) + 1) as real)
    {
      SegmentsShape(text);
      MaxWidthBounds(measure, Segments(text));
    }

    /** On text without a newline measure_text's width is the canvas width. */
    lemma SingleLineWidth(text: string)
      requires '\n' !in text
      ensures Width(text) == measure(text)
    {
      NoNewlineSegments(text);
      MaxWidthBounds(measure, [text]);
      assert [text][..0] == [];
    }
  }

  /** Text without a newline splits into itself alone. */
  lemma {:induction false} NoNewlineSegments(s: string)
    requires '\n' !in s
    ensures Segments(s) == [s]
  {
    if s != [] {
      assert '\n' !in s[1..] by {
        assert forall c :: c in s[1..] ==> c in s;
      }
      NoNewlineSegments(s[1..]);
      assert [s[0]] + s[1..] == s;
    }
  }
}
