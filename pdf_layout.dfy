/** The pdfkit document as an abstract command log, and the log that
    `convertToPdf` in src/pdf.js issues for a list of highlights. Fonts and
    sizes are symbolic; the bytes pdfkit produces are not modelled here. */
module PdfLayout {
  import opened Highlights
  import opened Sequences

  /** The options object passed as the second argument of `text`. */
  datatype TextOptions = Underline | ParagraphGap(gap: nat)

  /** One operation on the document, in the order it is issued. */
  datatype Command =
    | SetTitle(title: string)        // the document's title metadata
    | FontSize(size: nat)
    | Font(name: string)
    | Text(text: string, options: TextOptions)
    | MoveDown(lines: nat)
    | End

  const DocumentTitle := "Readwise Highlights"

  /** Number of commands each highlight contributes. */
  const BlockSize := 10

  /** The ten commands issued for one highlight: title, author and body lines,
      each preceded by its size and font, then the gap before the next one. */
  function HighlightBlock(h: Highlight): (r: seq<Command>)
    ensures |r| == BlockSize
  {
    [ FontSize(16), Font("Helvetica-Bold"), Text(DisplayTitle(h), Underline),
      FontSize(12), Font("Helvetica-Oblique"), Text(DisplayAuthor(h), ParagraphGap(10)),
      FontSize(12), Font("Helvetica"), Text(h.text, ParagraphGap(20)),
      MoveDown(2) ]
  }

  /** One styled line: the size, then the font, then the text. */
  function Line(size: nat, font: string, text: string, options: TextOptions): seq<Command> {
    [FontSize(size), Font(font), Text(text, options)]
  }

  /** A highlight's block is its three styled lines followed by the gap. */
  lemma BlockLines(h: Highlight)
    ensures HighlightBlock(h) ==
      Line(16, "Helvetica-Bold", DisplayTitle(h), Underline)
      + (Line(12, "Helvetica-Oblique", DisplayAuthor(h), ParagraphGap(10))
      + (Line(12, "Helvetica", h.text, ParagraphGap(20)) + [MoveDown(2)]))
  {
  }

  /** The blocks of all highlights, in input order. */
  function Body(hs: seq<Highlight>): seq<Command> {
    if hs == [] then [] else Body(hs[..|hs| - 1]) + HighlightBlock(hs[|hs| - 1])
  }

  /** The whole log of a build that nothing interrupts. */
  function Layout(hs: seq<Highlight>): seq<Command> {
    [SetTitle(DocumentTitle)] + Body(hs) + [End]
  }

  /** How many commands of `log` satisfy `p`. */
  function Count(log: seq<Command>, p: Command -> bool): nat {
    if log == [] then 0 else (if p(log[0]) then 1 else 0) + Count(log[1..], p)
  }

  predicate IsSetTitle(c: Command) { c.SetTitle? }
  predicate IsText(c: Command) { c.Text? }
  predicate IsMoveDown(c: Command) { c.MoveDown? }
  predicate IsEnd(c: Command) { c.End? }

  /** The style a text line is written in: the size and font commands just
      before it must be those that belong to its options. */
  predicate Styled(size: Command, font: Command, text: Command)
    requires text.Text?
  {
    match text.options
    case Underline => size == FontSize(16) && font == Font("Helvetica-Bold")
    case ParagraphGap(g) =>
      (g == 10 && size == FontSize(12) && font == Font("Helvetica-Oblique")) ||
      (g == 20 && size == FontSize(12) && font == Font("Helvetica"))
  }

  lemma {:induction false} CountAppend(a: seq<Command>, b: seq<Command>, p: Command -> bool)
    ensures Count(a + b, p) == Count(a, p) + Count(b, p)
  {
    if a != [] {
      assert (a + b)[1..] == a[1..] + b;
      CountAppend(a[1..], b, p);
    } else {
      assert a + b == b;
    }
  }

  /** Each block holds one title, one author and one body line and one `MoveDown`. */
  lemma BlockCounts(h: Highlight)
    ensures Count(HighlightBlock(h), IsText) == 3
    ensures Count(HighlightBlock(h), IsMoveDown) == 1
    ensures Count(HighlightBlock(h), IsEnd) == 0
    ensures Count(HighlightBlock(h), IsSetTitle) == 0
  {
    var b := HighlightBlock(h);
    var k := 10;
    while k > 0
      invariant 0 <= k <= 10
      invariant Count(b[k..], IsText) == (if k <= 2 then 3 else if k <= 5 then 2 else if k <= 8 then 1 else 0)
      invariant Count(b[k..], IsMoveDown) == (if k <= 9 then 1 else 0)
      invariant Count(b[k..], IsEnd) == 0 && Count(b[k..], IsSetTitle) == 0
    {
      k := k - 1;
      assert b[k..][1..] == b[k + 1..];
    }
    assert b[0..] == b;
  }

  lemma {:induction false} BodyLength(hs: seq<Highlight>)
    ensures |Body(hs)| == BlockSize * |hs|
  {
    if hs != [] {
      BodyLength(hs[..|hs| - 1]);
    }
  }

  /** Rendering a concatenation renders each part in turn. */
  lemma {:induction false} BodyAppend(a: seq<Highlight>, b: seq<Highlight>)
    ensures Body(a + b) == Body(a) + Body(b)
  {
    if b == [] {
      assert a + b == a;
    } else {
      var b' := b[..|b| - 1];
      assert (a + b)[..|a + b| - 1] == a + b';
      assert (a + b)[|a + b| - 1] == b[|b| - 1];
      BodyAppend(a, b');
      AppendAssoc(Body(a), Body(b'), HighlightBlock(b[|b| - 1]));
    }
  }

  /** One more highlight adds its block at the end of the body. */
  lemma BodyPrefixStep(hs: seq<Highlight>, i: nat)
    requires i < |hs|
    ensures Body(hs[..i + 1]) == Body(hs[..i]) + HighlightBlock(hs[i])
  {
    var p := hs[..i + 1];
    assert p[..i] == hs[..i];
  }

  lemma BodySingle(h: Highlight)
    ensures Body([h]) == HighlightBlock(h)
  {
    assert [h][..0] == [];
  }

  /** Order preservation: the block of the `k`-th highlight occupies positions
      `BlockSize * k` up to `BlockSize * (k + 1)` of the body. */
  lemma BodyBlockAt(hs: seq<Highlight>, k: nat)
    requires k < |hs|
    ensures |Body(hs)| == BlockSize * |hs|
    ensures Body(hs)[BlockSize * k .. BlockSize * (k + 1)] == HighlightBlock(hs[k])
  {
    BodyLength(hs);
    var before, after := hs[..k], hs[k + 1..];
    assert hs == (before + [hs[k]]) + after;
    BodyAppend(before + [hs[k]], after);
    BodyAppend(before, [hs[k]]);
    BodySingle(hs[k]);
    BodyLength(before);
    SliceMiddle(Body(before), HighlightBlock(hs[k]), Body(after));
  }

  /** The log of an uninterrupted build: the title metadata comes first, `End`
      last, and the `k`-th highlight's ten commands in between, in input order. */
  lemma LayoutShape(hs: seq<Highlight>)
    ensures |Layout(hs)| == BlockSize * |hs| + 2
    ensures Layout(hs)[0] == SetTitle(DocumentTitle)
    ensures Layout(hs)[|Layout(hs)| - 1] == End
    ensures hs == [] ==> Layout(hs) == [SetTitle(DocumentTitle), End]
    ensures forall k :: 0 <= k < |hs| ==>
      Layout(hs)[1 + BlockSize * k .. 1 + BlockSize * (k + 1)] == HighlightBlock(hs[k])
  {
    BodyLength(hs);
    forall k | 0 <= k < |hs|
      ensures Layout(hs)[1 + BlockSize * k .. 1 + BlockSize * (k + 1)] == HighlightBlock(hs[k])
    {
      BodyBlockAt(hs, k);
      assert Layout(hs)[1 + BlockSize * k .. 1 + BlockSize * (k + 1)]
          == Body(hs)[BlockSize * k .. BlockSize * (k + 1)];
    }
  }

  lemma {:induction false} BodyCounts(hs: seq<Highlight>)
    ensures Count(Body(hs), IsText) == 3 * |hs|
    ensures Count(Body(hs), IsMoveDown) == |hs|
    ensures Count(Body(hs), IsEnd) == 0
    ensures Count(Body(hs), IsSetTitle) == 0
  {
    if hs != [] {
      var init := hs[..|hs| - 1];
      BodyCounts(init);
      BlockCounts(hs[|hs| - 1]);
      CountAppend(Body(init), HighlightBlock(hs[|hs| - 1]), IsText);
      CountAppend(Body(init), HighlightBlock(hs[|hs| - 1]), IsMoveDown);
      CountAppend(Body(init), HighlightBlock(hs[|hs| - 1]), IsEnd);
      CountAppend(Body(init), HighlightBlock(hs[|hs| - 1]), IsSetTitle);
    }
  }

  /** Three text lines and one `moveDown` per highlight, including the last;
      the title metadata and `end` exactly once each. */
  lemma LayoutCounts(hs: seq<Highlight>)
    ensures Count(Layout(hs), IsText) == 3 * |hs|
    ensures Count(Layout(hs), IsMoveDown) == |hs|
    ensures Count(Layout(hs), IsEnd) == 1
    ensures Count(Layout(hs), IsSetTitle) == 1
  {
    BodyCounts(hs);
    var head: seq<Command> := [SetTitle(DocumentTitle)];
    var tail: seq<Command> := [End];
    assert Layout(hs) == head + (Body(hs) + tail);
    CountAppend(head, Body(hs) + tail, IsText);
    CountAppend(head, Body(hs) + tail, IsMoveDown);
    CountAppend(head, Body(hs) + tail, IsEnd);
    CountAppend(head, Body(hs) + tail, IsSetTitle);
    CountAppend(Body(hs), tail, IsText);
    CountAppend(Body(hs), tail, IsMoveDown);
    CountAppend(Body(hs), tail, IsEnd);
    CountAppend(Body(hs), tail, IsSetTitle);
  }

  /** Within one block, each text command follows its size and font. */
  lemma BlockIsStyled(h: Highlight, j: nat)
    requires j < BlockSize && HighlightBlock(h)[j].Text?
    ensures 2 <= j && Styled(HighlightBlock(h)[j - 2], HighlightBlock(h)[j - 1], HighlightBlock(h)[j])
  {
    assert j == 2 || j == 5 || j == 8;
  }

  /** Within the body, each text command follows its size and font. */
  lemma {:induction false} BodyIsStyled(hs: seq<Highlight>, n: nat)
    requires n < |Body(hs)| && Body(hs)[n].Text?
    ensures 2 <= n && Styled(Body(hs)[n - 2], Body(hs)[n - 1], Body(hs)[n])
  {
    var front, block := Body(hs[..|hs| - 1]), HighlightBlock(hs[|hs| - 1]);
    assert Body(hs) == front + block;
    if n < |front| {
      assert Body(hs)[n] == front[n];
      BodyIsStyled(hs[..|hs| - 1], n);
      assert Body(hs)[n - 1] == front[n - 1] && Body(hs)[n - 2] == front[n - 2];
    } else {
      var j := n - |front|;
      assert Body(hs)[n] == block[j];
      BlockIsStyled(hs[|hs| - 1], j);
      assert Body(hs)[n - 1] == block[j - 1] && Body(hs)[n - 2] == block[j - 2];
    }
  }

  /** Every text line is issued right after the size and font of its style. */
  lemma TextIsStyled(hs: seq<Highlight>, i: nat)
    requires i < |Layout(hs)| && Layout(hs)[i].Text?
    ensures 3 <= i && Styled(Layout(hs)[i - 2], Layout(hs)[i - 1], Layout(hs)[i])
  {
    var log, body := Layout(hs), Body(hs);
    assert log == [SetTitle(DocumentTitle)] + body + [End];
    assert 1 <= i <= |body|;
    assert log[i] == body[i - 1];
    BodyIsStyled(hs, i - 1);
    assert log[i - 1] == body[i - 2] && log[i - 2] == body[i - 3];
  }

  /** The log depends on the title, author and text of each record only: a
      note (or an id) never makes any difference, so no note line is issued. */
  lemma {:induction false} LayoutIgnoresNotes(hs: seq<Highlight>, hs': seq<Highlight>)
    requires |hs| == |hs'|
    requires forall k :: 0 <= k < |hs| ==> SameRendered(hs[k], hs'[k])
    ensures Layout(hs) == Layout(hs')
  {
    BodyIgnoresNotes(hs, hs');
  }

  lemma {:induction false} BodyIgnoresNotes(hs: seq<Highlight>, hs': seq<Highlight>)
    requires |hs| == |hs'|
    requires forall k :: 0 <= k < |hs| ==> SameRendered(hs[k], hs'[k])
    ensures Body(hs) == Body(hs')
  {
    if hs != [] {
      var n := |hs| - 1;
      assert SameRendered(hs[n], hs'[n]);
      BodyIgnoresNotes(hs[..n], hs'[..n]);
    }
  }
}
