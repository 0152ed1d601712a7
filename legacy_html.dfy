/** The HTML page that the Puppeteer-based `convertToPdf` of
    readwise_emails.js builds before handing it to the browser. Fields are
    pasted in verbatim: nothing is escaped. */
module LegacyHtml {
  import opened Highlights
  import opened Sequences

  const HtmlPrefix := "<html><body style=\"margin:50px; padding: 25px\">"
  const HtmlSuffix := "</body></html>"

  /** The markup around the three fields of one highlight. */
  const MarkupPerHighlight := |"<h2></h2><h3></h3><p></p>"|

  /** What the loop appends for one highlight. */
  function Fragment(h: Highlight): string {
    "<h2>" + DisplayTitle(h) + "</h2>" + "<h3>" + DisplayAuthor(h) + "</h3>" + "<p>" + h.text + "</p>"
  }

  /** The fragments of all highlights, in input order. */
  function Fragments(hs: seq<Highlight>): string {
    if hs == [] then "" else Fragments(hs[..|hs| - 1]) + Fragment(hs[|hs| - 1])
  }

  /** The characters of the three fields the page shows for each highlight. */
  function FieldLength(hs: seq<Highlight>): nat {
    if hs == [] then 0
    else FieldLength(hs[..|hs| - 1])
         + |DisplayTitle(hs[|hs| - 1])| + |DisplayAuthor(hs[|hs| - 1])| + |hs[|hs| - 1].text|
  }

  /** One iteration of the page loop: the title, author and text elements
      appended in that order. */
  method AppendHighlight(html: string, h: Highlight) returns (r: string)
    ensures r == html + Fragment(h)
  {
    r := html + "<h2>" + OrElse(h.title, UntitledPlaceholder) + "</h2>";
    r := r + "<h3>" + OrElse(h.author, UnknownAuthorPlaceholder) + "</h3>";
    r := r + "<p>" + h.text + "</p>";
    Regroup(html, "<h2>", OrElse(h.title, UntitledPlaceholder), "</h2>",
      "<h3>", OrElse(h.author, UnknownAuthorPlaceholder), "</h3>", "<p>", h.text, "</p>");
  }

  /** The whole page: the fixed prefix, the fragments, the closing tags. */
  function Page(hs: seq<Highlight>): string {
    HtmlPrefix + Fragments(hs) + HtmlSuffix
  }

  /** Grows the page string: the prefix, then one fragment per highlight in
      input order, then the suffix. */
  method BuildHtml(highlights: seq<Highlight>) returns (html: string)
    ensures html == Page(highlights)
  {
    html := HtmlPrefix;
    for i := 0 to |highlights|
      invariant html == HtmlPrefix + Fragments(highlights[..i])
    {
      html := AppendHighlight(html, highlights[i]);
      FragmentsPrefixStep(highlights, i);
      AppendAssoc(HtmlPrefix, Fragments(highlights[..i]), Fragment(highlights[i]));
    }
    assert highlights[..|highlights|] == highlights;
    html := html + HtmlSuffix;
  }

  /** A string framed by `p` and `q` starts with `p` and ends with `q`. */
  lemma Framed(p: string, body: string, q: string)
    ensures |p + body + q| >= |p| + |q|
    ensures (p + body + q)[..|p|] == p
    ensures (p + body + q)[|p + body + q| - |q|..] == q
  {
    var w := p + body + q;
    assert forall i :: 0 <= i < |p| ==> w[..|p|][i] == p[i];
    assert forall i :: 0 <= i < |q| ==> w[|w| - |q|..][i] == q[i];
  }

  /** Nine appends to a string add their concatenation to it. */
  lemma Regroup(s: string, a1: string, a2: string, a3: string, a4: string, a5: string,
                a6: string, a7: string, a8: string, a9: string)
    ensures s + a1 + a2 + a3 + a4 + a5 + a6 + a7 + a8 + a9
         == s + (a1 + a2 + a3 + a4 + a5 + a6 + a7 + a8 + a9)
  {
  }

  lemma FragmentsPrefixStep(hs: seq<Highlight>, i: nat)
    requires i < |hs|
    ensures Fragments(hs[..i + 1]) == Fragments(hs[..i]) + Fragment(hs[i])
  {
    var p := hs[..i + 1];
    assert p[..i] == hs[..i];
    FragmentsStep(p);
  }

  /** Building the page for a concatenation builds each part in turn. */
  lemma {:induction false} FragmentsAppend(a: seq<Highlight>, b: seq<Highlight>)
    ensures Fragments(a + b) == Fragments(a) + Fragments(b)
  {
    if b == [] {
      assert a + b == a;
    } else {
      var ab, b' := a + b, b[..|b| - 1];
      assert ab[..|ab| - 1] == a + b';
      assert ab[|ab| - 1] == b[|b| - 1];
      FragmentsAppend(a, b');
      FragmentsStep(ab);
      FragmentsStep(b);
      AppendAssoc(Fragments(a), Fragments(b'), Fragment(b[|b| - 1]));
    }
  }

  /** The last highlight's fragment closes the page body. */
  lemma FragmentsStep(hs: seq<Highlight>)
    requires hs != []
    ensures Fragments(hs) == Fragments(hs[..|hs| - 1]) + Fragment(hs[|hs| - 1])
  {
  }

  lemma FragmentsSingle(h: Highlight)
    ensures Fragments([h]) == Fragment(h)
  {
    var single := [h];
    assert single[..0] == [];
  }

  lemma {:induction false} FragmentAt(hs: seq<Highlight>, k: nat)
    requires k < |hs|
    ensures Fragments(hs) == Fragments(hs[..k]) + Fragment(hs[k]) + Fragments(hs[k + 1..])
  {
    var before, after := hs[..k], hs[k + 1..];
    assert hs == (before + [hs[k]]) + after;
    FragmentsAppend(before + [hs[k]], after);
    FragmentsAppend(before, [hs[k]]);
    FragmentsSingle(hs[k]);
  }

  /** The body is 25 characters of markup per highlight and the characters of the fields. */
  lemma {:induction false} FragmentsLength(hs: seq<Highlight>)
    ensures |Fragments(hs)| == MarkupPerHighlight * |hs| + FieldLength(hs)
  {
    if hs != [] {
      var last := hs[|hs| - 1];
      FragmentsLength(hs[..|hs| - 1]);
      FragmentsStep(hs);
      FragmentLength(last);
    }
  }

  lemma FragmentLength(h: Highlight)
    ensures |Fragment(h)| == MarkupPerHighlight + |DisplayTitle(h)| + |DisplayAuthor(h)| + |h.text|
  {
  }

  /** The page starts with the body prefix and ends with the closing tags;
      between them are 25 characters of markup per highlight and the fields;
      for no highlights it is the prefix followed by the suffix. */
  lemma PageShape(hs: seq<Highlight>)
    ensures Page(hs)[..|HtmlPrefix|] == HtmlPrefix
    ensures Page(hs)[|Page(hs)| - |HtmlSuffix|..] == HtmlSuffix
    ensures |Page(hs)| == |HtmlPrefix| + |HtmlSuffix| + MarkupPerHighlight * |hs| + FieldLength(hs)
    ensures hs == [] ==> Page(hs) == HtmlPrefix + HtmlSuffix
  {
    Framed(HtmlPrefix, Fragments(hs), HtmlSuffix);
    FragmentsLength(hs);
  }
}
