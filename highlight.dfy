/** `highlight`: for every section, the code is tokenised and formatted to HTML by chroma and
    wrapped in the highlight block, and the documentation is rendered by blackfriday. The
    foreign libraries are parameters of the model. */
module Highlight {
  import opened Text
  import opened Languages
  import opened Splitter

  /** What `formatter.Format` leaves: the bytes it wrote into the buffer, and whether it
      returned an error (possibly after writing part of its output). */
  datatype Formatted = Formatted(output: Bytes, failed: bool)

  /** The collaborators of `highlight`: the lexer chosen for the language (chroma's fallback
      lexer when chroma does not know the name), the HTML formatter with its style, and
      `blackfriday.MarkdownCommon`. */
  datatype Renderer<!Tokens> = Renderer(
    tokenise: Bytes -> Option<Tokens>,
    format: Tokens -> Formatted,
    markdown: Bytes -> Bytes)

  const HighlightStart: Bytes := Ascii("<div class=\"highlight\"><pre>")
  const HighlightEnd: Bytes := Ascii("</pre></div>")

  /** `bytes.Join([][]byte{highlightStart, highlightEnd}, body)`: the body, used as the
      separator of a two-element join, lands between the two halves of the highlight block. */
  function Wrap(body: Bytes): (w: Bytes)
    ensures w == HighlightStart + body + HighlightEnd
  {
    Join([HighlightStart, HighlightEnd], body)
  }

  /** The buffer after formatting: the formatter's output, then the raw code when it failed. */
  function FormattedBody(f: Formatted, code: Bytes): Bytes
  {
    if f.failed then f.output + code else f.output
  }

  /** The two HTML fields of a section. */
  datatype Html = Html(docs: Bytes, code: Bytes)

  /** What `highlight` as written gives one section: nothing at all exactly when tokenising
      fails (the loop continues before either field is set); otherwise the rendered
      documentation, and the highlight block around the formatter's output, followed by the
      raw code when formatting failed. */
  function SectionHtml<T>(docsText: Bytes, codeText: Bytes, r: Renderer<T>): (h: Option<Html>)
    ensures h.None? <==> r.tokenise(codeText).None?
    ensures h.Some? ==>
              var f := r.format(r.tokenise(codeText).value);
              && h.value.docs == r.markdown(docsText)
              && h.value.code == HighlightStart + f.output + (if f.failed then codeText else []) + HighlightEnd
  {
    match r.tokenise(codeText)
    case None => None
    case Some(tokens) => Some(Html(r.markdown(docsText), Wrap(FormattedBody(r.format(tokens), codeText))))
  }

  /** A section with this state has the HTML `highlight` gives it: the new fields when
      tokenising succeeds, the earlier ones `docs0` and `code0` when it fails. */
  ghost predicate Highlighted<T>(s: Section, r: Renderer<T>, docs0: Bytes, code0: Bytes)
    reads s
  {
    match SectionHtml(s.docsText, s.codeText, r)
    case None => s.docsHtml == docs0 && s.codeHtml == code0
    case Some(h) => s.docsHtml == h.docs && s.codeHtml == h.code
  }

  /** One pass of the loop of `highlight`, as written: when tokenising fails the raw code goes
      into a buffer nobody reads and the section is left as it was. */
  method HighlightSection<T>(s: Section, r: Renderer<T>)
    modifies s
    ensures Highlighted(s, r, old(s.docsHtml), old(s.codeHtml))
  {
    var buf: Bytes := [];
    var tokens := r.tokenise(s.codeText);
    if tokens.None? {
      buf := buf + s.codeText;
      return;
    }
    var f := r.format(tokens.value);
    buf := buf + f.output;
    if f.failed {
      buf := buf + s.codeText;
    }
    assert buf == FormattedBody(f, s.codeText);
    s.codeHtml := Wrap(buf);
    s.docsHtml := r.markdown(s.docsText);
  }

  /** `highlight`, as written: every section gets the HTML `SectionHtml` gives it, and a
      section whose code does not tokenise keeps the fields it had. */
  method Highlight<T>(sections: seq<Section>, r: Renderer<T>)
    modifies sections
    ensures forall k | 0 <= k < |sections| ::
              Highlighted(sections[k], r, old(sections[k].docsHtml), old(sections[k].codeHtml))
  {
    for i := 0 to |sections|
      invariant forall k | 0 <= k < i ::
                  Highlighted(sections[k], r, old(sections[k].docsHtml), old(sections[k].codeHtml))
      invariant forall k | 0 <= k < |sections| ::
                  || Highlighted(sections[k], r, old(sections[k].docsHtml), old(sections[k].codeHtml))
                  || (sections[k].docsHtml == old(sections[k].docsHtml)
                      && sections[k].codeHtml == old(sections[k].codeHtml))
    {
      HighlightSection(sections[i], r);
    }
  }

  /** The uniform fallback: a section whose code does not tokenise is treated like one whose
      formatting fails, so its raw code is wrapped and its documentation is still rendered. */
  function SectionHtmlUniform<T>(docsText: Bytes, codeText: Bytes, r: Renderer<T>): Html
  {
    Html(r.markdown(docsText), Wrap(UniformBody(codeText, r)))
  }

  /** The buffer with the uniform fallback: the raw code when tokenising fails. */
  function UniformBody<T>(codeText: Bytes, r: Renderer<T>): Bytes
  {
    match r.tokenise(codeText)
    case None => codeText
    case Some(tokens) => FormattedBody(r.format(tokens), codeText)
  }

  /** With the uniform fallback a code failure never suppresses the documentation, every code
      cell is a highlight block, an untokenisable section shows its raw code, and wherever the
      source sets the fields it sets them to the same values. */
  lemma UniformFallback<T>(docsText: Bytes, codeText: Bytes, r: Renderer<T>)
    ensures var h := SectionHtmlUniform(docsText, codeText, r);
            && h.docs == r.markdown(docsText)
            && HighlightStart <= h.code
            && (r.tokenise(codeText).None? ==> h.code == HighlightStart + codeText + HighlightEnd)
            && (SectionHtml(docsText, codeText, r).Some? ==> SectionHtml(docsText, codeText, r).value == h)
  {
    var h := SectionHtmlUniform(docsText, codeText, r);
    var body := UniformBody(codeText, r);
    assert h.code == HighlightStart + body + HighlightEnd;
    assert (HighlightStart + body + HighlightEnd)[..|HighlightStart|] == HighlightStart;
  }

  /** A renderer whose lexer always fails and whose Markdown renderer is the identity. */
  function FailingLexer(): Renderer<()>
  {
    Renderer(code => None, tokens => Formatted([], false), docs => docs)
  }

  /** A section with documentation "Title\n" and code "x\n" whose lexer fails: as written,
      `highlight` renders neither field, so the documentation is lost although Markdown could
      render it; the uniform fallback renders it. */
  lemma TokeniseFailureDropsDocs()
    ensures var docs, code := Ascii("Title\n"), Ascii("x\n");
            && SectionHtml(docs, code, FailingLexer()).None?
            && FailingLexer().markdown(docs) != []
            && SectionHtmlUniform(docs, code, FailingLexer()).docs == docs
  {
  }

  /** A section with this state has both HTML fields of the uniform fallback. */
  ghost predicate HighlightedUniformly<T>(s: Section, r: Renderer<T>)
    reads s
  {
    var h := SectionHtmlUniform(s.docsText, s.codeText, r);
    s.docsHtml == h.docs && s.codeHtml == h.code
  }

  /** One pass of the loop of `highlight` with the uniform fallback. */
  method HighlightSectionUniform<T>(s: Section, r: Renderer<T>)
    modifies s
    ensures HighlightedUniformly(s, r)
  {
    var buf: Bytes := [];
    var tokens := r.tokenise(s.codeText);
    if tokens.None? {
      buf := buf + s.codeText;
    } else {
      var f := r.format(tokens.value);
      buf := buf + f.output;
      if f.failed {
        buf := buf + s.codeText;
      }
    }
    assert buf == UniformBody(s.codeText, r);
    s.codeHtml := Wrap(buf);
    s.docsHtml := r.markdown(s.docsText);
  }

  /** `highlight` with the uniform fallback: every section gets both HTML fields. */
  method HighlightUniform<T>(sections: seq<Section>, r: Renderer<T>)
    modifies sections
    ensures forall k | 0 <= k < |sections| :: HighlightedUniformly(sections[k], r)
  {
    for i := 0 to |sections|
      invariant forall k | 0 <= k < i :: HighlightedUniformly(sections[k], r)
    {
      HighlightSectionUniform(sections[i], r);
    }
  }
}
