/** `generateHTML` and `generateDocumentation`: the highlighted sections become the data the
    page template is executed on, and the pipeline for one source file runs `parse`,
    `highlight` and `generateHTML` in turn, once with `highlight` as written and once with
    its corrected fallback. The template itself, the style sheet and the file system are
    outside the model; the style sheet's text is a parameter. */
module Render {
  import opened Text
  import opened Languages
  import opened Splitter
  import opened Highlight
  import Paths

  /** `TemplateSection`: the two HTML fields of a section and its 1-based anchor number. */
  datatype TemplateSection = TemplateSection(docsHtml: Bytes, codeHtml: Bytes, index: int)

  /** `TemplateData`: everything the page template reads. */
  datatype TemplateData = TemplateData(
    title: string,
    sections: seq<TemplateSection>,
    sources: seq<string>,
    multiple: bool,
    styleClasses: Bytes)

  /** The sections are numbered 1, 2, ... in order. */
  predicate Numbered(ts: seq<TemplateSection>)
  {
    forall k | 0 <= k < |ts| :: ts[k].index == k + 1
  }

  /** The conversion loop of `generateHTML`: one template section per section, in order, with
      the same HTML and its position plus one as index. */
  method TemplateSections(sections: seq<Section>) returns (ts: seq<TemplateSection>)
    ensures |ts| == |sections|
    ensures forall k | 0 <= k < |sections| ::
              && ts[k].docsHtml == sections[k].docsHtml
              && ts[k].codeHtml == sections[k].codeHtml
    ensures Numbered(ts)
  {
    var sectionsArray := new TemplateSection[|sections|];
    for i := 0 to |sections|
      modifies sectionsArray
      invariant forall k | 0 <= k < i ::
                  sectionsArray[k] == TemplateSection(sections[k].docsHtml, sections[k].codeHtml, k + 1)
    {
      var sec := sections[i];
      sectionsArray[i] := TemplateSection(sec.docsHtml, sec.codeHtml, i + 1);
    }
    ts := sectionsArray[..];
  }

  /** `generateHTML` up to the template: the destination, the title, the template sections,
      the source list, whether there is more than one source, and the style classes. */
  method GenerateHtml(source: string, sections: seq<Section>, sources: seq<string>, styleClasses: Bytes)
    returns (dest: string, data: TemplateData)
    ensures dest == Paths.Destination(source)
    ensures data.title == Paths.Base(source)
    ensures |data.sections| == |sections|
    ensures forall k | 0 <= k < |sections| ::
              && data.sections[k].docsHtml == sections[k].docsHtml
              && data.sections[k].codeHtml == sections[k].codeHtml
    ensures Numbered(data.sections)
    ensures data.sources == sources
    ensures data.multiple <==> |sources| > 1
    ensures data.styleClasses == styleClasses
  {
    var title := Paths.Base(source);
    dest := Paths.Destination(source);
    var sectionsArray := TemplateSections(sections);
    data := TemplateData(title, sectionsArray, sources, |sources| > 1, styleClasses);
  }

  /** The anchor numbers used by the sections. */
  function Anchors(ts: seq<TemplateSection>): set<int>
  {
    set k | 0 <= k < |ts| :: ts[k].index
  }

  /** The anchor numbers are exactly 1 to n, each used once, so every section has its own anchor. */
  lemma AnchorsAreDistinct(ts: seq<TemplateSection>)
    requires Numbered(ts)
    ensures forall n :: n in Anchors(ts) <==> 1 <= n <= |ts|
    ensures forall j, k | 0 <= j < k < |ts| :: ts[j].index != ts[k].index
  {
    forall n | 1 <= n <= |ts| ensures n in Anchors(ts) {
      assert ts[n - 1].index == n;
    }
  }

  /** Why `generateDocumentation` stops. */
  datatype ConfigError = UnknownExtension(source: string, ext: string)

  datatype Result<T, E> = Ok(value: T) | Err(error: E)

  /** A rendered page: where it is written and what the template is given. */
  datatype Page = Page(destination: string, data: TemplateData)

  /** The page one source file gets, for a language and renderer: block k of its text becomes
      template section k + 1, with the HTML of the uniform fallback. */
  predicate RendersAs<T>(p: Page, source: string, code: Bytes, lang: Language, rd: Renderer<T>,
                         sources: seq<string>, styleClasses: Bytes)
  {
    var bs := Blocks(Split(code), lang.symbol);
    && p.destination == Paths.Destination(source)
    && p.data.title == Paths.Base(source)
    && |p.data.sections| == |bs|
    && (forall k | 0 <= k < |bs| ::
          var h := SectionHtmlUniform(Terminated(bs[k].docs), Terminated(bs[k].code), rd);
          p.data.sections[k] == TemplateSection(h.docs, h.code, k + 1))
    && p.data.sources == sources
    && (p.data.multiple <==> |sources| > 1)
    && p.data.styleClasses == styleClasses
  }

  /** The template section for the HTML `highlight` as written gives: both fields are still
      empty when nothing was set. */
  function AsWrittenSection(h: Option<Html>, index: int): TemplateSection
  {
    match h
    case None => TemplateSection([], [], index)
    case Some(html) => TemplateSection(html.docs, html.code, index)
  }

  /** The page one source file gets from `highlight` as written: block k of its text becomes
      template section k + 1, with the HTML `SectionHtml` gives it, or with both fields empty
      when its code does not tokenise. */
  predicate RendersAsWritten<T>(p: Page, source: string, code: Bytes, lang: Language, rd: Renderer<T>,
                                sources: seq<string>, styleClasses: Bytes)
  {
    var bs := Blocks(Split(code), lang.symbol);
    && p.destination == Paths.Destination(source)
    && p.data.title == Paths.Base(source)
    && |p.data.sections| == |bs|
    && (forall k | 0 <= k < |bs| ::
          p.data.sections[k] == AsWrittenSection(SectionHtml(Terminated(bs[k].docs), Terminated(bs[k].code), rd), k + 1))
    && p.data.sources == sources
    && (p.data.multiple <==> |sources| > 1)
    && p.data.styleClasses == styleClasses
  }

  /** `parse`, `highlight` as written and `generateHTML` in turn, for a source whose language
      is known: a section whose code does not tokenise reaches the template with empty HTML. */
  method DocumentAsWritten<T>(source: string, code: Bytes, lang: Language, rd: Renderer<T>,
                              sources: seq<string>, styleClasses: Bytes)
    returns (p: Page)
    ensures RendersAsWritten(p, source, code, lang, rd, sources, styleClasses)
  {
    var sections := Parse(lang, code);
    ghost var bs := Blocks(Split(code), lang.symbol);
    assert forall k | 0 <= k < |sections| :: sections[k] in sections;
    assert forall k | 0 <= k < |sections| :: sections[k].docsHtml == [] && sections[k].codeHtml == [];
    Highlight.Highlight(sections, rd);
    assert forall k | 0 <= k < |sections| :: Highlighted(sections[k], rd, [], []);
    var dest, data := GenerateHtml(source, sections, sources, styleClasses);
    p := Page(dest, data);
    forall k | 0 <= k < |bs|
      ensures p.data.sections[k]
              == AsWrittenSection(SectionHtml(Terminated(bs[k].docs), Terminated(bs[k].code), rd), k + 1)
    {
      assert Holds(sections[k], bs[k]);
      HighlightedAsWritten(sections[k], rd, k + 1);
    }
  }

  /** A section `highlight` as written has seen, starting from empty HTML, carries the fields
      `AsWrittenSection` puts in the template. */
  lemma HighlightedAsWritten<T>(s: Section, rd: Renderer<T>, index: int)
    requires Highlighted(s, rd, [], [])
    ensures TemplateSection(s.docsHtml, s.codeHtml, index)
            == AsWrittenSection(SectionHtml(s.docsText, s.codeText, rd), index)
  {
  }

  /** `parse`, the corrected `highlight` and `generateHTML` in turn, for a source whose
      language is known. */
  method Document<T>(source: string, code: Bytes, lang: Language, rd: Renderer<T>,
                     sources: seq<string>, styleClasses: Bytes)
    returns (p: Page)
    ensures RendersAs(p, source, code, lang, rd, sources, styleClasses)
  {
    var sections := Parse(lang, code);
    ghost var bs := Blocks(Split(code), lang.symbol);
    assert forall k | 0 <= k < |sections| :: sections[k] in sections;
    HighlightUniform(sections, rd);
    var dest, data := GenerateHtml(source, sections, sources, styleClasses);
    p := Page(dest, data);
    assert forall k | 0 <= k < |bs| :: Holds(sections[k], bs[k]);
  }

  /** `generateDocumentation` for a source whose contents are `code`: an error when the
      extension has no language, otherwise the page built from the blocks of the text. The
      renderer is chosen by the language's name, as `highlight` chooses the lexer. */
  method GenerateDocumentation<T>(source: string, code: Bytes, sources: seq<string>, styleClasses: Bytes,
                                  renderers: string -> Renderer<T>)
    returns (r: Result<Page, ConfigError>)
    ensures r.Err? <==> GetLanguage(source).None?
    ensures r.Err? ==> r.error == UnknownExtension(source, Paths.Ext(source))
    ensures r.Ok? ==>
              var lang := GetLanguage(source).value;
              RendersAs(r.value, source, code, lang, renderers(lang.name), sources, styleClasses)
  {
    var language := GetLanguage(source);
    if language.None? {
      return Err(UnknownExtension(source, Paths.Ext(source)));
    }
    var lang := language.value;
    var page := Document(source, code, lang, renderers(lang.name), sources, styleClasses);
    r := Ok(page);
  }
}
