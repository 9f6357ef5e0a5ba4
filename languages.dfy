/** The language registry filled by `setupLanguages` and read by `getLanguage`. Each language
    has a highlighter name and a comment symbol; the compiled comment matcher of `setup` is
    the predicate `Comments.IsComment` applied to that symbol. */
module Languages {
  import opened Text
  import opened Comments
  import Paths

  datatype Option<T> = None | Some(value: T)

  /** `Language`: the chroma name and the comment delimiter. The delimiter is held as the
      bytes the regular expression matches. */
  datatype Language = Language(name: string, symbol: Bytes)
  {
    /** `commentMatcher.Match(line)`. */
    predicate Matches(line: Bytes)
    {
      IsComment(line, symbol)
    }
  }

  /** The only language `setupLanguages` registers: Go, with `//` comments. */
  const Go: Language := Language("go", Ascii("//"))

  /** The map built by `setupLanguages`, keyed by file extension including the dot. */
  function Registry(): (m: map<string, Language>)
    ensures m.Keys == {".go"}
  {
    map[".go" := Go]
  }

  /** `getLanguage`: the language registered for the extension of `source`, if any. */
  function GetLanguage(source: string): (r: Option<Language>)
    ensures r.Some? <==> Paths.Ext(source) in Registry()
    ensures r.Some? ==> r.value == Registry()[Paths.Ext(source)]
  {
    var ext := Paths.Ext(source);
    if ext in Registry() then Some(Registry()[ext]) else None
  }

  /** Exactly the `.go` files have a language, and it is Go. */
  lemma GetLanguageGo(source: string)
    ensures GetLanguage(source) == (if Paths.Ext(source) == ".go" then Some(Go) else None)
  {
  }

  /** Every registered symbol is plain, so the pattern `^\s*` + symbol + `\s?` that `setup`
      compiles means exactly `IsComment` and its replacement leaves exactly `Strip`. */
  lemma RegisteredSymbolsArePlain()
    ensures forall ext | ext in Registry() :: PlainSymbol(Registry()[ext].symbol)
  {
    var sym := Go.symbol;
    assert sym == [47, 47];
    var meta := Ascii("\\.+*?()|[]{}^$");
    assert forall j | 0 <= j < |meta| :: meta[j] != 47;
    assert 47 !in meta;
  }

  /** A source whose extension is not registered has no language. */
  lemma UnregisteredExtensionIsAbsent()
    ensures GetLanguage("notes.txt") == None
  {
    assert Paths.Ext("notes.txt") != ".go" by {
      var e := Paths.Ext("notes.txt");
      assert e == [] || e[|e| - 1] == 't';
    }
  }
}
