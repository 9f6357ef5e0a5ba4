# gocco: the section splitter and its page data, in Dafny

Gocco is a Go port of Docco. It reads a source file and splits it into sections. Each section is
a run of comment lines (the documentation) followed by the code lines after it. The code of each
section goes through a syntax highlighter and its documentation through Markdown. Each source
file then becomes one HTML page under `docs/`.

This project models the part of `gocco.go` that works on bytes and strings:

- the comment matcher built in `setup`;
- the `parse` state machine, with its `save` closure;
- `destination`;
- the language registry of `setupLanguages` and `getLanguage`;
- the wrapping and the failure structure of `highlight`;
- the projection of sections onto template sections and the `Multiple` flag in `generateHTML`;
- the sequence `parse` → `highlight` → `generateHTML` of `generateDocumentation`, once with
  `highlight` as written (`Render.DocumentAsWritten`) and once with its corrected fallback
  (`Render.Document`, `Render.GenerateDocumentation`).

Modules, one per file:

- `Text` (`text.dfy`): bytes, `bytes.Split` on newline and `bytes.Join`. It also has
  `Terminated`, which models the buffer that `Write(line)` followed by `WriteString("\n")` leaves.
- `Comments` (`comments.dfy`): the pattern `^\s*` + symbol + `\s?`, where `\s` is Go's
  `[\t\n\f\r ]`. `IsComment` is the match. `Strip` is what `ReplaceAll(line, nil)` leaves.
- `Paths` (`paths.dfy`): `filepath.Base`, `filepath.Ext`, `strings.LastIndex` and `destination`.
- `Languages` (`languages.dfy`): `Language`, the registry and `getLanguage`.
- `Splitter` (`splitter.dfy`):
  - `Scan` and `Blocks` are a line-level specification of the splitter.
  - `Section` is a class: its text fields are fixed and its HTML fields are mutable.
  - `Parse` is the imperative loop over the lines, proved against `Blocks`.
- `Highlight` (`highlight.dfy`): `highlight` as written, the helpers that specify it, and a
  corrected variant.
- `Render` (`render.dfy`): the `generateHTML` projection loop over an array, and the whole
  pipeline for one file.

The foreign libraries are parameters of type `Renderer`:

- chroma's lexer, as a tokenise function that may fail;
- chroma's HTML formatter, which may fail after writing part of its output;
- blackfriday's `MarkdownCommon`.

The style sheet text that `WriteCSS` writes is also a parameter. File contents are bytes
(`seq<byte>`); paths are strings with `/` as the separator.

Two consequences of how `parse` reads its input:

- An empty file gives one section, with empty docs and code `"\n"`, because `bytes.Split` of the
  empty input yields one empty piece and that piece is a code line.
- A file with no comments gives one section whose code is the input followed by one `"\n"`,
  because every split piece is written with a newline after it.

## Model

| member | source | states |
|---|---|---|
| `Text.Split` | gocco.go:126 | there is always at least one piece, and no piece contains a newline |
| `Text.JoinSplit` | gocco.go:126 | joining the pieces on newline gives back the input |
| `Text.SplitJoin` | gocco.go:126 | splitting the newline-join of newline-free lines gives back those lines |
| `Text.SplitCount` | gocco.go:126 | there is exactly one more piece than the input has newlines |
| `Text.Join` | gocco.go:197 | a one-part join is that part, and a two-part join puts the separator between the two parts |
| `Text.Terminated` | gocco.go:158-163 | the buffer after writing each line followed by "\n"; it is empty exactly when no line was written, which is what `hasCode` tracks for the code buffer |
| `Text.TerminatedAppend` | gocco.go:158-159 | writing a line and then "\n" to the buffer appends exactly those bytes |
| `Text.TerminatedSplit` | gocco.go:160-164 | writing every piece followed by "\n" gives the input plus one trailing "\n" |
| `Comments.IsComment` | gocco.go:147 | no contract of its own: the symbol follows the longest whitespace prefix; `Comments.MatchIffPattern` proves this is exactly the anchored match of the compiled pattern |
| `Comments.Strip` | gocco.go:158 | the docs text is a suffix of the line, shorter than it by at least the symbol |
| `Comments.LeadingSpace` | gocco.go:278 | the greedy `^\s*` takes the longest all-whitespace prefix |
| `Comments.MatchIffPattern` | gocco.go:278 | `IsComment` holds exactly when some whitespace prefix is followed by the symbol (both directions) |
| `Comments.StripIsRemainder` | gocco.go:158 | the docs text is what remains after the longest whitespace prefix, the symbol and at most one whitespace byte; that byte is taken whenever there is one |
| `Comments.StripIsSuffix` | gocco.go:158 | a line without a newline gives docs without one |
| `Paths.TrimTrailingSeparators` | gocco.go:204 | trailing separators are removed and nothing else |
| `Paths.TrimmedLength` | gocco.go:204 | the trimming loop stops at a non-separator, and everything after it is a separator |
| `Paths.LastSeparator` | gocco.go:204 | the index of the last separator, or -1 when there is none |
| `Paths.SeparatorBefore` | gocco.go:204 | the backward search for a separator stops at the last one before the bound, or gives -1 |
| `Paths.Ext` | gocco.go:205 | the extension is a suffix that starts at the last dot of the last element; it is empty exactly when that element has no dot |
| `Paths.DotBefore` | gocco.go:205 | the backward loop of `filepath.Ext` finds the last dot when no separator comes after it, and finds nothing when the last element has no dot |
| `Paths.LastIndex` | gocco.go:205 | `strings.LastIndex` gives the greatest position where the substring occurs, or -1 |
| `Paths.LastIndexOfSuffix` | gocco.go:205 | a suffix is found last at the end of the string, so the slice bound is never -1 |
| `Paths.Base` | gocco.go:204 | "." for the empty path, "/" for a path of separators only, and otherwise the non-empty, separator-free suffix of the path without its trailing separators that starts at its beginning or right after a separator |
| `Paths.Destination` | gocco.go:203-206 | the base name is stem + extension, and the output is "docs/" + stem + ".html"; the slice bound from `strings.LastIndex` is never -1 |
| `Paths.DestinationKeepsExtensionless` | gocco.go:203-206 | a base name without a dot is kept whole |
| `Paths.BaseHasNoSeparator` | gocco.go:204 | a path that is not only separators has a base name without separators |
| `Paths.BaseOfSeparators` | gocco.go:204 | a path made only of separators has base "/" |
| `Paths.BaseDropsDirectory` | gocco.go:204 | the base of dir/file is file |
| `Paths.DestinationDropsDirectory` | gocco.go:203-206 | dir/file is written where file is: directories are always dropped |
| `Paths.DestinationIsFlat` | gocco.go:203-206 | the output is docs/stem.html with no separator in the stem |
| `Paths.DestinationExample` | gocco.go:203-206 | src/foo.go gives the title foo.go and is written to docs/foo.html |
| `Languages.Registry` | gocco.go:265-271 | the registry has exactly one key, ".go" |
| `Languages.GetLanguage` | gocco.go:256-258 | a language is returned exactly when the extension is registered, and it is the registered one |
| `Languages.GetLanguageGo` | gocco.go:256-258 | exactly the files with extension ".go" get a language, and it is Go with symbol "//" |
| `Languages.RegisteredSymbolsArePlain` | gocco.go:270 | every registered symbol is non-empty, does not start with whitespace and has no regex metacharacter, so the compiled pattern matches it literally |
| `Languages.UnregisteredExtensionIsAbsent` | gocco.go:256-258 | "notes.txt" gets no language (see Findings) |
| `Splitter.Step` | gocco.go:146-164 | no contract of its own: one pass of the loop on the line-level state; `Splitter.ReassembleStep`, `NewlinesStep` and `ReadLine` state its properties |
| `Splitter.Scan` | gocco.go:145-165 | no contract of its own: the state after each line; `Splitter.ScanInvariant`, `ScanReassembles`, `ScanCode` and `ScanNewlines` state its properties |
| `Splitter.Blocks` | gocco.go:145-167 | no contract of its own: the emitted sections and the last one; `Splitter.SectionCount`, `SectionsReassemble`, `CodeConserved` and `Parse` state its properties |
| `Splitter.ScanInvariant` | gocco.go:145-165 | after every line: each emitted section has code; each emitted section but the first has docs; pending docs are non-empty once anything was emitted; `hasCode` holds exactly when the last line was code; one section was emitted per comment line that follows code |
| `Splitter.SectionCount` | gocco.go:149-157 | there is exactly one more section than there are comment lines directly after a code line, so always at least one |
| `Splitter.SectionsNonEmpty` | gocco.go:149-163 | every section but the last has code, and every section but the first has docs |
| `Splitter.OnlyComments` | gocco.go:147-159 | comment lines alone never flush: they give one section with no code whose docs are the stripped lines, in order |
| `Splitter.NoComments` | gocco.go:160-167 | without comment lines there is one section, with no docs and every line as code |
| `Splitter.SectionsReassemble` | gocco.go:145-165 | reading the sections in order, docs before code, gives every input line back in source order: each comment line as its docs text, each other line verbatim |
| `Splitter.ScanReassembles` | gocco.go:145-165 | the same round trip for the emitted sections followed by the pending one, after any number of lines |
| `Splitter.ReassembleStep` | gocco.go:147-164 | one more line extends the reassembled lines by exactly that line's classification |
| `Splitter.FlattenLength` | gocco.go:145-165 | the flattened sections have as many lines as the sections hold |
| `Splitter.LinesConserved` | gocco.go:145-165 | the sections hold exactly as many lines as the split input has pieces |
| `Splitter.CodeConserved` | gocco.go:160-164 | the sections' code, concatenated in order, is exactly the non-comment lines in source order |
| `Splitter.ScanCode` | gocco.go:160-164 | the same, for the emitted sections and the pending code, after any number of lines |
| `Splitter.NewlinesConserved` | gocco.go:126 | the newline-terminated lines across all sections' docs and code number the split pieces, one more than the input's newlines |
| `Splitter.ScanNewlines` | gocco.go:145-165 | the same count, after any number of lines |
| `Splitter.NewlinesStep` | gocco.go:158-163 | one more newline-free line adds exactly one newline across the sections and buffers |
| `Splitter.OneMoreLine` | gocco.go:159 | writing one newline-free line adds exactly one newline to a buffer |
| `Splitter.EmptyInput` | gocco.go:166-168 | an empty file gives exactly one section: empty docs, and code "\n" |
| `Splitter.NoCommentInput` | gocco.go:160-167 | without comments there is one section: its docs are empty and its code is the input plus "\n" |
| `Splitter.GroupingExample` | gocco.go:147-164 | two comments, code, a comment and code give two sections, split at the third comment |
| `Splitter.SlashesAndSpace` | gocco.go:158 | "// text" is a comment whose docs text is "text" |
| `Splitter.PlainCodeLine` | gocco.go:147 | a line that starts with neither whitespace nor "/" is code |
| `Splitter.WorkedExample` | gocco.go:145-168 | the lines "// Title", "// desc", "x := 1", "// more", "y := 2" give the sections (Title desc / x := 1) and (more / y := 2) |
| `Splitter.Section.constructor` | gocco.go:136-143 | `save` stores copies of both buffers and no HTML |
| `Splitter.Save` | gocco.go:136-143 | the list grows by one new section holding the two buffers, with no HTML |
| `Splitter.ReadLine` | gocco.go:146-164 | one pass of the loop: the flag, the buffers and the saved sections go on representing the scan state after the line; at most one section is saved, and it is new |
| `Splitter.Parse` | gocco.go:125-169 | one new section per block of `Blocks(Split(code))`, in order; each holds that block's docs and code lines, each followed by "\n"; the sections are distinct new objects with no HTML |
| `Highlight.Wrap` | gocco.go:197 | the code HTML is highlightStart + body + highlightEnd |
| `Highlight.SectionHtml` | gocco.go:186-199 | nothing is set exactly when tokenising fails; otherwise the docs HTML is the Markdown rendering and the code HTML is highlightStart + the formatter's output + (the raw code after a format error) + highlightEnd |
| `Highlight.HighlightSection` | gocco.go:187-198 | one pass of the loop as written: the section gets the HTML `SectionHtml` gives it, or keeps its fields when tokenising fails |
| `Highlight.Highlight` | gocco.go:186-199 | every section whose code tokenises gets the wrapped code and the rendered docs; every other section keeps both fields unchanged |
| `Highlight.UniformFallback` | gocco.go:189-198 | the corrected step always renders the docs and always wraps the code; untokenisable code appears raw inside the highlight block; wherever `highlight` as written sets the fields, both give the same values |
| `Highlight.SectionHtmlUniform` | gocco.go:189-198 | no contract of its own: the corrected HTML of one section; `Highlight.UniformFallback` states its properties |
| `Highlight.HighlightSectionUniform` | gocco.go:187-198 | one pass of the corrected loop: the section gets both fields of the uniform fallback |
| `Highlight.TokeniseFailureDropsDocs` | gocco.go:189-192 | there is a section with docs "Title\n" whose docs get no HTML at all when its lexer fails |
| `Highlight.HighlightUniform` | gocco.go:186-199 | every section gets both fields of the corrected step |
| `Render.TemplateSections` | gocco.go:213-219 | one template section per section, in order, with the same HTML and index i + 1 |
| `Render.GenerateHtml` | gocco.go:209-230 | the destination and title of the source; the template sections; the given sources; Multiple exactly when there is more than one source; the given style classes |
| `Render.AnchorsAreDistinct` | gocco.go:218 | the indices are exactly 1 to n, and no two sections share one |
| `Render.DocumentAsWritten` | gocco.go:118-120 | for a known language, block k of the split text becomes template section k + 1 with the HTML of `highlight` as written, or with both fields empty when its code does not tokenise; the page has the destination, title, sources, Multiple flag and style classes of `GenerateHtml` |
| `Render.Document` | gocco.go:118-120 | for a known language, block k of the split text becomes template section k + 1 with the corrected HTML, and the page has the destination, title, sources, Multiple flag and style classes of `GenerateHtml` |
| `Render.GenerateDocumentation` | gocco.go:113-122 | an unknown extension gives the error UnknownExtension and nothing else does; otherwise the page is the one `Document` describes, with the renderer chosen by the language name |

## Left out

- Goroutines, the `sync.WaitGroup` and `main`'s spawning and waiting. Their point is concurrency.
- File I/O (`os.ReadFile`, `os.WriteFile`, `os.MkdirAll`) and `log`. The file contents are a
  parameter of `GenerateDocumentation`; the destination and page data are its result.
- chroma, blackfriday and `text/template`. The lexer, the formatter and Markdown are the
  parameter `Renderer`. The lexer is chosen by the language name through a parameter function,
  which stands for `lexers.Get` with its fallback. The style lookup and `WriteCSS` are reduced to
  the style-class text they produce. `goccoTemplate` is not modelled; the model ends with the
  `TemplateData` it is given.
- resources.go holds only the CSS and HTML template constants and is not part of this model.
- Flag parsing and `sort.Strings`: the source list is a parameter and is taken as already sorted.
- `Splitter.Parse` takes the resolved `Language` rather than the source path.
  `GenerateDocumentation` resolves the language and passes it to `Parse` through `Document`.
- `Render.GenerateDocumentation` composes the corrected highlight step. The as-written
  composition is `Render.DocumentAsWritten`, which takes the language already resolved, since
  the as-written lookup of an unregistered extension dereferences nil (see Findings).
- The regular-expression engine: the pattern is modelled for a symbol taken literally. This is
  exact when the symbol is plain (`Comments.PlainSymbol`), and the only registered symbol, "//",
  is plain (`Languages.RegisteredSymbolsArePlain`).
- `Paths`: Unix paths only. There are no volume names and no `\` separators.
- Go's `string(bytes)` conversions in the projection and the lexer call are identities on the
  bytes. Text encoding is not modelled.
- Pointer sharing between the list elements and the `TemplateSection` pointers is not modelled.
  Template sections are values.

## Findings

| source | as written | input that shows it | evidently intended | confidence | as-written member | corrected member |
|---|---|---|---|---|---|---|
| gocco.go:189-192 | when tokenising fails, the raw code is written to a local buffer and the loop continues, so neither HTML field is set and the buffer write is dead | a section with docs "Title\n" whose lexer returns an error | render the docs anyway and wrap the raw code, as the format-error path does | medium, not executed; the chroma lexers used seldom fail; the corrected fallback writes the raw code as the format-error path does, and HTML escaping is not modelled | `Highlight.TokeniseFailureDropsDocs` | `Highlight.UniformFallback` |
| gocco.go:256-258 | `getLanguage` returns nil for an unregistered extension, and `commentMatcher` is then dereferenced | the source "notes.txt" | reject the file with an error | high, not executed | `Languages.UnregisteredExtensionIsAbsent` | `Render.GenerateDocumentation` |
