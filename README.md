# GitNarrator core, modelled in Dafny

The browser extension turns a GitHub repository into a diagram and some
explanations. This project models the two components that do that work
without any I/O.

**The mind-map builder.** `MindMap.generateMermaid` turns the `tree` array of
a recursive git-trees response into Mermaid `graph LR` text:
- one node per distinct sanitized id of a path prefix and one edge per
  distinct parent/child pair of ids;
- it skips entries that are not files or directories, that lie under an
  ignored directory, or that are deeper than three segments;
- it stops once more than `maxNodes` nodes have been declared.

**The code analyzer.** `CodeAnalyzer` has three parts:
- `analyze` dispatches on an optional AI answer and otherwise falls back to
  a heuristic explanation;
- `beginnerExplanation` and `advancedExplanation` are the two heuristic
  explanations;
- `detectArchitecture` names the repository's layout from its paths.

Modules:

- `Wrappers` holds `Option`.
- `JsText` holds the JavaScript string operations the sources use:
  - `split` and `join` (`Split`, `Join`);
  - `includes` (`Contains`);
  - `\s` and `\w` (`IsJsSpace`, `IsWordChar`);
  - ASCII `toLowerCase` (`Lower`);
  - the decimal text of a count (`Decimal`).
- `Tree` holds listing entries and the "missing listing" test.
- `MindMap` is the builder.
  - It has a functional specification of one call: `Start`, `VisitSegment`,
    `WalkPath`, `VisitEntry`, `Process`, `Build` and `Mermaid`.
  - The loop itself is the method `GenerateMermaid`, which is proved to
    compute `Mermaid`.
- `MindMapFacts` holds what the builder promises, proved about `Build`:
  - the invariant `WellFormed`;
  - no repeated declarations or edges;
  - every edge hangs from `root` or an earlier node;
  - the node budget;
  - filtering and stopping;
  - coverage of every kept entry;
  - the origin of every line;
  - the fixed opening lines.
- `MindMapScenario` is the two-file listing, traced entry by entry.
- `MindMapLabels` holds the finding about label text below: the diagram as the source prints it (`AsWrittenMermaid`) and its agreement with `MindMap.Mermaid` for `$`-free paths.
- `Patterns` holds the global regex counters `<keyword>\s+\w+`.
- `CodeAnalyzer` models `analyze` and the two explanations.
- `Architecture` models `detectArchitecture` and a rule-table reference
  definition.

## Model

| member | source | states |
|---|---|---|
| MindMap.GenerateMermaid | mindmap.js:9-74 | the loop with `break`/`continue`, the node and edge sets and the counter returns exactly the specified diagram `Mermaid(treeData, maxNodes)` |
| MindMap.AddPath | mindmap.js:40-70 | the `forEach` over one kept path leaves the statements, node set, edge set and counter exactly as the specified walk `WalkPath` from `root` does |
| MindMapFacts.MermaidShape | mindmap.js:10-26 | a missing response or missing `tree` gives exactly `graph LR\nRoot[Start Analysis]`; a present listing starts with the header, root and style lines; an empty array gives exactly those three lines |
| MindMap.Segments | mindmap.js:32 | a path splits into one more segment than it has `/` characters |
| MindMap.Sanitize | mindmap.js:43 | same length; every `-`, `.` and white-space character becomes `_`, the rest is kept; no such character remains |
| MindMap.Render | mindmap.js:58 | a declaration line is the id, two shape characters, the label verbatim and two shape characters, so the label is recoverable from the line |
| MindMapFacts.NodeIdSafe | mindmap.js:43 | every node id is free of `-`, `.` and white space |
| MindMapFacts.NodeIdExtends | mindmap.js:43 | the id of segment i+1 is the id of segment i, `_`, and the sanitized segment |
| MindMapFacts.NodeIdCollides | mindmap.js:43 | ids are not injective: `a-b`, `a.b`, `a_b` and the nested `a/b` all get id `a_b` |
| MindMapFacts.EdgeKeyInjective | mindmap.js:63 | the edge key `parent --> id` determines both ends when the parent has no blank |
| MindMapFacts.BuildWellFormed | mindmap.js:20-67 | after any listing: three fixed lines first; every id declared once; every edge once; every edge from `root` or an already declared node to an already declared node; `nodes` and `edges` are exactly the declared ids and edge keys; `count` is the number of declarations and the size of `nodes` |
| MindMapFacts.WalkPathWellFormed | mindmap.js:40-70 | walking one path from `root` or a declared node keeps all of those invariants |
| MindMapFacts.ProcessWellFormed | mindmap.js:28-71 | the outer loop keeps them from any well-formed state, whatever the listing and budget |
| MindMapFacts.DeclarationsDistinct | mindmap.js:46-61 | two declaration lines of one diagram never share an id |
| MindMapFacts.LinksDistinct | mindmap.js:63-67 | two edge lines of one diagram are never the same edge |
| MindMapFacts.NodeBudget | mindmap.js:29-60 | with `maxNodes >= 0` at most `maxNodes + 3` nodes are declared (the test only runs between entries); with a negative budget none is |
| MindMapFacts.BudgetStops | mindmap.js:29 | once a prefix of the listing has declared more than `maxNodes` nodes, the rest of the listing changes nothing |
| MindMapFacts.DroppedEntryIsInert | mindmap.js:30-37 | an entry that is not a `tree`/`blob`, has an ignored segment or more than three segments leaves the result unchanged wherever it sits in the listing |
| MindMapFacts.ProcessAppend | mindmap.js:28-71 | processing `a + b` is processing `a` and then `b` from the state `a` left |
| MindMapFacts.EntryRendered | mindmap.js:39-70 | every prefix of a kept entry reached under budget is declared, and the edge from its parent is in the edge set and among the lines |
| MindMapFacts.BuildSound | mindmap.js:42-69 | every line after the fixed three is the declaration or the edge of some segment of some kept entry; a declaration carries the segment as label and is file-shaped exactly for the last segment of a blob |
| MindMapScenario.TwoFileListing | mindmap.js:28-71 | `src/app.js` and `src/utils/helper.js` give the header lines, then `src`, `src_app_js`, `src_utils` and `src_utils_helper_js` declarations (two file-shaped) and four edges |
| MindMapScenario.TwoFileFirst | mindmap.js:39-70 | the first entry adds `src` (folder) with edge from `root` and `src_app_js` (file) with edge from `src` |
| MindMapScenario.TwoFileSecond | mindmap.js:39-70 | the second entry reuses `src` and its edge and adds only `src_utils` and `src_utils_helper_js` with their edges |
| MindMapScenario.SanitizeKeeps | mindmap.js:43 | a segment with no `-`, `.` or white space is its own id |
| MindMapLabels.AsWrittenRender | mindmap.js:58 | the source's `shape.replace(' ', label)`: labels without `$` come out as `MindMap.Render` writes them |
| MindMapLabels.AsWrittenMergesDollars | mindmap.js:58 | as written, labels `u$$v` and `u$v` are shown alike: whatever the two ids, the declaration lines agree after the id |
| MindMapLabels.DollarFreeDiagram | mindmap.js:9-74 | when no path of the listing contains `$`, the diagram the source prints, labels passed through `replace`, is exactly the modelled `Mermaid` |
| MindMapLabels.DeclareShowsLabel | mindmap.js:58 | with the label written verbatim, different labels for the same id and shape give different lines |
| JsText.JoinSplit | mindmap.js:32 | joining the pieces of a split with the separator gives the text back |
| JsText.SplitJoin | mindmap.js:32 | splitting a join of separator-free pieces gives the pieces back |
| JsText.SplitLength | code-analyzer.js:45 | `split` yields one more piece than there are separators |
| JsText.SplitLastIsSuffix | code-analyzer.js:6 | the last piece of a split is the longest separator-free suffix, preceded by the separator when shorter than the text |
| JsText.ContainsIff | code-analyzer.js:36 | `includes` holds exactly when the text occurs at some position |
| JsText.Lower | code-analyzer.js:6 | lower-casing keeps the length, maps each character and leaves no ASCII capital |
| JsText.DecimalRoundTrip | code-analyzer.js:46 | the decimal text of a count reads back as that count |
| JsText.DecimalInjective | code-analyzer.js:46 | different counts never print the same text |
| Patterns.MatchLenIsGreedyMatch | code-analyzer.js:50-52 | the match length is a match of `kw\s+\w+` and no match is longer; 0 exactly when nothing matches |
| Patterns.Count | code-analyzer.js:50-52 | each counted match uses at least the keyword plus two characters, so count times that length is at most the text length |
| Patterns.CountWithoutKeyword | code-analyzer.js:50-52 | a text without the keyword counts 0 |
| Patterns.CountSkips | code-analyzer.js:50-52 | characters that cannot start the keyword add nothing to the count |
| Patterns.CountTwo | code-analyzer.js:67 | two keyword-blank-name definitions separated by non-keyword text count 2 |
| Patterns.TwoDefinitions | code-analyzer.js:67 | `def foo():\n  pass\ndef bar():\n  pass` counts 2 `def` matches |
| CodeAnalyzer.Ext | code-analyzer.js:6 | the extension is no longer than the name, has no dot, and is the lower-cased name when there is no dot |
| CodeAnalyzer.ExtIsAfterLastDot | code-analyzer.js:6 | with a dot, the extension is the lower-cased dot-free text after the last dot |
| CodeAnalyzer.Summary | code-analyzer.js:25-33 | the table sentence starts with `This `; any extension outside `js`, `json`, `html`, `css`, `md` gets `This is a source code file.` |
| CodeAnalyzer.SummaryLacksNote | code-analyzer.js:33-38 | no table sentence already ends with the import note |
| CodeAnalyzer.BeginnerExplanation | code-analyzer.js:24-41 | the beginner text is non-empty and starts with the table sentence |
| CodeAnalyzer.BeginnerNoteIff | code-analyzer.js:33-40 | the text is the sentence alone or the sentence plus the import note, and ends with the note exactly when the content contains `import ` or `require(` |
| CodeAnalyzer.Details | code-analyzer.js:43-72 | the report opens with the file name and a line count equal to the number of `\n` plus one |
| CodeAnalyzer.AdvancedExplanation | code-analyzer.js:44 | the technical summary starts with `**File Analysis: <name>**\n\n` |
| CodeAnalyzer.AdvancedScript | code-analyzer.js:49-63 | for `js`/`ts`: the header and line count, then the script part built from the `function`, `class` and `const` counts and from whether the content contains `react` and `express` |
| CodeAnalyzer.ScriptNotes | code-analyzer.js:54-63 | the script part holds the three counts first, the React note exactly when React is detected and the Express note exactly when Express is, React before Express |
| CodeAnalyzer.AdvancedPython | code-analyzer.js:66-69 | for `py`: header, line count and the `def` count only |
| CodeAnalyzer.AdvancedOtherExtension | code-analyzer.js:44-46 | any other extension: header and line count only |
| CodeAnalyzer.LinesAtLeastOne | code-analyzer.js:45-46 | the line count is at least 1 and exactly 1 for empty content |
| CodeAnalyzer.FrameworksOnlyForScripts | code-analyzer.js:49-64 | no framework note for a non-script extension |
| CodeAnalyzer.Excerpt | code-analyzer.js:10-11 | the excerpt is a prefix of the content of at most 1000 characters, the whole content when it is that short |
| CodeAnalyzer.PromptSeesExcerpt | code-analyzer.js:9-11 | the prompt ends with the excerpt and two contents with the same first 1000 characters give the same prompt |
| CodeAnalyzer.Analyze | code-analyzer.js:5-22 | the analysis is never empty |
| CodeAnalyzer.AnalyzeDispatch | code-analyzer.js:13-21 | the result starts with `✨ AI Analysis:\n` exactly when the service gave a non-empty answer, followed by that answer; otherwise it is the beginner text for mode `beginner` and the technical summary for any other mode |
| CodeAnalyzer.AnalyzeWithoutService | code-analyzer.js:16-21 | when the service gives nothing usable the result does not depend on which silent service it was |
| Architecture.DetectArchitecture | code-analyzer.js:74-76 | `Generic Architecture` exactly when the response or its `tree` is missing |
| Architecture.Classify | code-analyzer.js:77-90 | the label is one of the five rule labels |
| Architecture.ClassifyIsFirstMatch | code-analyzer.js:78-90 | the chain of tests equals the first firing rule of the table MVC, component-based, Java, full-stack, with `Standard Modular Structure` as default |
| Architecture.ClassifyIff | code-analyzer.js:78-90 | each label is returned exactly when its rule fires and no earlier one does |
| Architecture.SamePathsSameLabel | code-analyzer.js:76-90 | listings with the same set of paths get the same label, whatever the order, repetition or entry types |
| Architecture.EmptyListingIsStandard | code-analyzer.js:75-90 | an empty `tree` array gives `Standard Modular Structure` |
| Architecture.MvcBeforeComponents | code-analyzer.js:78-83 | a listing with `models/`, `views/`, `controllers/` and `src/components` paths is MVC although the component rule also fires |

## Left out

- `github-api.js` is not part of this model. It covers network fetches, headers, rate limits and base64 decoding.
- `ai-service.js` is not part of this model. It covers key storage, the HTTP request and JSON decoding.
  - The service is the parameter `generate`, which takes the prompt and returns an optional answer.
  - Both "no answer" and the empty answer fall back, because the source tests the answer for truthiness.
- `sidepanel.js` and `ppt-generator.js` are not part of this model. They hold DOM wiring, chart and slide layout, and dates.
- The `await` in `analyze` is modelled as an ordinary call. There is no shared state to race on.
- The `sha` and `truncated` fields of a listing are never read by the core. `truncated` is carried but unused.
- `JsText.Lower`: only ASCII letters are lower-cased. Full Unicode case mapping (`toLowerCase` on `Ä`, for instance) is not modelled. None of the extensions the code compares against needs it.
- Strings are sequences of Unicode scalar values, not UTF-16 code units. `substring(0, 1000)` and `split('\n').length` are therefore counted per character.
- `JsText.IsWordChar` is `\w` without the `u` flag, `[A-Za-z0-9_]`. `JsText.IsJsSpace` lists the ECMAScript white-space and line-terminator characters explicitly.
- `CodeAnalyzer.Summary`: the table is exactly five keys. The prototype lookup of JavaScript objects, which makes `map['constructor']` truthy, is not modelled.
- `CodeAnalyzer.Analyze`: the default `mode = 'beginner'` parameter is not modelled. Every call site passes a mode (the panel's toggle value at sidepanel.js:140, `'advanced'` at ppt-generator.js:123), so the default never applies.
- `MindMap.GenerateMermaid`: the default `maxNodes = 100` is the constant `DefaultMaxNodes`. The one call site (sidepanel.js:78) omits the argument, so callers of the model pass `DefaultMaxNodes` there.
- `MindMap.GenerateMermaid`: a label is written verbatim, as `MindMap.Render` does. The source passes it through `replace`, which expands `$$`, `$&`, `` $` `` and `$'` (see Findings). So for a path containing `$` the model's diagram is the intended one, not the one the source prints. `MindMapLabels.AsWrittenMermaid` is the printed one, and `MindMapLabels.DollarFreeDiagram` proves the two equal whenever no path contains `$`.
- Behaviour of the source that the model keeps:
  - The two-file listing `src/app.js`, `src/utils/helper.js` produces 4 edges, because `root --> src` is emitted only once.
  - An empty `tree` array is truthy, so it produces the three fixed lines and not the placeholder.
  - An empty path is not skipped. It yields a node with id `""`.
  - Node ids of distinct paths can collide (`NodeIdCollides`).
  - The node budget is tested only between entries, so up to three more nodes can be declared (`NodeBudget`).
  - Edges are keyed by the text `parent --> id`.
- A top-level entry named `root` gets id `root`. It redeclares the root node and adds an edge `root --> root`. The model keeps this behaviour and proves nothing that excludes it.

## Findings

| source | as written | input that shows it | evidently intended | confidence | as-written member | corrected member |
|---|---|---|---|---|---|---|
| mindmap.js:58 | `shape.replace(' ', label)` treats the label as a replacement pattern, so `$$`, `$&`, `` $` `` and `$'` in a file or folder name are expanded | a file named `a$$b.js` is shown as `a$b.js`, the same label a file named `a$b.js` shows | the label is written verbatim between the shape brackets | not executed | MindMapLabels.AsWrittenRender | MindMap.Render |
