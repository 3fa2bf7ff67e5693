/**
 * The file explainer: a dispatcher that prefers an AI answer and otherwise
 * falls back to two heuristic explanations, one for beginners and one
 * technical summary.
 *
 * The AI service is a parameter `generate`: the answer, if any, it gives to
 * a prompt. Its network call and key storage are outside the model.
 */
module CodeAnalyzer {
  import opened Wrappers
  import opened JsText
  import opened Patterns

  // ---------------------------------------------------------------------
  // File extension
  // ---------------------------------------------------------------------

  /** `fileName.split('.').pop().toLowerCase()`. */
  function Ext(fileName: string): (ext: string)
    ensures |ext| <= |fileName|
    ensures '.' !in ext
    ensures '.' !in fileName ==> ext == Lower(fileName)
  {
    var pieces := Split(fileName, '.');
    SplitLastIsSuffix(fileName, '.');
    if '.' !in fileName then SplitSeparatorFree(fileName, '.'); Lower(fileName)
    else Lower(pieces[|pieces| - 1])
  }

  /**
   * The extension is the lower-cased text after the last dot: the name ends
   * with a dot followed by a dot-free text that lower-cases to `ext`.
   */
  lemma {:induction false} ExtIsAfterLastDot(fileName: string)
    requires '.' in fileName
    ensures var ext := Ext(fileName);
      exists k :: 0 <= k < |fileName| && fileName[k] == '.' && '.' !in fileName[k + 1..]
        && Lower(fileName[k + 1..]) == ext
  {
    var pieces := Split(fileName, '.');
    var last := pieces[|pieces| - 1];
    SplitLastIsSuffix(fileName, '.');
    var k := |fileName| - |last| - 1;
    assert fileName[k + 1..] == last;
  }

  // ---------------------------------------------------------------------
  // Beginner explanation
  // ---------------------------------------------------------------------

  /** Every sentence of the table, and the generic one, opens with these words. */
  const Opener: string := "This "

  const Fallback: string := Opener + OtherWords

  const ImportNote: string := "\n\nIt imports other files to work together."

  /** What the five-entry table says a file is, after "This ". */
  const JsWords: string := "is a JavaScript file. It likely adds interactivity or logic to the application."
  const JsonWords: string := "is a data file. It stores settings or information in a structured format."
  const HtmlWords: string := "is the structure of a web page."
  const CssWords: string := "file controls how the website looks (colors, fonts, etc)."
  const MdWords: string := "is a documentation file, usually explained the project."
  const OtherWords: string := "is a source code file."

  /** The table's words for an extension, or the generic words. */
  function Description(ext: string): (text: string)
    ensures ext !in {"js", "json", "html", "css", "md"} ==> text == OtherWords
  {
    match ext
    case "js" => JsWords
    case "json" => JsonWords
    case "html" => HtmlWords
    case "css" => CssWords
    case "md" => MdWords
    case _ => OtherWords
  }

  lemma OpenerStarts(rest: string)
    ensures Opener <= Opener + rest
  {
  }

  /** The sentence for an extension: the table's, or the generic one, both opening with "This ". */
  function Summary(ext: string): (sentence: string)
    ensures Opener <= sentence
    ensures ext !in {"js", "json", "html", "css", "md"} ==> sentence == Fallback
  {
    OpenerStarts(Description(ext));
    Opener + Description(ext)
  }

  lemma JsWordsEnd() ensures JsWords[|JsWords| - 2] == 'n' {}
  lemma JsonWordsEnd() ensures JsonWords[|JsonWords| - 2] == 't' {}
  lemma HtmlWordsEnd() ensures HtmlWords[|HtmlWords| - 2] == 'e' {}
  lemma CssWordsEnd() ensures CssWords[|CssWords| - 2] == ')' {}
  lemma MdWordsEnd() ensures MdWords[|MdWords| - 2] == 't' {}
  lemma OtherWordsEnd() ensures OtherWords[|OtherWords| - 2] == 'e' {}

  /** The table's words end in `n.`, `t.`, `e.` or `).`, never in `r.`. */
  lemma DescriptionEnd(ext: string)
    ensures var d := Description(ext); |d| >= 2 && d[|d| - 2] != 'r'
  {
    match ext
    case "js" => JsWordsEnd();
    case "json" => JsonWordsEnd();
    case "html" => HtmlWordsEnd();
    case "css" => CssWordsEnd();
    case "md" => MdWordsEnd();
    case _ => OtherWordsEnd();
  }

  /** No table sentence already ends like the import note. */
  lemma SummaryLacksNote(ext: string)
    ensures !EndsWith(Summary(ext), ImportNote)
  {
    var s := Summary(ext);
    var d := Description(ext);
    var k := |ImportNote| - 2;
    assert ImportNote[k] == 'r';
    DescriptionEnd(ext);
    assert s[|s| - 2] == d[|d| - 2];
    if |ImportNote| <= |s| {
      EndsWithDiffers(s, ImportNote, k);
    }
  }

  /** The text mentions another module: `import ` or `require(`. */
  predicate ImportsOthers(content: string)
  {
    Contains(content, "import ") || Contains(content, "require(")
  }

  function BeginnerExplanation(name: string, ext: string, content: string): (r: string)
    ensures |r| > 0
    ensures Summary(ext) <= r
  {
    var summary := Summary(ext);
    if ImportsOthers(content) then summary + ImportNote else summary
  }

  /**
   * The beginner text is the table sentence, and it closes with the import
   * note exactly when the content mentions an import.
   */
  lemma {:induction false} BeginnerNoteIff(name: string, ext: string, content: string)
    ensures var r := BeginnerExplanation(name, ext, content);
      (ImportsOthers(content) <==> EndsWith(r, ImportNote))
      && (r == Summary(ext) || r == Summary(ext) + ImportNote)
  {
    SummaryLacksNote(ext);
    EndsWithAppend(Summary(ext), ImportNote);
  }

  // ---------------------------------------------------------------------
  // Advanced explanation
  // ---------------------------------------------------------------------

  /** One item of the technical summary, in the order it is written. */
  datatype Detail =
    | FileHeader(name: string)
    | LinesOfCode(lines: nat)
    | Functions(n: nat)
    | Classes(n: nat)
    | Constants(n: nat)
    | ReactDetected
    | ExpressDetected
    | Definitions(n: nat)

  predicate IsScript(ext: string)
  {
    ext == "js" || ext == "ts"
  }

  /** The items the technical summary reports for a file. */
  function Details(name: string, ext: string, content: string): (ds: seq<Detail>)
    ensures |ds| >= 2 && ds[0] == FileHeader(name)
    ensures ds[1] == LinesOfCode(Occurrences(content, '\n') + 1)
  {
    SplitLength(content, '\n');
    [FileHeader(name), LinesOfCode(|Split(content, '\n')|)]
    + (if IsScript(ext) then ScriptDetails(content) else [])
    + (if ext == "py" then [Definitions(Count("def", content))] else [])
  }

  /** What a `js` or `ts` file adds: three counts, then the framework notes. */
  function ScriptDetails(content: string): seq<Detail>
  {
    ScriptItems(Count("function", content), Count("class", content), Count("const", content),
                Contains(content, "react"), Contains(content, "express"))
  }

  function ScriptItems(functions: nat, classes: nat, consts: nat, react: bool, express: bool): seq<Detail>
  {
    [Functions(functions), Classes(classes), Constants(consts)]
    + (if react then [ReactDetected] else [])
    + (if express then [ExpressDetected] else [])
  }

  function DetailText(d: Detail): string
  {
    match d
    case FileHeader(name) => "**File Analysis: " + name + "**\n\n"
    case LinesOfCode(n) => "- **Lines of Code**: " + Decimal(n) + "\n"
    case Functions(n) => "- **Functions**: " + Decimal(n) + "\n"
    case Classes(n) => "- **Classes**: " + Decimal(n) + "\n"
    case Constants(n) => "- **Constants**: " + Decimal(n) + "\n"
    case ReactDetected => "\n**Framework Detection**: React.js detected (Components, Hooks)."
    case ExpressDetected => "\n**Framework Detection**: Express.js server logic."
    case Definitions(n) => "- **Functions (def)**: " + Decimal(n) + "\n"
  }

  function Text(ds: seq<Detail>): string
  {
    if ds == [] then "" else DetailText(ds[0]) + Text(ds[1..])
  }

  function AdvancedExplanation(name: string, ext: string, content: string): (r: string)
    ensures "**File Analysis: " + name + "**\n\n" <= r
  {
    var ds := Details(name, ext, content);
    assert Text(ds) == DetailText(ds[0]) + Text(ds[1..]);
    Text(ds)
  }

  /** Neither a script nor Python: the header and the line count only. */
  lemma AdvancedOtherExtension(name: string, ext: string, content: string)
    requires !IsScript(ext) && ext != "py"
    ensures Details(name, ext, content) == [FileHeader(name), LinesOfCode(Occurrences(content, '\n') + 1)]
  {
  }

  /** A Python file gets exactly one count more: the `def` count. */
  lemma AdvancedPython(name: string, content: string)
    ensures Details(name, "py", content)
         == [FileHeader(name), LinesOfCode(Occurrences(content, '\n') + 1), Definitions(Count("def", content))]
  {
    var ds := Details(name, "py", content);
    assert !IsScript("py");
    assert |ds| == 3 && ds[2] == Definitions(Count("def", content));
  }

  /** The script part: the three counts, then the notes React first. */
  lemma ScriptNotes(functions: nat, classes: nat, consts: nat, react: bool, express: bool)
    ensures var sd := ScriptItems(functions, classes, consts, react, express);
      && sd[..3] == [Functions(functions), Classes(classes), Constants(consts)]
      && (ReactDetected in sd <==> react)
      && (ExpressDetected in sd <==> express)
      && |sd| == 3 + (if react then 1 else 0) + (if express then 1 else 0)
      && (react && express ==> sd[3] == ReactDetected && sd[4] == ExpressDetected)
  {
    var counts := [Functions(functions), Classes(classes), Constants(consts)];
    var r: seq<Detail> := if react then [ReactDetected] else [];
    var e: seq<Detail> := if express then [ExpressDetected] else [];
    var sd := ScriptItems(functions, classes, consts, react, express);
    assert sd == counts + r + e;
    assert sd[..3] == counts;
    assert ReactDetected in sd <==> ReactDetected in r;
    assert ExpressDetected in sd <==> ExpressDetected in e;
  }

  /**
   * A script's report is the header and the line count followed by the
   * script items: the three counts and the framework notes (`ScriptNotes`).
   */
  lemma AdvancedScript(name: string, ext: string, content: string)
    requires IsScript(ext)
    ensures Details(name, ext, content)
         == [FileHeader(name), LinesOfCode(Occurrences(content, '\n') + 1)]
          + ScriptItems(Count("function", content), Count("class", content), Count("const", content),
                        Contains(content, "react"), Contains(content, "express"))
  {
    var head := [FileHeader(name), LinesOfCode(|Split(content, '\n')|)];
    var items := ScriptDetails(content);
    SplitLength(content, '\n');
    assert ext != "py";
    assert Details(name, ext, content) == head + items + [];
    assert head + items + [] == head + items;
  }

  /** The line count is at least one, even for empty content. */
  lemma {:induction false} LinesAtLeastOne(name: string, ext: string, content: string)
    ensures Details(name, ext, content)[1].lines >= 1
    ensures content == "" ==> Details(name, ext, content)[1].lines == 1
  {
  }

  /**
   * The framework notes are only ever written for scripts: for any other
   * extension no framework item appears.
   */
  lemma {:induction false} FrameworksOnlyForScripts(name: string, ext: string, content: string)
    requires !IsScript(ext)
    ensures ReactDetected !in Details(name, ext, content)
    ensures ExpressDetected !in Details(name, ext, content)
  {
  }

  // ---------------------------------------------------------------------
  // Dispatcher
  // ---------------------------------------------------------------------

  /** `content.substring(0, 1000)`. */
  function Excerpt(content: string): (r: string)
    ensures |r| <= 1000 && r <= content
    ensures |content| <= 1000 ==> r == content
  {
    if |content| <= 1000 then content else content[..1000]
  }

  function Prompt(ext: string, content: string, mode: string): (prompt: string)
  {
    if mode == "beginner" then
      "Explain this " + ext + " file for a beginner student in 2-3 sentences: \n\n" + Excerpt(content)
    else
      "Provide an advanced technical summary of this " + ext + " file, highlighting patterns and logic: \n\n" + Excerpt(content)
  }

  /** The prompt ends with the excerpt, and sees nothing beyond the first 1000 characters. */
  lemma {:induction false} PromptSeesExcerpt(ext: string, c1: string, c2: string, mode: string)
    requires Excerpt(c1) == Excerpt(c2)
    ensures Prompt(ext, c1, mode) == Prompt(ext, c2, mode)
    ensures var p := Prompt(ext, c1, mode);
      |p| >= |Excerpt(c1)| && p[|p| - |Excerpt(c1)|..] == Excerpt(c1)
  {
    var p := Prompt(ext, c1, mode);
    var e := Excerpt(c1);
    if mode == "beginner" {
      var lead := "Explain this " + ext + " file for a beginner student in 2-3 sentences: \n\n";
      assert p == lead + e;
      assert p[|lead|..] == e;
    } else {
      var lead := "Provide an advanced technical summary of this " + ext + " file, highlighting patterns and logic: \n\n";
      assert p == lead + e;
      assert p[|lead|..] == e;
    }
  }

  const AiPrefix: string := "\U{2728} AI Analysis:\n"

  /** The answer is used when it is truthy: present and not the empty string. */
  predicate Answered(answer: Option<string>)
  {
    answer.Some? && answer.value != ""
  }

  function Analyze(fileName: string, content: string, mode: string, generate: string -> Option<string>): (r: string)
    ensures |r| > 0
  {
    var ext := Ext(fileName);
    var answer := generate(Prompt(ext, content, mode));
    if Answered(answer) then AiPrefix + answer.value
    else if mode == "beginner" then BeginnerExplanation(fileName, ext, content)
    else AdvancedExplanation(fileName, ext, content)
  }

  /**
   * The AI marker heads the result exactly when the service answered; then
   * the rest is the answer, and otherwise the mode picks the heuristic.
   */
  lemma {:induction false} AnalyzeDispatch(fileName: string, content: string, mode: string, generate: string -> Option<string>)
    ensures var r := Analyze(fileName, content, mode, generate);
      var answer := generate(Prompt(Ext(fileName), content, mode));
      && (AiPrefix <= r <==> Answered(answer))
      && (Answered(answer) ==> r[|AiPrefix|..] == answer.value)
      && (!Answered(answer) && mode == "beginner" ==> r == BeginnerExplanation(fileName, Ext(fileName), content))
      && (!Answered(answer) && mode != "beginner" ==> r == AdvancedExplanation(fileName, Ext(fileName), content))
  {
    var r := Analyze(fileName, content, mode, generate);
    var ext := Ext(fileName);
    var answer := generate(Prompt(ext, content, mode));
    if !Answered(answer) {
      if mode == "beginner" {
        var s := Summary(ext);
        assert s <= r;
        assert r[0] != AiPrefix[0] by {
          assert r[0] == s[0] == Opener[0];
        }
      } else {
        assert "**File Analysis: " + fileName + "**\n\n" <= r;
        assert r[0] == '*';
      }
    } else {
      assert r == AiPrefix + answer.value;
    }
  }

  /** With a silent service the result depends on the mode and the file only. */
  lemma AnalyzeWithoutService(fileName: string, content: string, mode: string, g1: string -> Option<string>, g2: string -> Option<string>)
    requires !Answered(g1(Prompt(Ext(fileName), content, mode)))
    requires !Answered(g2(Prompt(Ext(fileName), content, mode)))
    ensures Analyze(fileName, content, mode, g1) == Analyze(fileName, content, mode, g2)
  {
  }
}
