/**
 * A worked listing: the repository `src/app.js` + `src/utils/helper.js`
 * traced entry by entry through the diagram builder. Each step is a small
 * lemma about one segment so that no single proof unrolls the whole walk.
 */
module MindMapScenario {
  import opened JsText
  import opened Tree
  import opened MindMap
  import opened MindMapFacts
  /** A label free of the characters Mermaid cannot take is its own id. */
  lemma SanitizeKeeps(s: string)
    requires forall i :: 0 <= i < |s| ==> !Hostile(s[i])
    ensures Sanitize(s) == s
  {
  }

  /** Splitting two separator-free pieces joined by the separator gives them back. */
  lemma SplitTwo(a: string, b: string, c: char)
    requires c !in a && c !in b
    ensures Split(a + [c] + b, c) == [a, b]
  {
    SplitAppend(a, b, c);
    SplitSeparatorFree(b, c);
  }

  /** The two paths of the listing, `src/app.js` and `src/utils/helper.js`. */
  const AppPath: string := "src" + "/" + "app.js"
  const HelperPath: string := "src" + "/" + ("utils" + "/" + "helper.js")

  lemma AppSegments()
    ensures Segments(AppPath) == ["src", "app.js"]
  {
    SplitTwo("src", "app.js", '/');
  }

  lemma UtilsSegments()
    ensures Split("utils" + "/" + "helper.js", '/') == ["utils", "helper.js"]
  {
    SplitTwo("utils", "helper.js", '/');
  }

  lemma HelperSegments()
    ensures Segments(HelperPath) == ["src", "utils", "helper.js"]
  {
    UtilsSegments();
    SplitAppend("src", "utils" + "/" + "helper.js", '/');
  }

  lemma SrcNotIgnored() ensures "src" !in IgnorePatterns {}
  lemma AppJsNotIgnored() ensures "app.js" !in IgnorePatterns {}
  lemma UtilsNotIgnored() ensures "utils" !in IgnorePatterns {}
  lemma HelperJsNotIgnored() ensures "helper.js" !in IgnorePatterns {}

  lemma AppIds()
    ensures NodeId(["src", "app.js"], 0) == "src" && NodeId(["src", "app.js"], 1) == "src_app_js"
  {
    var p1 := ["src", "app.js"];
    assert p1[..1] == ["src"];
    SanitizeKeeps("src");
    var appJs := Sanitize("app.js");
    assert appJs == "app_js" by {
      assert appJs[3] == '_';
    }
    NodeIdExtends(p1, 0);
  }

  lemma HelperJsId()
    ensures Sanitize("helper.js") == "helper_js"
  {
    var helperJs := Sanitize("helper.js");
    assert helperJs[6] == '_';
  }

  lemma HelperId0()
    ensures NodeId(["src", "utils", "helper.js"], 0) == "src"
  {
    var p2 := ["src", "utils", "helper.js"];
    assert p2[..1] == ["src"];
    SanitizeKeeps("src");
  }

  lemma HelperId1()
    ensures NodeId(["src", "utils", "helper.js"], 1) == "src_utils"
  {
    HelperId0();
    SanitizeKeeps("utils");
    NodeIdExtends(["src", "utils", "helper.js"], 0);
  }

  lemma HelperId2()
    ensures NodeId(["src", "utils", "helper.js"], 2) == "src_utils_helper_js"
  {
    HelperId1();
    HelperJsId();
    NodeIdExtends(["src", "utils", "helper.js"], 1);
  }

  lemma HelperIds()
    ensures NodeId(["src", "utils", "helper.js"], 0) == "src"
    ensures NodeId(["src", "utils", "helper.js"], 1) == "src_utils"
    ensures NodeId(["src", "utils", "helper.js"], 2) == "src_utils_helper_js"
  {
    HelperId0();
    HelperId1();
    HelperId2();
  }

  lemma AppKept() ensures Kept(TreeEntry(AppPath, "blob")) {
    AppSegments();
    SrcNotIgnored();
    AppJsNotIgnored();
    var p1 := ["src", "app.js"];
    assert forall i :: 0 <= i < |p1| ==> p1[i] == "src" || p1[i] == "app.js";
  }
  lemma AppVisitSrc() ensures VisitSegment(Start(), ["src", "app.js"], true, 0, "root") == Graph(Start().syntax + [Declare("src", "src", Folder), Link("root", "src")],
                       {"src"}, {EdgeKey("root", "src")}, 1) {
    AppIds();
  }

  function AfterSrc(): Graph {
    Graph(Start().syntax + [Declare("src", "src", Folder), Link("root", "src")], {"src"}, {EdgeKey("root", "src")}, 1)
  }
  function AfterApp(): Graph {
    Graph(AfterSrc().syntax + [Declare("src_app_js", "app.js", File), Link("src", "src_app_js")],
          {"src", "src_app_js"}, {EdgeKey("root", "src"), EdgeKey("src", "src_app_js")}, 2)
  }
  lemma AppVisitFile() ensures VisitSegment(AfterSrc(), ["src", "app.js"], true, 1, "src") == AfterApp() {
    AppIds();
  }

  /** What the first entry of the worked listing adds to the fixed lines. */
  lemma TwoFileFirst()
    ensures VisitEntry(Start(), TreeEntry(AppPath, "blob")) == AfterApp()
  {
    AppKept();
    AppVisitSrc();
    AppVisitFile();
    AppSegments();
    AppIds();
    var p1 := ["src", "app.js"];
    assert WalkPath(AfterApp(), p1, true, 2, "src_app_js") == AfterApp();
    assert WalkPath(AfterSrc(), p1, true, 1, "src") == AfterApp();
    assert WalkPath(Start(), p1, true, 0, "root") == AfterApp();
  }

  function AfterUtils(): Graph {
    Graph(AfterApp().syntax + [Declare("src_utils", "utils", Folder), Link("src", "src_utils")],
          AfterApp().nodes + {"src_utils"}, AfterApp().edges + {EdgeKey("src", "src_utils")}, 3)
  }
  function AfterHelper(): Graph {
    Graph(AfterUtils().syntax + [Declare("src_utils_helper_js", "helper.js", File), Link("src_utils", "src_utils_helper_js")],
          AfterUtils().nodes + {"src_utils_helper_js"}, AfterUtils().edges + {EdgeKey("src_utils", "src_utils_helper_js")}, 4)
  }
  lemma HelperNotIgnored() ensures !Ignored(["src", "utils", "helper.js"]) {
    SrcNotIgnored();
    UtilsNotIgnored();
    HelperJsNotIgnored();
    var p2 := ["src", "utils", "helper.js"];
    assert forall i :: 0 <= i < |p2| ==> p2[i] == "src" || p2[i] == "utils" || p2[i] == "helper.js";
  }
  lemma HelperKept() ensures Kept(TreeEntry(HelperPath, "blob")) {
    HelperSegments();
    HelperNotIgnored();
  }
  lemma HelperVisitSrc() ensures VisitSegment(AfterApp(), ["src", "utils", "helper.js"], true, 0, "root") == AfterApp() {
    HelperIds();
  }
  lemma HelperVisitUtils() ensures VisitSegment(AfterApp(), ["src", "utils", "helper.js"], true, 1, "src") == AfterUtils() {
    HelperIds();
    assert "src_utils" !in AfterApp().nodes;
  }
  lemma HelperVisitFile() ensures VisitSegment(AfterUtils(), ["src", "utils", "helper.js"], true, 2, "src_utils") == AfterHelper() {
    HelperIds();
    assert "src_utils_helper_js" !in AfterUtils().nodes;
  }

  /** What the second entry adds: only the two new prefixes, since `src` and its edge exist. */
  lemma TwoFileSecond()
    ensures VisitEntry(AfterApp(), TreeEntry(HelperPath, "blob")) == AfterHelper()
  {
    HelperKept();
    HelperVisitSrc();
    HelperVisitUtils();
    HelperVisitFile();
    HelperSegments();
    HelperIds();
    var p2 := ["src", "utils", "helper.js"];
    assert WalkPath(AfterHelper(), p2, true, 3, "src_utils_helper_js") == AfterHelper();
    assert WalkPath(AfterUtils(), p2, true, 2, "src_utils") == AfterHelper();
    assert WalkPath(AfterApp(), p2, true, 1, "src") == AfterHelper();
    assert WalkPath(AfterApp(), p2, true, 0, "root") == AfterHelper();
  }

  lemma AfterHelperSyntax()
    ensures AfterHelper().syntax
         == [Header, RootNode, RootStyle,
             Declare("src", "src", Folder), Link("root", "src"),
             Declare("src_app_js", "app.js", File), Link("src", "src_app_js"),
             Declare("src_utils", "utils", Folder), Link("src", "src_utils"),
             Declare("src_utils_helper_js", "helper.js", File), Link("src_utils", "src_utils_helper_js")]
  {
  }

  lemma BuildSecondStep()
    ensures Process(AfterApp(), [TreeEntry(HelperPath, "blob")], DefaultMaxNodes) == AfterHelper()
  {
    TwoFileSecond();
    var e2 := TreeEntry(HelperPath, "blob");
    assert [e2][1..] == [];
    assert Process(AfterHelper(), [], DefaultMaxNodes) == AfterHelper();
  }

  lemma BuildFirstStep()
    ensures Build([TreeEntry(AppPath, "blob"), TreeEntry(HelperPath, "blob")], DefaultMaxNodes)
         == Process(AfterApp(), [TreeEntry(HelperPath, "blob")], DefaultMaxNodes)
  {
    TwoFileFirst();
    var e1 := TreeEntry(AppPath, "blob");
    var e2 := TreeEntry(HelperPath, "blob");
    assert [e1, e2][1..] == [e2];
  }

  /**
   * `src/app.js` and `src/utils/helper.js`, both blobs, under the default
   * budget: four nodes besides the root, two of them files, and four edges
   * forming a chain with one branch.
   */
  lemma TwoFileListing()
    ensures Build([TreeEntry(AppPath, "blob"), TreeEntry(HelperPath, "blob")], DefaultMaxNodes).syntax
         == [Header, RootNode, RootStyle,
             Declare("src", "src", Folder), Link("root", "src"),
             Declare("src_app_js", "app.js", File), Link("src", "src_app_js"),
             Declare("src_utils", "utils", Folder), Link("src", "src_utils"),
             Declare("src_utils_helper_js", "helper.js", File), Link("src_utils", "src_utils_helper_js")]
  {
    BuildFirstStep();
    BuildSecondStep();
    AfterHelperSyntax();
  }
}
