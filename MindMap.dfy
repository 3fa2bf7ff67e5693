/**
 * The Mermaid graph builder (`MindMap.generateMermaid`): it turns a recursive
 * tree listing into a left-to-right flowchart with one node per distinct
 * sanitized path prefix and one edge per distinct parent/child pair, filtered
 * and depth-limited, under a soft node budget.
 *
 * `Process` and its helpers are the specification, one step per iteration of
 * the source's loop; `GenerateMermaid` is the loop itself, proved equal to it;
 * the lemmas state what the output promises.
 */
module MindMap {
  import opened Wrappers
  import opened JsText
  import opened Tree

  /** What is returned when the response or its `tree` field is missing. */
  const Placeholder: string := "graph LR\nRoot[Start Analysis]"

  /** Directory and file names whose paths are left out of the graph. */
  const IgnorePatterns: seq<string> :=
    ["node_modules", ".git", "dist", "build", "coverage", ".vscode", "assets", "images", "test"]

  /** Paths with more segments than this are left out. */
  const MaxDepth: nat := 3

  /** The default node budget. */
  const DefaultMaxNodes: int := 100

  // ---------------------------------------------------------------------
  // Paths and identifiers

  /** The `/`-separated segments of a path; `""` has the one segment `""`. */
  function Segments(path: string): (parts: seq<string>)
    ensures |parts| == Occurrences(path, '/') + 1
  {
    SplitLength(path, '/');
    Split(path, '/')
  }

  /** Some segment is exactly one of the ignored names. */
  predicate Ignored(parts: seq<string>)
  {
    exists i :: 0 <= i < |parts| && parts[i] in IgnorePatterns
  }

  /** The entry survives the three filters of the loop. */
  predicate Kept(e: TreeEntry)
  {
    && (e.kind == "tree" || e.kind == "blob")
    && !Ignored(Segments(e.path))
    && |Segments(e.path)| <= MaxDepth
  }

  /** A character the identifier rule rewrites: `-`, `.` or `\s`. */
  predicate Hostile(c: char)
  {
    c == '-' || c == '.' || IsJsSpace(c)
  }

  /** `replace(/[\-\.\s]/g, '_')`. */
  function Sanitize(s: string): (r: string)
    ensures |r| == |s|
    ensures forall i :: 0 <= i < |s| ==> r[i] == (if Hostile(s[i]) then '_' else s[i])
    ensures forall i :: 0 <= i < |r| ==> !Hostile(r[i])
  {
    seq(|s|, i requires 0 <= i < |s| => if Hostile(s[i]) then '_' else s[i])
  }

  /** The identifier of the prefix made of segments `0..i`. */
  function NodeId(parts: seq<string>, i: nat): string
    requires i < |parts|
  {
    Sanitize(Join(parts[..i + 1], '_'))
  }

  /** The node an edge into segment `i` starts from. */
  function ParentId(parts: seq<string>, i: nat): string
    requires i < |parts|
  {
    if i == 0 then "root" else NodeId(parts, i - 1)
  }

  /** The string the source stores in its edge set and prints for an edge. */
  function EdgeKey(from: string, to: string): string
  {
    from + " --> " + to
  }

  // ---------------------------------------------------------------------
  // Statements

  datatype Shape = File | Folder

  /** One line of the diagram before rendering. */
  datatype Statement =
    | Header
    | RootNode
    | RootStyle
    | Declare(id: string, name: string, shape: Shape)
    | Link(from: string, to: string)

  /** The shape of the node for segment `i`: a file only for a blob's last segment. */
  function ShapeOf(parts: seq<string>, i: nat, isBlob: bool): Shape
  {
    if i == |parts| - 1 && isBlob then File else Folder
  }

  function Opening(shape: Shape): string
  {
    match shape
    case File => "(["
    case Folder => "{{"
  }

  function Closing(shape: Shape): string
  {
    match shape
    case File => "])"
    case Folder => "}}"
  }

  /** The text of one statement, with the label written verbatim. */
  function Render(st: Statement): (line: string)
    ensures st.Declare? ==> |line| == |st.id| + |st.name| + 4
    ensures st.Declare? ==> line[..|st.id|] == st.id && line[|st.id| + 2..|st.id| + 2 + |st.name|] == st.name
  {
    match st
    case Header => "graph LR"
    case RootNode => "root[Repository]"
    case RootStyle => "style root fill:#f9f,stroke:#333,stroke-width:2px"
    case Declare(id, name, shape) => id + Opening(shape) + name + Closing(shape)
    case Link(from, to) => EdgeKey(from, to)
  }

  function RenderAll(syntax: seq<Statement>): (lines: seq<string>)
    ensures |lines| == |syntax|
    ensures forall k :: 0 <= k < |syntax| ==> lines[k] == Render(syntax[k])
  {
    seq(|syntax|, k requires 0 <= k < |syntax| => Render(syntax[k]))
  }

  // ---------------------------------------------------------------------
  // The specification of the loop

  /** The local state of one call: `syntax`, `nodes`, `edges` and `count`. */
  datatype Graph = Graph(syntax: seq<Statement>, nodes: set<string>, edges: set<string>, count: int)

  /** The state before the first entry: the three fixed lines. */
  function Start(): Graph
  {
    Graph([Header, RootNode, RootStyle], {}, {}, 0)
  }

  /** One run of the `forEach` body, for segment `index` hung from `parent`. */
  function VisitSegment(g: Graph, parts: seq<string>, isBlob: bool, index: nat, parent: string): Graph
    requires index < |parts|
  {
    var id := NodeId(parts, index);
    var g1 :=
      if id !in g.nodes
      then Graph(g.syntax + [Declare(id, parts[index], ShapeOf(parts, index, isBlob))],
                 g.nodes + {id}, g.edges, g.count + 1)
      else g;
    var edge := EdgeKey(parent, id);
    if edge !in g1.edges
    then Graph(g1.syntax + [Link(parent, id)], g1.nodes, g1.edges + {edge}, g1.count)
    else g1
  }

  /** The `forEach` over the segments from `index` on. */
  function WalkPath(g: Graph, parts: seq<string>, isBlob: bool, index: nat, parent: string): Graph
    requires index <= |parts|
    decreases |parts| - index
  {
    if index == |parts| then g
    else WalkPath(VisitSegment(g, parts, isBlob, index, parent), parts, isBlob, index + 1, NodeId(parts, index))
  }

  /** One iteration of the outer loop once the budget test has passed. */
  function VisitEntry(g: Graph, e: TreeEntry): Graph
  {
    if !Kept(e) then g
    else WalkPath(g, Segments(e.path), e.kind == "blob", 0, "root")
  }

  /** The outer loop over the remaining entries, stopping once `count > maxNodes`. */
  function Process(g: Graph, entries: seq<TreeEntry>, maxNodes: int): Graph
    decreases |entries|
  {
    if entries == [] || g.count > maxNodes then g
    else Process(VisitEntry(g, entries[0]), entries[1..], maxNodes)
  }

  /** The statement list one call builds from a present listing. */
  function Build(entries: seq<TreeEntry>, maxNodes: int): Graph
  {
    Process(Start(), entries, maxNodes)
  }

  /** The whole result: the placeholder, or the statements joined by newlines. */
  function Mermaid(treeData: Option<TreeData>, maxNodes: int): string
  {
    match Listing(treeData)
    case None => Placeholder
    case Some(entries) => Join(RenderAll(Build(entries, maxNodes).syntax), '\n')
  }

  // ---------------------------------------------------------------------
  // The loop

  /**
   * The `forEach` over the segments of one kept path: declare each prefix
   * not yet declared and link it to its parent unless that edge exists.
   */
  method AddPath(syntax0: seq<Statement>, nodes0: set<string>, edges0: set<string>, count0: int,
                 parts: seq<string>, isBlob: bool)
    returns (syntax: seq<Statement>, nodes: set<string>, edges: set<string>, count: int)
    ensures Graph(syntax, nodes, edges, count) == WalkPath(Graph(syntax0, nodes0, edges0, count0), parts, isBlob, 0, "root")
  {
    syntax, nodes, edges, count := syntax0, nodes0, edges0, count0;
    var parent := "root";
    var index := 0;
    while index < |parts|
      invariant 0 <= index <= |parts|
      invariant WalkPath(Graph(syntax, nodes, edges, count), parts, isBlob, index, parent)
             == WalkPath(Graph(syntax0, nodes0, edges0, count0), parts, isBlob, 0, "root")
    {
      ghost var next := VisitSegment(Graph(syntax, nodes, edges, count), parts, isBlob, index, parent);
      var id := NodeId(parts, index);
      var name := parts[index];
      if id !in nodes {
        var shape;
        if index == |parts| - 1 && isBlob {
          shape := File;
        } else {
          shape := Folder;
        }
        syntax := syntax + [Declare(id, name, shape)];
        nodes := nodes + {id};
        count := count + 1;
      }
      var edge := EdgeKey(parent, id);
      if edge !in edges {
        syntax := syntax + [Link(parent, id)];
        edges := edges + {edge};
      }
      assert Graph(syntax, nodes, edges, count) == next;
      parent := id;
      index := index + 1;
    }
  }

  /** `MindMap.generateMermaid(treeData, maxNodes)`. */
  method GenerateMermaid(treeData: Option<TreeData>, maxNodes: int) returns (diagram: string)
    ensures diagram == Mermaid(treeData, maxNodes)
  {
    var listing := Listing(treeData);
    if listing.None? {
      return Placeholder;
    }
    var syntax := [Header];
    var files := listing.value;
    var nodes: set<string> := {};
    var edges: set<string> := {};
    var count := 0;
    syntax := syntax + [RootNode];
    syntax := syntax + [RootStyle];

    assert Graph(syntax, nodes, edges, count) == Start();
    assert files[0..] == files;
    var i := 0;
    while i < |files|
      invariant 0 <= i <= |files|
      invariant Process(Graph(syntax, nodes, edges, count), files[i..], maxNodes) == Build(files, maxNodes)
    {
      if count > maxNodes {
        break;
      }
      var item := files[i];
      ghost var before := Graph(syntax, nodes, edges, count);
      assert Process(before, files[i..], maxNodes) == Process(VisitEntry(before, item), files[i + 1..], maxNodes);
      i := i + 1;
      if item.kind != "tree" && item.kind != "blob" {
        continue;
      }
      var parts := Split(item.path, '/');
      if Ignored(parts) {
        continue;
      }
      if |parts| > MaxDepth {
        continue;
      }
      assert Kept(item) && parts == Segments(item.path);
      syntax, nodes, edges, count := AddPath(syntax, nodes, edges, count, parts, item.kind == "blob");
    }
    diagram := Join(RenderAll(syntax), '\n');
  }
}
