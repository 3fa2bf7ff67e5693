/**
 * What the graph builder promises, proved about its specification `Build`
 * (and so, through `GenerateMermaid`'s postcondition, about the loop).
 */
module MindMapFacts {
  import opened Wrappers
  import opened JsText
  import opened Tree
  import opened MindMap

  // ---------------------------------------------------------------------
  // Identifiers

  /** Identifiers never contain `-`, `.` or white space, and never a space. */
  lemma NodeIdSafe(parts: seq<string>, i: nat)
    requires i < |parts|
    ensures forall k :: 0 <= k < |NodeId(parts, i)| ==> !Hostile(NodeId(parts, i)[k])
    ensures ' ' !in NodeId(parts, i)
  {
  }

  /** The identifier of a longer prefix extends the shorter one by `_` and the next segment. */
  lemma NodeIdExtends(parts: seq<string>, i: nat)
    requires i + 1 < |parts|
    ensures NodeId(parts, i + 1) == NodeId(parts, i) + "_" + Sanitize(parts[i + 1])
  {
    assert parts[..i + 2] == parts[..i + 1] + [parts[i + 1]];
    JoinConcat(parts[..i + 1], [parts[i + 1]], '_');
    var a := Join(parts[..i + 1], '_');
    assert Sanitize(a + ['_'] + parts[i + 1]) == Sanitize(a) + "_" + Sanitize(parts[i + 1]);
  }

  /** Identifiers are not injective: four different paths share the identifier `a_b`. */
  lemma NodeIdCollides()
    ensures NodeId(Segments("a-b"), 0) == NodeId(Segments("a.b"), 0) == NodeId(Segments("a_b"), 0) == "a_b"
    ensures |Segments("a/b")| == 2 && NodeId(Segments("a/b"), 1) == "a_b"
  {
    OneSegment("a-b");
    OneSegment("a.b");
    OneSegment("a_b");
    SanitizeAB("a-b");
    SanitizeAB("a.b");
    SanitizeAB("a_b");
    assert "a/b" == "a" + ['/'] + "b";
    SplitAppend("a", "b", '/');
    OneSegment("b");
    var parts := Segments("a/b");
    assert parts == ["a", "b"];
    assert parts[..2] == ["a", "b"];
    assert Join(["a", "b"], '_') == "a" + ['_'] + Join(["b"], '_');
    SanitizeAB("a_b");
  }

  lemma SanitizeAB(s: string)
    requires |s| == 3 && s[0] == 'a' && s[2] == 'b' && (Hostile(s[1]) || s[1] == '_')
    ensures Sanitize(s) == "a_b"
  {
    var r := Sanitize(s);
    assert r[0] == 'a' && r[1] == '_' && r[2] == 'b';
  }

  /** A path without `/` is one segment, whose identifier is the sanitized path. */
  lemma OneSegment(path: string)
    requires '/' !in path
    ensures Segments(path) == [path]
    ensures NodeId([path], 0) == Sanitize(path)
  {
    SplitSeparatorFree(path, '/');
    assert [path][..1] == [path];
  }

  /** The edge text determines its two ends when the source end has no space. */
  lemma EdgeKeyInjective(a1: string, b1: string, a2: string, b2: string)
    requires ' ' !in a1 && ' ' !in a2
    requires EdgeKey(a1, b1) == EdgeKey(a2, b2)
    ensures a1 == a2 && b1 == b2
  {
    var key := EdgeKey(a1, b1);
    assert forall j :: 0 <= j < |a1| ==> key[j] == a1[j];
    assert forall j :: 0 <= j < |a2| ==> key[j] == a2[j];
    assert key[|a1|] == ' ' && key[|a2|] == ' ';
    assert |a1| == |a2|;
    assert a1 == key[..|a1|] == a2;
    assert b1 == key[|a1| + 5..] == b2;
  }

  // ---------------------------------------------------------------------
  // What a statement list has declared and linked so far

  function DeclaredIds(s: seq<Statement>): set<string>
    decreases |s|
  {
    if s == [] then {}
    else DeclaredIds(s[..|s| - 1]) + (if s[|s| - 1].Declare? then {s[|s| - 1].id} else {})
  }

  function LinkKeys(s: seq<Statement>): set<string>
    decreases |s|
  {
    if s == [] then {}
    else LinkKeys(s[..|s| - 1]) + (if s[|s| - 1].Link? then {EdgeKey(s[|s| - 1].from, s[|s| - 1].to)} else {})
  }

  /** The number of node-declaration lines. */
  function DeclCount(s: seq<Statement>): nat
    decreases |s|
  {
    if s == [] then 0
    else DeclCount(s[..|s| - 1]) + (if s[|s| - 1].Declare? then 1 else 0)
  }

  /** The three fixed lines come first; every later line declares a node or an edge. */
  predicate Framed(s: seq<Statement>)
  {
    && |s| >= 3 && s[..3] == [Header, RootNode, RootStyle]
    && forall k :: 3 <= k < |s| ==> s[k].Declare? || s[k].Link?
  }

  /** No identifier is declared twice: each declaration is new to the lines before it. */
  predicate DeclsFresh(s: seq<Statement>)
    decreases |s|
  {
    s == [] ||
    (DeclsFresh(s[..|s| - 1]) &&
     (s[|s| - 1].Declare? ==> s[|s| - 1].id !in DeclaredIds(s[..|s| - 1])))
  }

  /** No edge text is emitted twice. */
  predicate LinksFresh(s: seq<Statement>)
    decreases |s|
  {
    s == [] ||
    (LinksFresh(s[..|s| - 1]) &&
     (s[|s| - 1].Link? ==> EdgeKey(s[|s| - 1].from, s[|s| - 1].to) !in LinkKeys(s[..|s| - 1])))
  }

  /** Every edge leaves `root` or an earlier declared node and enters an earlier declared node. */
  predicate LinksOrdered(s: seq<Statement>)
    decreases |s|
  {
    s == [] ||
    (LinksOrdered(s[..|s| - 1]) &&
     (s[|s| - 1].Link? ==>
        (s[|s| - 1].from == "root" || s[|s| - 1].from in DeclaredIds(s[..|s| - 1]))
        && s[|s| - 1].to in DeclaredIds(s[..|s| - 1])))
  }

  /** Edge ends carry no space, so an edge text names one pair. */
  predicate LinksSpaceFree(s: seq<Statement>)
    decreases |s|
  {
    s == [] ||
    (LinksSpaceFree(s[..|s| - 1]) &&
     (s[|s| - 1].Link? ==> ' ' !in s[|s| - 1].from && ' ' !in s[|s| - 1].to))
  }

  /** The invariant of the loop: the sets and the counter mirror the emitted lines. */
  predicate WellFormed(g: Graph)
  {
    && Framed(g.syntax)
    && DeclsFresh(g.syntax)
    && LinksFresh(g.syntax)
    && LinksOrdered(g.syntax)
    && LinksSpaceFree(g.syntax)
    && g.nodes == DeclaredIds(g.syntax)
    && g.edges == LinkKeys(g.syntax)
    && g.count == DeclCount(g.syntax) == |g.nodes|
  }

  lemma PrefixesOfSnoc(s: seq<Statement>, x: Statement)
    ensures (s + [x])[..|s|] == s
    ensures forall k :: 0 <= k <= |s| ==> (s + [x])[..k] == s[..k]
    ensures DeclaredIds(s + [x]) == DeclaredIds(s) + (if x.Declare? then {x.id} else {})
    ensures LinkKeys(s + [x]) == LinkKeys(s) + (if x.Link? then {EdgeKey(x.from, x.to)} else {})
    ensures DeclCount(s + [x]) == DeclCount(s) + (if x.Declare? then 1 else 0)
  {
    assert (s + [x])[..|s|] == s;
  }

  lemma FramedSnoc(s: seq<Statement>, x: Statement)
    requires Framed(s) && (x.Declare? || x.Link?)
    ensures Framed(s + [x])
  {
    assert (s + [x])[..3] == s[..3];
  }

  lemma DeclsFreshSnoc(s: seq<Statement>, x: Statement)
    requires DeclsFresh(s)
    requires x.Declare? ==> x.id !in DeclaredIds(s)
    ensures DeclsFresh(s + [x])
  {
    assert (s + [x])[..|s|] == s;
  }

  lemma LinksFreshSnoc(s: seq<Statement>, x: Statement)
    requires LinksFresh(s)
    requires x.Link? ==> EdgeKey(x.from, x.to) !in LinkKeys(s)
    ensures LinksFresh(s + [x])
  {
    assert (s + [x])[..|s|] == s;
  }

  lemma LinksOrderedSnoc(s: seq<Statement>, x: Statement)
    requires LinksOrdered(s)
    requires x.Link? ==> (x.from == "root" || x.from in DeclaredIds(s)) && x.to in DeclaredIds(s)
    ensures LinksOrdered(s + [x])
  {
    assert (s + [x])[..|s|] == s;
  }

  lemma LinksSpaceFreeSnoc(s: seq<Statement>, x: Statement)
    requires LinksSpaceFree(s)
    requires x.Link? ==> ' ' !in x.from && ' ' !in x.to
    ensures LinksSpaceFree(s + [x])
  {
    assert (s + [x])[..|s|] == s;
  }

  lemma PushDeclare(g: Graph, id: string, name: string, shape: Shape)
    requires WellFormed(g) && id !in g.nodes
    ensures WellFormed(Graph(g.syntax + [Declare(id, name, shape)], g.nodes + {id}, g.edges, g.count + 1))
  {
    var x := Declare(id, name, shape);
    PrefixesOfSnoc(g.syntax, x);
    FramedSnoc(g.syntax, x);
    DeclsFreshSnoc(g.syntax, x);
    LinksFreshSnoc(g.syntax, x);
    LinksOrderedSnoc(g.syntax, x);
    LinksSpaceFreeSnoc(g.syntax, x);
    assert |g.nodes + {id}| == |g.nodes| + 1;
  }

  lemma PushLink(g: Graph, from: string, to: string)
    requires WellFormed(g) && EdgeKey(from, to) !in g.edges
    requires from == "root" || from in g.nodes
    requires to in g.nodes
    requires ' ' !in from && ' ' !in to
    ensures WellFormed(Graph(g.syntax + [Link(from, to)], g.nodes, g.edges + {EdgeKey(from, to)}, g.count))
  {
    var x := Link(from, to);
    PrefixesOfSnoc(g.syntax, x);
    FramedSnoc(g.syntax, x);
    DeclsFreshSnoc(g.syntax, x);
    LinksFreshSnoc(g.syntax, x);
    LinksOrderedSnoc(g.syntax, x);
    LinksSpaceFreeSnoc(g.syntax, x);
  }

  /** A fixed line neither declares nor links, so the four conditions carry over. */
  lemma FixedLineSnoc(s: seq<Statement>, x: Statement)
    requires DeclsFresh(s) && LinksFresh(s) && LinksOrdered(s) && LinksSpaceFree(s)
    requires !x.Declare? && !x.Link?
    ensures DeclsFresh(s + [x]) && LinksFresh(s + [x]) && LinksOrdered(s + [x]) && LinksSpaceFree(s + [x])
    ensures DeclaredIds(s + [x]) == DeclaredIds(s) && LinkKeys(s + [x]) == LinkKeys(s)
    ensures DeclCount(s + [x]) == DeclCount(s)
  {
    PrefixesOfSnoc(s, x);
    DeclsFreshSnoc(s, x);
    LinksFreshSnoc(s, x);
    LinksOrderedSnoc(s, x);
    LinksSpaceFreeSnoc(s, x);
  }

  lemma StartWellFormed()
    ensures WellFormed(Start())
  {
    var s0: seq<Statement> := [];
    var s1, s2, s3 := [Header], [Header, RootNode], [Header, RootNode, RootStyle];
    FixedLineSnoc(s0, Header);
    assert s0 + [Header] == s1;
    FixedLineSnoc(s1, RootNode);
    assert s1 + [RootNode] == s2;
    FixedLineSnoc(s2, RootStyle);
    assert s2 + [RootStyle] == s3 == Start().syntax;
    assert Framed(s3) by {
      assert s3[..3] == s3;
    }
  }

  /** The first half of a segment visit: declare the node if it is new. */
  function DeclareStep(g: Graph, parts: seq<string>, isBlob: bool, index: nat): Graph
    requires index < |parts|
  {
    var id := NodeId(parts, index);
    if id !in g.nodes
    then Graph(g.syntax + [Declare(id, parts[index], ShapeOf(parts, index, isBlob))], g.nodes + {id}, g.edges, g.count + 1)
    else g
  }

  /** The second half: add the edge if it is new. */
  function LinkStep(g: Graph, from: string, to: string): Graph
  {
    if EdgeKey(from, to) !in g.edges
    then Graph(g.syntax + [Link(from, to)], g.nodes, g.edges + {EdgeKey(from, to)}, g.count)
    else g
  }

  lemma VisitSegmentSplits(g: Graph, parts: seq<string>, isBlob: bool, index: nat, parent: string)
    requires index < |parts|
    ensures VisitSegment(g, parts, isBlob, index, parent)
         == LinkStep(DeclareStep(g, parts, isBlob, index), parent, NodeId(parts, index))
  {
  }

  lemma DeclareStepWellFormed(g: Graph, parts: seq<string>, isBlob: bool, index: nat)
    requires WellFormed(g) && index < |parts|
    ensures var g1 := DeclareStep(g, parts, isBlob, index);
      WellFormed(g1) && NodeId(parts, index) in g1.nodes && g.nodes <= g1.nodes
  {
    var id := NodeId(parts, index);
    if id !in g.nodes {
      var shape := ShapeOf(parts, index, isBlob);
      PushDeclare(g, id, parts[index], shape);
      assert DeclareStep(g, parts, isBlob, index)
          == Graph(g.syntax + [Declare(id, parts[index], shape)], g.nodes + {id}, g.edges, g.count + 1);
    } else {
      assert DeclareStep(g, parts, isBlob, index) == g;
    }
  }

  lemma LinkStepWellFormed(g: Graph, from: string, to: string)
    requires WellFormed(g)
    requires from == "root" || from in g.nodes
    requires to in g.nodes
    requires ' ' !in from && ' ' !in to
    ensures WellFormed(LinkStep(g, from, to))
  {
    if EdgeKey(from, to) !in g.edges {
      PushLink(g, from, to);
      assert LinkStep(g, from, to)
          == Graph(g.syntax + [Link(from, to)], g.nodes, g.edges + {EdgeKey(from, to)}, g.count);
    } else {
      assert LinkStep(g, from, to) == g;
    }
  }

  lemma VisitSegmentWellFormed(g: Graph, parts: seq<string>, isBlob: bool, index: nat, parent: string)
    requires WellFormed(g) && index < |parts|
    requires parent == "root" || parent in g.nodes
    requires ' ' !in parent
    ensures WellFormed(VisitSegment(g, parts, isBlob, index, parent))
    ensures NodeId(parts, index) in VisitSegment(g, parts, isBlob, index, parent).nodes
    ensures ' ' !in NodeId(parts, index)
  {
    NodeIdSafe(parts, index);
    VisitSegmentSplits(g, parts, isBlob, index, parent);
    DeclareStepWellFormed(g, parts, isBlob, index);
    LinkStepWellFormed(DeclareStep(g, parts, isBlob, index), parent, NodeId(parts, index));
  }

  lemma WalkPathStep(g: Graph, parts: seq<string>, isBlob: bool, index: nat, parent: string)
    requires index < |parts|
    ensures WalkPath(g, parts, isBlob, index, parent)
         == WalkPath(VisitSegment(g, parts, isBlob, index, parent), parts, isBlob, index + 1, NodeId(parts, index))
  {
  }

  /**
   * Induction over the segment walk: a property of the state and the current
   * parent that every segment visit keeps holds of the walk's final state.
   */
  lemma {:induction false} WalkPathKeeps(inv: (Graph, string) -> bool, g: Graph, parts: seq<string>, isBlob: bool,
                                         index: nat, parent: string)
    requires index <= |parts| && inv(g, parent)
    requires forall h, i: nat, p :: i < |parts| && inv(h, p) ==> inv(VisitSegment(h, parts, isBlob, i, p), NodeId(parts, i))
    ensures exists p :: inv(WalkPath(g, parts, isBlob, index, parent), p)
    decreases |parts| - index
  {
    if index < |parts| {
      var next, id := VisitSegment(g, parts, isBlob, index, parent), NodeId(parts, index);
      WalkPathKeeps(inv, next, parts, isBlob, index + 1, id);
      var p :| inv(WalkPath(next, parts, isBlob, index + 1, id), p);
      assert WalkPath(g, parts, isBlob, index, parent) == WalkPath(next, parts, isBlob, index + 1, id);
    } else {
      assert inv(WalkPath(g, parts, isBlob, index, parent), parent);
    }
  }

  lemma WalkPathWellFormed(g: Graph, parts: seq<string>, isBlob: bool, index: nat, parent: string)
    requires WellFormed(g) && index <= |parts|
    requires parent == "root" || parent in g.nodes
    requires ' ' !in parent
    ensures WellFormed(WalkPath(g, parts, isBlob, index, parent))
  {
    var inv := (h: Graph, p: string) => WellFormed(h) && (p == "root" || p in h.nodes) && ' ' !in p;
    forall h, i: nat, p | i < |parts| && inv(h, p)
      ensures inv(VisitSegment(h, parts, isBlob, i, p), NodeId(parts, i))
    {
      VisitSegmentWellFormed(h, parts, isBlob, i, p);
    }
    WalkPathKeeps(inv, g, parts, isBlob, index, parent);
    var p :| inv(WalkPath(g, parts, isBlob, index, parent), p);
  }

  /** One entry keeps the invariant. */
  lemma VisitEntryWellFormed(g: Graph, e: TreeEntry)
    requires WellFormed(g)
    ensures WellFormed(VisitEntry(g, e))
  {
    if Kept(e) {
      WalkPathWellFormed(g, Segments(e.path), e.kind == "blob", 0, "root");
    }
  }

  /** The outer loop keeps any property that every entry keeps. */
  lemma {:induction false} ProcessKeeps(inv: Graph -> bool, g: Graph, entries: seq<TreeEntry>, maxNodes: int)
    requires inv(g)
    requires forall h, e :: inv(h) ==> inv(VisitEntry(h, e))
    ensures inv(Process(g, entries, maxNodes))
    decreases |entries|
  {
    if entries != [] && g.count <= maxNodes {
      ProcessKeeps(inv, VisitEntry(g, entries[0]), entries[1..], maxNodes);
    }
  }

  lemma ProcessWellFormed(g: Graph, entries: seq<TreeEntry>, maxNodes: int)
    requires WellFormed(g)
    ensures WellFormed(Process(g, entries, maxNodes))
  {
    forall h, e | WellFormed(h)
      ensures WellFormed(VisitEntry(h, e))
    {
      VisitEntryWellFormed(h, e);
    }
    ProcessKeeps(h => WellFormed(h), g, entries, maxNodes);
  }

  /**
   * The statements of every call begin with the three fixed lines; no
   * identifier is declared twice; no edge text is emitted twice; every edge
   * leaves `root` or an earlier declared node and enters a node declared
   * before it; `nodes` and `edges` hold exactly what was emitted; and
   * `count` equals both the number of declarations and the size of `nodes`.
   */
  lemma BuildWellFormed(entries: seq<TreeEntry>, maxNodes: int)
    ensures WellFormed(Build(entries, maxNodes))
  {
    StartWellFormed();
    ProcessWellFormed(Start(), entries, maxNodes);
  }

  // ---------------------------------------------------------------------
  // Corollaries of the invariant, stated on the statements themselves

  lemma {:induction false} DeclaredIdsHas(s: seq<Statement>, k: nat, j: nat)
    requires k < j <= |s| && s[k].Declare?
    ensures s[k].id in DeclaredIds(s[..j])
    decreases j
  {
    assert s[..j][..j - 1] == s[..j - 1];
    if k < j - 1 {
      DeclaredIdsHas(s, k, j - 1);
    }
  }

  lemma {:induction false} LinkKeysHas(s: seq<Statement>, k: nat, j: nat)
    requires k < j <= |s| && s[k].Link?
    ensures EdgeKey(s[k].from, s[k].to) in LinkKeys(s[..j])
    decreases j
  {
    assert s[..j][..j - 1] == s[..j - 1];
    if k < j - 1 {
      LinkKeysHas(s, k, j - 1);
    }
  }

  /** The statement at `k` and the lines before it, read off the last line's view. */
  lemma PrefixOfInit(s: seq<Statement>, k: nat)
    requires k < |s| - 1
    ensures s[..|s| - 1][k] == s[k] && s[..|s| - 1][..k] == s[..k]
  {
  }

  lemma {:induction false} DeclsFreshAt(s: seq<Statement>, k: nat)
    requires DeclsFresh(s) && k < |s| && s[k].Declare?
    ensures s[k].id !in DeclaredIds(s[..k])
    decreases |s|
  {
    if k < |s| - 1 {
      PrefixOfInit(s, k);
      DeclsFreshAt(s[..|s| - 1], k);
    }
  }

  lemma {:induction false} LinksFreshAt(s: seq<Statement>, k: nat)
    requires LinksFresh(s) && k < |s| && s[k].Link?
    ensures EdgeKey(s[k].from, s[k].to) !in LinkKeys(s[..k])
    decreases |s|
  {
    if k < |s| - 1 {
      PrefixOfInit(s, k);
      LinksFreshAt(s[..|s| - 1], k);
    }
  }

  lemma {:induction false} LinksOrderedAt(s: seq<Statement>, k: nat)
    requires LinksOrdered(s) && k < |s| && s[k].Link?
    ensures s[k].from == "root" || s[k].from in DeclaredIds(s[..k])
    ensures s[k].to in DeclaredIds(s[..k])
    decreases |s|
  {
    if k < |s| - 1 {
      PrefixOfInit(s, k);
      LinksOrderedAt(s[..|s| - 1], k);
    }
  }

  lemma {:induction false} LinksSpaceFreeAt(s: seq<Statement>, k: nat)
    requires LinksSpaceFree(s) && k < |s| && s[k].Link?
    ensures ' ' !in s[k].from && ' ' !in s[k].to
    decreases |s|
  {
    if k < |s| - 1 {
      PrefixOfInit(s, k);
      LinksSpaceFreeAt(s[..|s| - 1], k);
    }
  }

  /** Two node declarations of one call never share an identifier. */
  lemma DeclarationsDistinct(entries: seq<TreeEntry>, maxNodes: int, k1: nat, k2: nat)
    requires var s := Build(entries, maxNodes).syntax;
      k1 < k2 < |s| && s[k1].Declare? && s[k2].Declare?
    ensures Build(entries, maxNodes).syntax[k1].id != Build(entries, maxNodes).syntax[k2].id
  {
    BuildWellFormed(entries, maxNodes);
    DeclsFreshAt(Build(entries, maxNodes).syntax, k2);
    DeclaredIdsHas(Build(entries, maxNodes).syntax, k1, k2);
  }

  /** Two edges of one call never join the same pair of nodes. */
  lemma LinksDistinct(entries: seq<TreeEntry>, maxNodes: int, k1: nat, k2: nat)
    requires var s := Build(entries, maxNodes).syntax;
      k1 < k2 < |s| && s[k1].Link? && s[k2].Link?
    ensures Build(entries, maxNodes).syntax[k1] != Build(entries, maxNodes).syntax[k2]
  {
    BuildWellFormed(entries, maxNodes);
    LinksFreshAt(Build(entries, maxNodes).syntax, k2);
    LinkKeysHas(Build(entries, maxNodes).syntax, k1, k2);
  }

  /** An edge text in `edges` was emitted as exactly that pair. */
  lemma {:induction false} LinkKeyListed(s: seq<Statement>, from: string, to: string)
    requires LinksSpaceFree(s) && ' ' !in from
    requires EdgeKey(from, to) in LinkKeys(s)
    ensures Link(from, to) in s
    decreases |s|
  {
    var last := s[|s| - 1];
    var init := s[..|s| - 1];
    if last.Link? && EdgeKey(last.from, last.to) == EdgeKey(from, to) {
      EdgeKeyInjective(last.from, last.to, from, to);
      assert s[|s| - 1] == Link(from, to);
    } else {
      LinkKeyListed(init, from, to);
      var k :| 0 <= k < |init| && init[k] == Link(from, to);
      assert s[k] == Link(from, to);
    }
  }

  // ---------------------------------------------------------------------
  // Growth and the node budget

  /** The state only grows, and the counter by at most one per segment. */
  lemma {:induction false} WalkPathGrows(g: Graph, parts: seq<string>, isBlob: bool, index: nat, parent: string)
    requires index <= |parts|
    ensures var h := WalkPath(g, parts, isBlob, index, parent);
      && g.nodes <= h.nodes && g.edges <= h.edges && g.syntax <= h.syntax
      && g.count <= h.count <= g.count + (|parts| - index)
    decreases |parts| - index
  {
    if index < |parts| {
      WalkPathGrows(VisitSegment(g, parts, isBlob, index, parent), parts, isBlob, index + 1, NodeId(parts, index));
    }
  }

  lemma {:induction false} ProcessGrows(g: Graph, entries: seq<TreeEntry>, maxNodes: int)
    ensures var h := Process(g, entries, maxNodes);
      g.nodes <= h.nodes && g.edges <= h.edges && g.syntax <= h.syntax && g.count <= h.count
    decreases |entries|
  {
    if entries != [] && g.count <= maxNodes {
      var e := entries[0];
      if Kept(e) {
        WalkPathGrows(g, Segments(e.path), e.kind == "blob", 0, "root");
      }
      ProcessGrows(VisitEntry(g, e), entries[1..], maxNodes);
    }
  }

  lemma {:induction false} ProcessBudget(g: Graph, entries: seq<TreeEntry>, maxNodes: int)
    requires g.count <= maxNodes + MaxDepth || g.count == 0
    ensures var h := Process(g, entries, maxNodes);
      h.count <= maxNodes + MaxDepth || h.count == g.count
    decreases |entries|
  {
    if entries != [] && g.count <= maxNodes {
      var e := entries[0];
      if Kept(e) {
        WalkPathGrows(g, Segments(e.path), e.kind == "blob", 0, "root");
      }
      ProcessBudget(VisitEntry(g, e), entries[1..], maxNodes);
    }
  }

  /**
   * The budget is soft: it is tested once per entry, so the final count can
   * pass `maxNodes` by at most the three segments of the last kept entry; a
   * negative budget stops the loop before the first entry.
   */
  lemma NodeBudget(entries: seq<TreeEntry>, maxNodes: int)
    ensures maxNodes >= 0 ==> Build(entries, maxNodes).count <= maxNodes + 3
    ensures maxNodes < 0 ==> Build(entries, maxNodes).count == 0
  {
    ProcessBudget(Start(), entries, maxNodes);
  }

  // ---------------------------------------------------------------------
  // Filtering and stopping

  lemma {:induction false} ProcessAppend(g: Graph, a: seq<TreeEntry>, b: seq<TreeEntry>, maxNodes: int)
    ensures Process(g, a + b, maxNodes) == Process(Process(g, a, maxNodes), b, maxNodes)
    decreases |a|
  {
    if a == [] {
      assert a + b == b;
    } else if g.count <= maxNodes {
      assert (a + b)[1..] == a[1..] + b;
      ProcessAppend(VisitEntry(g, a[0]), a[1..], b, maxNodes);
    } else {
      assert Process(g, b, maxNodes) == g by {
        if b != [] {}
      }
    }
  }

  /**
   * An entry of another type, under an ignored directory or deeper than
   * three segments contributes no statement and leaves the counter alone:
   * removing it from the listing does not change the result.
   */
  lemma DroppedEntryIsInert(a: seq<TreeEntry>, e: TreeEntry, b: seq<TreeEntry>, maxNodes: int)
    requires !Kept(e)
    ensures Build(a + [e] + b, maxNodes) == Build(a + b, maxNodes)
  {
    var ga := Process(Start(), a, maxNodes);
    ProcessAppend(Start(), a + [e], b, maxNodes);
    ProcessAppend(Start(), a, [e], maxNodes);
    ProcessAppend(Start(), a, b, maxNodes);
    assert Process(ga, [e], maxNodes) == ga by {
      assert [e][1..] == [];
    }
  }

  /** Once the counter has passed the budget, the remaining entries are not read. */
  lemma BudgetStops(entries: seq<TreeEntry>, k: nat, maxNodes: int)
    requires k <= |entries|
    requires Build(entries[..k], maxNodes).count > maxNodes
    ensures Build(entries, maxNodes) == Build(entries[..k], maxNodes)
  {
    assert entries == entries[..k] + entries[k..];
    ProcessAppend(Start(), entries[..k], entries[k..], maxNodes);
  }

  /**
   * Every kept entry read before the budget ran out has a node for each of
   * its prefixes and an edge from each prefix's parent (`root` for the first
   * segment) to it, in the final sets and as statements.
   */
  lemma EntryRendered(entries: seq<TreeEntry>, k: nat, maxNodes: int)
    requires k < |entries| && Kept(entries[k])
    requires Build(entries[..k], maxNodes).count <= maxNodes
    ensures var parts := Segments(entries[k].path);
      var h := Build(entries, maxNodes);
      forall j :: 0 <= j < |parts| ==>
        && NodeId(parts, j) in h.nodes
        && EdgeKey(ParentId(parts, j), NodeId(parts, j)) in h.edges
        && Link(ParentId(parts, j), NodeId(parts, j)) in h.syntax
  {
    EntryCovered(entries, k, maxNodes);
    BuildWellFormed(entries, maxNodes);
    LinksListed(Build(entries, maxNodes), Segments(entries[k].path));
  }

  lemma EntryCovered(entries: seq<TreeEntry>, k: nat, maxNodes: int)
    requires k < |entries| && Kept(entries[k])
    requires Build(entries[..k], maxNodes).count <= maxNodes
    ensures var parts := Segments(entries[k].path);
      var h := Build(entries, maxNodes);
      forall j :: 0 <= j < |parts| ==>
        NodeId(parts, j) in h.nodes && EdgeKey(ParentId(parts, j), NodeId(parts, j)) in h.edges
  {
    var e := entries[k];
    var gk := Build(entries[..k], maxNodes);
    assert entries == entries[..k] + entries[k..];
    ProcessAppend(Start(), entries[..k], entries[k..], maxNodes);
    assert entries[k..][0] == e && entries[k..][1..] == entries[k + 1..];
    var w := VisitEntry(gk, e);
    assert Build(entries, maxNodes) == Process(w, entries[k + 1..], maxNodes);
    WalkPathCovers(gk, Segments(e.path), e.kind == "blob", 0, "root");
    ProcessGrows(w, entries[k + 1..], maxNodes);
  }

  lemma LinksListed(h: Graph, parts: seq<string>)
    requires WellFormed(h)
    requires forall j :: 0 <= j < |parts| ==> EdgeKey(ParentId(parts, j), NodeId(parts, j)) in h.edges
    ensures forall j :: 0 <= j < |parts| ==> Link(ParentId(parts, j), NodeId(parts, j)) in h.syntax
  {
    forall j | 0 <= j < |parts|
      ensures Link(ParentId(parts, j), NodeId(parts, j)) in h.syntax
    {
      if j > 0 {
        NodeIdSafe(parts, j - 1);
      }
      LinkKeyListed(h.syntax, ParentId(parts, j), NodeId(parts, j));
    }
  }

  lemma {:induction false} WalkPathCovers(g: Graph, parts: seq<string>, isBlob: bool, index: nat, parent: string)
    requires index <= |parts|
    requires index == |parts| || parent == ParentId(parts, index)
    ensures var h := WalkPath(g, parts, isBlob, index, parent);
      forall j :: index <= j < |parts| ==>
        NodeId(parts, j) in h.nodes && EdgeKey(ParentId(parts, j), NodeId(parts, j)) in h.edges
    decreases |parts| - index
  {
    if index < |parts| {
      var v := VisitSegment(g, parts, isBlob, index, parent);
      WalkPathCovers(v, parts, isBlob, index + 1, NodeId(parts, index));
      WalkPathGrows(v, parts, isBlob, index + 1, NodeId(parts, index));
    }
  }

  // ---------------------------------------------------------------------
  // Where every statement comes from

  /** Statement `st` is the declaration or the edge for segment `i` of kept entry `e`. */
  predicate Explains(e: TreeEntry, i: int, st: Statement)
  {
    var parts := Segments(e.path);
    && Kept(e) && 0 <= i < |parts|
    && match st
       case Declare(id, name, shape) =>
         id == NodeId(parts, i) && name == parts[i] && shape == ShapeOf(parts, i, e.kind == "blob")
       case Link(from, to) => from == ParentId(parts, i) && to == NodeId(parts, i)
       case _ => false
  }

  /** Some kept entry of `source` explains `st`. */
  ghost predicate Explained(source: seq<TreeEntry>, st: Statement)
  {
    exists e, i :: e in source && Explains(e, i, st)
  }

  /** Every line after the fixed three is explained by some entry of `source`. */
  ghost predicate FromEntries(s: seq<Statement>, source: seq<TreeEntry>)
  {
    forall k :: 3 <= k < |s| ==> Explained(source, s[k])
  }

  lemma {:induction false} WalkPathSound(g: Graph, e: TreeEntry, source: seq<TreeEntry>, index: nat, parent: string)
    requires e in source && Kept(e)
    requires |g.syntax| >= 3 && FromEntries(g.syntax, source)
    requires index <= |Segments(e.path)|
    requires index == |Segments(e.path)| || parent == ParentId(Segments(e.path), index)
    ensures FromEntries(WalkPath(g, Segments(e.path), e.kind == "blob", index, parent).syntax, source)
    decreases |Segments(e.path)| - index
  {
    var parts := Segments(e.path);
    if index < |parts| {
      var v := VisitSegment(g, parts, e.kind == "blob", index, parent);
      var id := NodeId(parts, index);
      var d := Declare(id, parts[index], ShapeOf(parts, index, e.kind == "blob"));
      var l := Link(parent, id);
      assert v.syntax == g.syntax || v.syntax == g.syntax + [d] || v.syntax == g.syntax + [l]
          || v.syntax == g.syntax + [d] + [l];
      assert Explains(e, index, d) && Explains(e, index, l);
      forall k | 3 <= k < |v.syntax|
        ensures Explained(source, v.syntax[k])
      {
        if k < |g.syntax| {
          assert v.syntax[k] == g.syntax[k];
        } else {
          assert v.syntax[k] == d || v.syntax[k] == l;
          assert Explains(e, index, v.syntax[k]);
        }
      }
      WalkPathSound(v, e, source, index + 1, NodeId(parts, index));
    }
  }

  lemma {:induction false} ProcessSound(g: Graph, entries: seq<TreeEntry>, maxNodes: int, source: seq<TreeEntry>)
    requires forall j :: 0 <= j < |entries| ==> entries[j] in source
    requires |g.syntax| >= 3 && FromEntries(g.syntax, source)
    ensures FromEntries(Process(g, entries, maxNodes).syntax, source)
    decreases |entries|
  {
    if entries != [] && g.count <= maxNodes {
      var e := entries[0];
      if Kept(e) {
        WalkPathSound(g, e, source, 0, "root");
        WalkPathGrows(g, Segments(e.path), e.kind == "blob", 0, "root");
      }
      ProcessSound(VisitEntry(g, e), entries[1..], maxNodes, source);
    }
  }

  /**
   * Every declaration and edge comes from a kept entry of the listing: a
   * declaration for segment `i` carries that prefix's identifier, the
   * segment itself as label, and the file shape exactly when `i` is the last
   * segment of a blob; an edge into segment `i` leaves `root` when `i` is 0
   * and the identifier of segment `i - 1` otherwise.
   */
  lemma BuildSound(entries: seq<TreeEntry>, maxNodes: int)
    ensures FromEntries(Build(entries, maxNodes).syntax, entries)
  {
    ProcessSound(Start(), entries, maxNodes, entries);
  }

  // ---------------------------------------------------------------------
  // The text of the diagram

  /** The first three lines of every diagram built from a present listing. */
  const Prelude: string :=
    "graph LR" + "\n" + "root[Repository]" + "\n" + "style root fill:#f9f,stroke:#333,stroke-width:2px"

  lemma JoinThree(a: string, b: string, c: string)
    ensures Join([a, b, c], '\n') == a + "\n" + b + "\n" + c
  {
    assert [a, b, c][1..] == [b, c] && [b, c][1..] == [c];
    assert Join([c], '\n') == c;
    assert Join([b, c], '\n') == b + ['\n'] + c;
    assert Join([a, b, c], '\n') == a + ['\n'] + Join([b, c], '\n');
  }

  lemma PreludeLines()
    ensures Join([Render(Header), Render(RootNode), Render(RootStyle)], '\n') == Prelude
  {
    JoinThree(Render(Header), Render(RootNode), Render(RootStyle));
  }

  /** The first three lines, joined, begin the joined text. */
  lemma JoinKeepsHead(lines: seq<string>)
    requires |lines| >= 3
    ensures Join(lines[..3], '\n') <= Join(lines, '\n')
    ensures |lines| == 3 ==> Join(lines, '\n') == Join(lines[..3], '\n')
  {
    var head := lines[..3];
    if |lines| > 3 {
      var rest := Join(lines[3..], '\n');
      assert lines == head + lines[3..];
      JoinConcat(head, lines[3..], '\n');
      assert Join(head, '\n') <= Join(head, '\n') + ['\n'] + rest;
    } else {
      assert lines == head;
    }
  }

  lemma RenderedPrelude(syntax: seq<Statement>)
    requires Framed(syntax)
    ensures Prelude <= Join(RenderAll(syntax), '\n')
    ensures |syntax| == 3 ==> Join(RenderAll(syntax), '\n') == Prelude
  {
    var lines := RenderAll(syntax);
    JoinKeepsHead(lines);
    assert syntax[0] == Header && syntax[1] == RootNode && syntax[2] == RootStyle;
    assert lines[..3] == [Render(Header), Render(RootNode), Render(RootStyle)];
    PreludeLines();
  }

  /**
   * A missing response or `tree` field gives exactly the placeholder;
   * otherwise the diagram begins with the `graph LR`, `root[Repository]` and
   * `style root` lines joined by newlines, and an empty `tree` array gives
   * exactly those three lines (not the placeholder).
   */
  lemma MermaidShape(treeData: Option<TreeData>, maxNodes: int)
    ensures Listing(treeData).None? ==> Mermaid(treeData, maxNodes) == Placeholder
    ensures Listing(treeData).Some? ==> Prelude <= Mermaid(treeData, maxNodes)
    ensures Listing(treeData) == Some([]) ==> Mermaid(treeData, maxNodes) == Prelude
  {
    if Listing(treeData).Some? {
      var entries := Listing(treeData).value;
      BuildWellFormed(entries, maxNodes);
      RenderedPrelude(Build(entries, maxNodes).syntax);
    }
  }
}
