/**
 * How a node's label reaches the diagram text.
 *
 * The source builds a declaration by substituting the label for the single
 * space of the shape template (`'([ ])'` or `'{{ }}'`) with a string
 * `replace`. A string replacement argument is not copied verbatim: the
 * patterns `$$`, `$&`, `` $` `` and `$'` are expanded (section 22.1.3.19.1,
 * GetSubstitution, of ECMA-262). `AsWrittenRender` models that; the model's
 * `MindMap.Render`, which writes the label verbatim, is the intended text.
 */
module MindMapLabels {
  import opened Wrappers
  import opened JsText
  import opened Tree
  import opened MindMap
  import opened MindMapFacts

  /**
   * GetSubstitution for a match of the one-character pattern `" "` with no
   * capture groups: `before` is the text left of the match, `after` the text
   * right of it. `$1`..`$99` and `$<` have nothing to refer to and stay literal.
   */
  function Expand(r: string, before: string, after: string): (out: string)
    ensures '$' !in r ==> out == r
    decreases |r|
  {
    if |r| == 0 then ""
    else if r[0] != '$' || |r| < 2 then [r[0]] + Expand(r[1..], before, after)
    else if r[1] == '$' then "$" + Expand(r[2..], before, after)
    else if r[1] == '&' then " " + Expand(r[2..], before, after)
    else if r[1] == '`' then before + Expand(r[2..], before, after)
    else if r[1] == '\'' then after + Expand(r[2..], before, after)
    else [r[0]] + Expand(r[1..], before, after)
  }

  /** The line the source emits for a statement, label passed through `replace`. */
  function AsWrittenRender(st: Statement): (line: string)
    ensures (st.Declare? ==> '$' !in st.name) ==> line == Render(st)
  {
    match st
    case Declare(id, name, shape) =>
      id + Opening(shape) + Expand(name, Opening(shape), Closing(shape)) + Closing(shape)
    case _ => Render(st)
  }

  /** The lines the source prints for a statement list. */
  function AsWrittenLines(syntax: seq<Statement>): (lines: seq<string>)
    ensures |lines| == |syntax|
    ensures forall k :: 0 <= k < |syntax| ==> lines[k] == AsWrittenRender(syntax[k])
  {
    seq(|syntax|, k requires 0 <= k < |syntax| => AsWrittenRender(syntax[k]))
  }

  /** The text `generateMermaid` returns, labels passed through `replace`. */
  function AsWrittenMermaid(treeData: Option<TreeData>, maxNodes: int): string
  {
    match Listing(treeData)
    case None => Placeholder
    case Some(entries) => Join(AsWrittenLines(Build(entries, maxNodes).syntax), '\n')
  }

  /**
   * When no path of the listing holds a `$`, the source's diagram is the
   * modelled one: every label is a segment of some path.
   */
  lemma DollarFreeDiagram(treeData: Option<TreeData>, maxNodes: int)
    requires Listing(treeData).Some? ==> forall e :: e in Listing(treeData).value ==> '$' !in e.path
    ensures AsWrittenMermaid(treeData, maxNodes) == Mermaid(treeData, maxNodes)
  {
    if Listing(treeData).Some? {
      var entries := Listing(treeData).value;
      BuiltLabelsDollarFree(entries, maxNodes);
      DollarFreeLines(Build(entries, maxNodes).syntax);
    }
  }

  /** Lines whose labels hold no `$` are printed as the model renders them. */
  lemma DollarFreeLines(syntax: seq<Statement>)
    requires forall k :: 0 <= k < |syntax| && syntax[k].Declare? ==> '$' !in syntax[k].name
    ensures AsWrittenLines(syntax) == RenderAll(syntax)
  {
  }

  /** Every label of a diagram built from `$`-free paths is `$`-free. */
  lemma BuiltLabelsDollarFree(entries: seq<TreeEntry>, maxNodes: int)
    requires forall e :: e in entries ==> '$' !in e.path
    ensures var syntax := Build(entries, maxNodes).syntax;
      forall k :: 0 <= k < |syntax| && syntax[k].Declare? ==> '$' !in syntax[k].name
  {
    var syntax := Build(entries, maxNodes).syntax;
    BuildFramed(entries, maxNodes);
    BuildSound(entries, maxNodes);
    assert !syntax[0].Declare? && !syntax[1].Declare? && !syntax[2].Declare? by {
      assert syntax[..3][0] == syntax[0] && syntax[..3][1] == syntax[1] && syntax[..3][2] == syntax[2];
    }
    forall k | 0 <= k < |syntax| && syntax[k].Declare?
      ensures '$' !in syntax[k].name
    {
      if k >= 3 {
        var e, i :| e in entries && Explains(e, i, syntax[k]);
        LabelFromPath(e, i, syntax[k]);
      }
    }
  }

  lemma BuildFramed(entries: seq<TreeEntry>, maxNodes: int)
    ensures Framed(Build(entries, maxNodes).syntax)
  {
    BuildWellFormed(entries, maxNodes);
  }

  /** A declaration's label is a segment of its entry's path, so it holds only the path's characters. */
  lemma LabelFromPath(e: TreeEntry, i: int, st: Statement)
    requires Explains(e, i, st) && st.Declare?
    ensures forall x :: x in st.name ==> x in e.path
  {
    SplitPiecesFromText(e.path, '/');
  }

  /** Text before the first `$` is copied unchanged. */
  lemma {:induction false} ExpandPlainPrefix(u: string, r: string, before: string, after: string)
    requires '$' !in u
    ensures Expand(u + r, before, after) == u + Expand(r, before, after)
    decreases |u|
  {
    if |u| > 0 {
      var t := u[1..] + r;
      calc {
        Expand(u + r, before, after);
        { assert u + r == [u[0]] + t; }
        Expand([u[0]] + t, before, after);
        { ExpandPlainHead(u[0], t, before, after); }
        [u[0]] + Expand(t, before, after);
        { ExpandPlainPrefix(u[1..], r, before, after); }
        [u[0]] + (u[1..] + Expand(r, before, after));
        { assert [u[0]] + u[1..] == u; }
        u + Expand(r, before, after);
      }
    } else {
      assert u + r == r;
    }
  }

  /** A first character other than `$` is copied. */
  lemma ExpandPlainHead(c: char, t: string, before: string, after: string)
    requires c != '$'
    ensures Expand([c] + t, before, after) == [c] + Expand(t, before, after)
  {
    assert ([c] + t)[1..] == t;
  }

  /**
   * Two labels that differ only in `$$` against `$` are shown alike in the
   * source's diagram (a file `a$$b.js` is shown as `a$b.js`), although they are
   * different names: after each node's id, the two lines are the same.
   */
  lemma AsWrittenMergesDollars(id1: string, id2: string, u: string, v: string, shape: Shape)
    requires '$' !in u && '$' !in v
    requires |v| == 0 || (v[0] != '&' && v[0] != '`' && v[0] != '\'')
    ensures u + "$$" + v != u + "$" + v
    ensures AsWrittenRender(Declare(id1, u + "$$" + v, shape))[|id1|..]
         == AsWrittenRender(Declare(id2, u + "$" + v, shape))[|id2|..]
  {
    var o, c := Opening(shape), Closing(shape);
    assert u + "$$" + v == u + ("$$" + v);
    assert u + "$" + v == u + ("$" + v);
    ExpandPlainPrefix(u, "$$" + v, o, c);
    ExpandPlainPrefix(u, "$" + v, o, c);
    ExpandDoubleDollar(v, o, c);
    ExpandLoneDollar(v, o, c);
    AsWrittenShown(id1, u + "$$" + v, shape);
    AsWrittenShown(id2, u + "$" + v, shape);
  }

  /** What follows the id in a declaration line: the shape around the expanded label. */
  lemma AsWrittenShown(id: string, name: string, shape: Shape)
    ensures AsWrittenRender(Declare(id, name, shape))[|id|..]
         == Opening(shape) + Expand(name, Opening(shape), Closing(shape)) + Closing(shape)
  {
    var shown := Opening(shape) + Expand(name, Opening(shape), Closing(shape)) + Closing(shape);
    assert AsWrittenRender(Declare(id, name, shape)) == id + shown;
  }

  /** `$$` stands for one dollar sign. */
  lemma ExpandDoubleDollar(v: string, before: string, after: string)
    requires '$' !in v
    ensures Expand("$$" + v, before, after) == "$" + v
  {
    assert ("$$" + v)[2..] == v;
  }

  /** A dollar sign followed by no pattern character is kept. */
  lemma ExpandLoneDollar(v: string, before: string, after: string)
    requires '$' !in v
    requires |v| == 0 || (v[0] != '&' && v[0] != '`' && v[0] != '\'')
    ensures Expand("$" + v, before, after) == "$" + v
  {
    assert ("$" + v)[1..] == v;
  }

  /**
   * The intended behaviour: the label is the text between the id's opening
   * bracket and the closing bracket, so different labels give different lines.
   */
  lemma {:induction false} DeclareShowsLabel(id: string, n1: string, n2: string, shape: Shape)
    requires Render(Declare(id, n1, shape)) == Render(Declare(id, n2, shape))
    ensures n1 == n2
  {
    var l1 := Render(Declare(id, n1, shape));
    var l2 := Render(Declare(id, n2, shape));
    assert |n1| == |n2|;
    forall j | 0 <= j < |n1|
      ensures n1[j] == n2[j]
    {
      assert l1[|id| + 2 + j] == n1[j];
      assert l2[|id| + 2 + j] == n2[j];
    }
  }
}
