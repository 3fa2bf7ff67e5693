/**
 * The repository listing both transforms read: the `tree` array of a
 * recursive git-trees response. Only `path` and `type` are read; `sha` and
 * the `truncated` flag are never consulted.
 */
module Tree {
  import opened Wrappers

  /** One listing record; `kind` is the record's `type` (`tree`, `blob`, or e.g. `commit`). */
  datatype TreeEntry = TreeEntry(path: string, kind: string)

  /** A response object: `tree` is `None` when the field is absent. */
  datatype TreeData = TreeData(tree: Option<seq<TreeEntry>>, truncated: bool)

  /**
   * The entries a transform works on, or `None` when the response itself or
   * its `tree` field is missing (the `!treeData || !treeData.tree` test). An
   * empty array is present: JavaScript arrays are truthy.
   */
  function Listing(treeData: Option<TreeData>): (r: Option<seq<TreeEntry>>)
    ensures r.None? <==> treeData.None? || treeData.value.tree.None?
    ensures r.Some? ==> r.value == treeData.value.tree.value
  {
    match treeData
    case None => None
    case Some(d) => d.tree
  }
}
