/**
 * The architecture classifier: a first-match rule list over substring tests
 * on the paths of the repository listing.
 */
module Architecture {
  import opened Wrappers
  import opened JsText
  import opened Tree

  const Generic: string := "Generic Architecture"
  const Mvc: string := "MVC (Model-View-Controller) Pattern"
  const ComponentBased: string := "Component-based Architecture (Modern Web)"
  const JavaLayered: string := "Layered Enterprise Architecture (Java)"
  const FullStack: string := "Full-Stack Decoupled Architecture"
  const Standard: string := "Standard Modular Structure"

  /** `treeData.tree.map(item => item.path)`. */
  function Paths(entries: seq<TreeEntry>): (paths: seq<string>)
    ensures |paths| == |entries|
    ensures forall i :: 0 <= i < |entries| ==> paths[i] == entries[i].path
  {
    seq(|entries|, i requires 0 <= i < |entries| => entries[i].path)
  }

  /** `paths.some(p => p.includes(marker))`. */
  predicate Mentions(paths: seq<string>, marker: string)
  {
    exists p :: p in paths && Contains(p, marker)
  }

  predicate IsMvc(paths: seq<string>)
  {
    Mentions(paths, "models/") && Mentions(paths, "views/") && Mentions(paths, "controllers/")
  }

  predicate IsComponentBased(paths: seq<string>)
  {
    Mentions(paths, "src/components") || Mentions(paths, "src/pages")
  }

  predicate IsJava(paths: seq<string>)
  {
    Mentions(paths, "src/main/java")
  }

  predicate IsFullStack(paths: seq<string>)
  {
    Mentions(paths, "api/") && Mentions(paths, "web/")
  }

  /** The rule list applied to the paths of a present listing. */
  function Classify(paths: seq<string>): (r: string)
    ensures r in {Mvc, ComponentBased, JavaLayered, FullStack, Standard}
  {
    if IsMvc(paths) then Mvc
    else if IsComponentBased(paths) then ComponentBased
    else if IsJava(paths) then JavaLayered
    else if IsFullStack(paths) then FullStack
    else Standard
  }

  function DetectArchitecture(treeData: Option<TreeData>): (r: string)
    ensures Listing(treeData).None? <==> r == Generic
  {
    match Listing(treeData)
    case None => Generic
    case Some(entries) => Classify(Paths(entries))
  }

  // ---------------------------------------------------------------------
  // The rules as a table
  // ---------------------------------------------------------------------

  /**
   * A rule fires when each of its groups has a marker some path contains:
   * the groups are joined by "and", the markers of a group by "or".
   */
  datatype Rule = Rule(groups: seq<seq<string>>, outcome: string)

  const Rules: seq<Rule> := [
    Rule([["models/"], ["views/"], ["controllers/"]], Mvc),
    Rule([["src/components", "src/pages"]], ComponentBased),
    Rule([["src/main/java"]], JavaLayered),
    Rule([["api/"], ["web/"]], FullStack)
  ]

  predicate GroupHolds(paths: seq<string>, group: seq<string>)
  {
    exists m :: m in group && Mentions(paths, m)
  }

  predicate Fires(paths: seq<string>, rule: Rule)
  {
    forall g :: g in rule.groups ==> GroupHolds(paths, g)
  }

  /** The label of the first rule that fires, or `fallback`. */
  function FirstMatch(rules: seq<Rule>, paths: seq<string>, fallback: string): string
  {
    if rules == [] then fallback
    else if Fires(paths, rules[0]) then rules[0].outcome
    else FirstMatch(rules[1..], paths, fallback)
  }

  lemma SingleGroup(paths: seq<string>, m: string)
    ensures GroupHolds(paths, [m]) <==> Mentions(paths, m)
  {
    if Mentions(paths, m) {
      assert m in [m];
    }
  }

  lemma PairGroup(paths: seq<string>, m1: string, m2: string)
    ensures GroupHolds(paths, [m1, m2]) <==> Mentions(paths, m1) || Mentions(paths, m2)
  {
    if Mentions(paths, m1) {
      assert m1 in [m1, m2];
    }
    if Mentions(paths, m2) {
      assert m2 in [m1, m2];
    }
  }

  lemma FiresMvc(paths: seq<string>)
    ensures Fires(paths, Rules[0]) <==> IsMvc(paths)
  {
    SingleGroup(paths, "models/");
    SingleGroup(paths, "views/");
    SingleGroup(paths, "controllers/");
    assert Rules[0].groups == [["models/"], ["views/"], ["controllers/"]];
  }

  lemma FiresComponentBased(paths: seq<string>)
    ensures Fires(paths, Rules[1]) <==> IsComponentBased(paths)
  {
    PairGroup(paths, "src/components", "src/pages");
    assert Rules[1].groups == [["src/components", "src/pages"]];
  }

  lemma FiresJava(paths: seq<string>)
    ensures Fires(paths, Rules[2]) <==> IsJava(paths)
  {
    SingleGroup(paths, "src/main/java");
    assert Rules[2].groups == [["src/main/java"]];
  }

  lemma FiresFullStack(paths: seq<string>)
    ensures Fires(paths, Rules[3]) <==> IsFullStack(paths)
  {
    SingleGroup(paths, "api/");
    SingleGroup(paths, "web/");
    assert Rules[3].groups == [["api/"], ["web/"]];
  }

  /** The chain of tests is the first match over the rule table. */
  lemma {:induction false} ClassifyIsFirstMatch(paths: seq<string>)
    ensures Classify(paths) == FirstMatch(Rules, paths, Standard)
  {
    FiresMvc(paths);
    FiresComponentBased(paths);
    FiresJava(paths);
    FiresFullStack(paths);
    var r1 := Rules[1..];
    var r2 := r1[1..];
    var r3 := r2[1..];
    assert r1[0] == Rules[1] && r2[0] == Rules[2] && r3[0] == Rules[3] && r3[1..] == [];
    assert FirstMatch(r3, paths, Standard) == if IsFullStack(paths) then FullStack else Standard;
    assert FirstMatch(r2, paths, Standard) == if IsJava(paths) then JavaLayered else FirstMatch(r3, paths, Standard);
    assert FirstMatch(r1, paths, Standard)
        == if IsComponentBased(paths) then ComponentBased else FirstMatch(r2, paths, Standard);
  }

  // ---------------------------------------------------------------------
  // Properties
  // ---------------------------------------------------------------------

  /**
   * Each label is returned exactly when its rule fires and no earlier rule
   * does.
   */
  lemma ClassifyIff(paths: seq<string>)
    ensures Classify(paths) == Mvc <==> IsMvc(paths)
    ensures Classify(paths) == ComponentBased <==> !IsMvc(paths) && IsComponentBased(paths)
    ensures Classify(paths) == JavaLayered <==> !IsMvc(paths) && !IsComponentBased(paths) && IsJava(paths)
    ensures Classify(paths) == FullStack
        <==> !IsMvc(paths) && !IsComponentBased(paths) && !IsJava(paths) && IsFullStack(paths)
    ensures Classify(paths) == Standard
        <==> !IsMvc(paths) && !IsComponentBased(paths) && !IsJava(paths) && !IsFullStack(paths)
  {
  }

  /**
   * Only the set of paths matters: reordering or repeating entries, or
   * changing their types, leaves the label unchanged.
   */
  lemma {:induction false} SamePathsSameLabel(e1: seq<TreeEntry>, e2: seq<TreeEntry>, t1: bool, t2: bool)
    requires forall p :: p in Paths(e1) <==> p in Paths(e2)
    ensures DetectArchitecture(Some(TreeData(Some(e1), t1))) == DetectArchitecture(Some(TreeData(Some(e2), t2)))
  {
    var p1, p2 := Paths(e1), Paths(e2);
    forall m
      ensures Mentions(p1, m) <==> Mentions(p2, m)
    {
      if Mentions(p1, m) {
        var p :| p in p1 && Contains(p, m);
        assert p in p2;
      }
      if Mentions(p2, m) {
        var p :| p in p2 && Contains(p, m);
        assert p in p1;
      }
    }
  }

  /** An empty listing is present, so it gets the default label, not the generic one. */
  lemma EmptyListingIsStandard(truncated: bool)
    ensures DetectArchitecture(Some(TreeData(Some([]), truncated))) == Standard
  {
  }

  /**
   * `app/models/user.js`, `app/views/home.html`, `app/controllers/main.js`
   * and `src/components/Nav.js`, each written around the marker it holds.
   */
  function SamplePaths(): seq<string>
  {
    ["app/" + "models/" + "user.js",
     "app/" + "views/" + "home.html",
     "app/" + "controllers/" + "main.js",
     "" + "src/components" + "/Nav.js"]
  }

  function SampleEntries(): seq<TreeEntry>
  {
    [TreeEntry(SamplePaths()[0], "blob"),
     TreeEntry(SamplePaths()[1], "blob"),
     TreeEntry(SamplePaths()[2], "blob"),
     TreeEntry(SamplePaths()[3], "blob")]
  }

  lemma SampleMentions()
    ensures Mentions(SamplePaths(), "models/")
    ensures Mentions(SamplePaths(), "views/")
    ensures Mentions(SamplePaths(), "controllers/")
    ensures Mentions(SamplePaths(), "src/components")
  {
    var paths := SamplePaths();
    ContainsInfix("app/", "models/", "user.js");
    ContainsInfix("app/", "views/", "home.html");
    ContainsInfix("app/", "controllers/", "main.js");
    ContainsInfix("", "src/components", "/Nav.js");
    assert paths[0] in paths && paths[1] in paths && paths[2] in paths && paths[3] in paths;
  }

  /**
   * A repository with models, views and controllers is MVC although it also
   * has `src/components`, which alone would make it component-based.
   */
  lemma {:induction false} MvcBeforeComponents(truncated: bool)
    ensures IsComponentBased(Paths(SampleEntries()))
    ensures DetectArchitecture(Some(TreeData(Some(SampleEntries()), truncated))) == Mvc
  {
    SampleMentions();
    assert Paths(SampleEntries()) == SamplePaths();
  }
}
