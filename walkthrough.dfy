/** The two-classifier walk-through: classifiers Goal and Function, one goal
    G1 and two functions F1, F2; both candidates accepted without comment. */
module Walkthrough {
  import opened Text
  import opened Domain
  import opened Enumerator
  import opened Links
  import opened Forest
  import opened App

  const Classifiers: seq<string> := ["Goal", "Function"]
  const Lists: map<string, seq<string>> := map["Goal" := ["G1"], "Function" := ["F1", "F2"]]
  /** The links the session below records. */
  const Recorded: seq<Link> := [Link("Goal", "G1", "Function", "F1", ""), Link("Goal", "G1", "Function", "F2", "")]

  /** The analysis screen offers G1-F1 first, then G1-F2. */
  lemma WalkthroughCandidates()
    ensures Combinations(Classifiers, Lists)
         == [Combination("Goal", "G1", "Function", "F1"), Combination("Goal", "G1", "Function", "F2")]
  {
    assert Row("Goal", "G1", "Function", ["F1", "F2"])
        == [Combination("Goal", "G1", "Function", "F1"), Combination("Goal", "G1", "Function", "F2")];
  }

  /** Entering the analysis shows G1-F1 with G1-F2 still to come. */
  method WalkthroughEntry() returns (p: Project)
    ensures fresh(p)
    ensures p.structure == [] && p.current == Some(Combination("Goal", "G1", "Function", "F1"))
    ensures p.pending == [Combination("Goal", "G1", "Function", "F2")]
  {
    p := new Project();
    p.classifiers := Classifiers;
    p.elements := Lists;
    WalkthroughCandidates();
    p.ShowAnalysis();
  }

  /** Pressing "accept" twice after entering, each time with a blank comment,
      records exactly `Recorded` and leaves no candidate on screen. */
  method WalkthroughSession(comment: string) returns (links: seq<Link>, after: Option<Combination>)
    requires Blank(comment)
    ensures links == Recorded && after == None
  {
    var p := WalkthroughEntry();
    p.ProcessCombination(true, comment);
    assert p.structure == [Recorded[0]] && p.pending == [];
    p.ProcessCombination(true, comment);
    links, after := p.structure, p.current;
  }

  /** G1 has both accepted links as children, in order; F1 and F2 are leaves. */
  lemma WalkthroughChildren()
    ensures Outgoing(Recorded, "Goal", "G1") == Recorded
    ensures Outgoing(Recorded, "Function", "F1") == []
    ensures Outgoing(Recorded, "Function", "F2") == []
  {
    assert Recorded[0] in Outgoing(Recorded, "Goal", "G1");
    assert Recorded[1] in Outgoing(Recorded, "Goal", "G1");
  }

  /** A leaf exports as its own line only. */
  lemma WalkthroughLeaf(element: string)
    requires element == "F1" || element == "F2"
    ensures ExportElement(Recorded, element, "Function", "", 1, 1) == [Line(element, "Function", "", 1)]
  {
    WalkthroughChildren();
    assert ExportLinks(Recorded, [], 2, 0) == [];
  }

  /** G1 exports as its line followed by F1 and F2 one level in. */
  lemma WalkthroughRoot()
    ensures ExportElement(Recorded, "G1", "Goal", "", 0, 2)
         == [Line("G1", "Goal", "", 0), Line("F1", "Function", "", 1), Line("F2", "Function", "", 1)]
  {
    WalkthroughChildren();
    WalkthroughLeaf("F1");
    WalkthroughLeaf("F2");
    assert ExportLinks(Recorded, Recorded[1..], 1, 1) == [Line("F2", "Function", "", 1)];
  }

  /** The lines as they appear in the file. */
  lemma WalkthroughSpelling()
    ensures Line("G1", "Goal", "", 0) == "G1 (Goal)"
    ensures Line("F1", "Function", "", 1) == "    F1 (Function)"
    ensures Line("F2", "Function", "", 1) == "    F2 (Function)"
  {
    assert Indent(1) == "    ";
  }

  /** G1 is the only root, so the roots export as G1's subtree. */
  lemma WalkthroughRoots()
    ensures RootElements(Classifiers, Lists) == ["G1"]
    ensures ExportRoots(Recorded, ["G1"], "Goal", 2) == ExportElement(Recorded, "G1", "Goal", "", 0, 2)
  {
  }

  /** After the header, the file holds the rendering of G1's subtree. */
  lemma WalkthroughBody()
    ensures ExportLines("P", Classifiers, Lists, Recorded, 2)[4..]
         == [Line("G1", "Goal", "", 0), Line("F1", "Function", "", 1), Line("F2", "Function", "", 1)]
  {
    WalkthroughRoot();
    ExportAfterHeader("P", Classifiers, Lists, Recorded, 2);
    WalkthroughRoots();
  }

  /** The candidates come G1-F1 then G1-F2; accepting both gives the root G1
      with children F1 and F2 in that order, exported one level apart. */
  lemma GoalFunctionWalkthrough()
    ensures Combinations(Classifiers, Lists)
         == [Combination("Goal", "G1", "Function", "F1"), Combination("Goal", "G1", "Function", "F2")]
    ensures ExportLines("P", Classifiers, Lists, Recorded, 2)[4..]
         == ["G1 (Goal)", "    F1 (Function)", "    F2 (Function)"]
  {
    WalkthroughCandidates();
    WalkthroughBody();
    WalkthroughSpelling();
  }
}
