/** The results screen: the forest rebuilt from the flat link list (roots are
    the first classifier's elements, a node's children are the links leaving
    it in list order) and its export as indented text lines.

    The source walks the links recursively with no guard against cycles, so
    every walk here carries `fuel`: the number of levels it may still descend.
    A node reached with no fuel left is shown without its children. */
module Forest {
  import opened Domain
  import opened Links

  /** A tree-view row: the element, its classifier, the comment of the link
      that leads to it (empty for a root) and the rows below it. */
  datatype Tree = Node(element: string, classifier: string, comment: string, children: seq<Tree>)

  /** The row for the child reached through link l. */
  predicate ShowsLink(t: Tree, l: Link) {
    t.element == l.toElement && t.classifier == l.toClassifier && t.comment == l.comment
  }

  /** The subtree of node (classifier, element) as the tree view builds it. */
  function Grow(s: seq<Link>, element: string, classifier: string, comment: string, fuel: nat): (t: Tree)
    ensures t.element == element && t.classifier == classifier && t.comment == comment
    ensures fuel == 0 ==> t.children == []
    ensures fuel > 0 ==> |t.children| == |Outgoing(s, classifier, element)|
    ensures fuel > 0 ==> forall i :: 0 <= i < |t.children| ==>
      ShowsLink(t.children[i], Outgoing(s, classifier, element)[i])
    decreases fuel, 0
  {
    Node(element, classifier, comment,
         if fuel == 0 then [] else Branches(s, Outgoing(s, classifier, element), fuel - 1))
  }

  /** One subtree per link, in the links' order. */
  function Branches(s: seq<Link>, ls: seq<Link>, fuel: nat): (ts: seq<Tree>)
    ensures |ts| == |ls|
    ensures forall i :: 0 <= i < |ls| ==> ShowsLink(ts[i], ls[i])
    decreases fuel, 1, |ls|
  {
    if ls == [] then []
    else [Grow(s, ls[0].toElement, ls[0].toClassifier, ls[0].comment, fuel)] + Branches(s, ls[1..], fuel)
  }

  /** The roots: the first classifier's elements in insertion order, when the
      first classifier is a non-empty label with an element list. */
  function RootElements(cs: seq<string>, els: Elements): seq<string> {
    if |cs| > 0 && cs[0] != "" && cs[0] in els then els[cs[0]] else []
  }

  /** The forest the results screen shows: every root, whether or not any
      link leaves it, each with its subtree and an empty comment. */
  function Roots(cs: seq<string>, els: Elements, s: seq<Link>, fuel: nat): (ts: seq<Tree>)
    ensures |ts| == |RootElements(cs, els)|
    ensures forall i :: 0 <= i < |ts| ==>
      ts[i].element == RootElements(cs, els)[i] && ts[i].classifier == cs[0] && ts[i].comment == ""
  {
    var roots := RootElements(cs, els);
    seq(|roots|, i requires 0 <= i < |roots| => Grow(s, roots[i], cs[0], "", fuel))
  }

  /** Four spaces per level. */
  function Indent(level: nat): (r: string)
    ensures |r| == 4 * level
    ensures forall k :: 0 <= k < |r| ==> r[k] == ' '
  {
    if level == 0 then "" else "    " + Indent(level - 1)
  }

  /** One exported line: `element (classifier)`, with ` [Комментарий: c]`
      appended only when the comment c is non-empty. */
  function Line(element: string, classifier: string, comment: string, level: nat): (r: string)
    ensures |r| >= 4 * level + |element| + |classifier| + 3
    ensures r[..4 * level] == Indent(level)
    ensures r[4 * level..4 * level + |element|] == element
    ensures comment != "" <==> |r| > 4 * level + |element| + |classifier| + 3
  {
    Indent(level) + element + " (" + classifier + ")"
      + (if comment != "" then " [Комментарий: " + comment + "]" else "")
  }

  /** The text of an exported line after its indent and element: the
      classifier in parentheses, then the comment in brackets when there is
      one. Kept out of `Line`'s own contract, which every export proof uses. */
  lemma LineText(element: string, classifier: string, comment: string, level: nat)
    ensures var r := Line(element, classifier, comment, level);
      && r[4 * level + |element|..4 * level + |element| + |classifier| + 3] == " (" + classifier + ")"
      && r[4 * level + |element| + |classifier| + 3..]
         == if comment != "" then " [Комментарий: " + comment + "]" else ""
  {
  }

  /** The export walk: the node's line, then each outgoing link's subtree. */
  function ExportElement(s: seq<Link>, element: string, classifier: string, comment: string,
                         level: nat, fuel: nat): (r: seq<string>)
    ensures |r| >= 1 && r[0] == Line(element, classifier, comment, level)
    decreases fuel, 0, 0
  {
    [Line(element, classifier, comment, level)]
      + (if fuel == 0 then [] else ExportLinks(s, Outgoing(s, classifier, element), level + 1, fuel - 1))
  }

  /** At least one line per link: each target's own line, then its subtree. */
  function ExportLinks(s: seq<Link>, ls: seq<Link>, level: nat, fuel: nat): (r: seq<string>)
    ensures |r| >= |ls|
    decreases fuel, 1, |ls|
  {
    if ls == [] then []
    else
      ExportElement(s, ls[0].toElement, ls[0].toClassifier, ls[0].comment, level, fuel)
        + ExportLinks(s, ls[1..], level, fuel)
  }

  /** Every root is written, at level 0, with its subtree after it. */
  function ExportRoots(s: seq<Link>, roots: seq<string>, c0: string, fuel: nat): (r: seq<string>)
    ensures |r| >= |roots|
    ensures roots != [] ==> r[0] == Line(roots[0], c0, "", 0)
  {
    if roots == [] then []
    else ExportElement(s, roots[0], c0, "", 0, fuel) + ExportRoots(s, roots[1..], c0, fuel)
  }

  /** The pre-order rendering of a tree: the node's line, then its children
      one level deeper. */
  function Render(t: Tree, level: nat): seq<string>
    decreases t
  {
    [Line(t.element, t.classifier, t.comment, level)] + RenderAll(t.children, level + 1)
  }

  function RenderAll(ts: seq<Tree>, level: nat): seq<string>
    decreases ts
  {
    if ts == [] then [] else Render(ts[0], level) + RenderAll(ts[1..], level)
  }

  const NoLinks: string := "Нет значимых связей между элементами"

  /** The fixed lines written before the structure. */
  function Header(name: string): (r: seq<string>)
    ensures |r| == 4 && |r[1]| == 50 && r[2] == ""
  {
    ["Результаты анализа проекта: " + name, seq(50, k => '='), "", "Структура целей и функций:"]
  }

  /** The header's text: the title with the project name, a rule of fifty
      `=`, a blank line and the structure's section title. */
  lemma HeaderText(name: string)
    ensures var r := Header(name);
      && r[0] == "Результаты анализа проекта: " + name
      && (forall k :: 0 <= k < 50 ==> r[1][k] == '=')
      && r[3] == "Структура целей и функций:"
  {
  }

  /** The exported file, line by line: the header, then either the single
      "no links" line (when there are no links at all; the roots are then not
      listed) or every root's subtree in pre-order. */
  function ExportLines(name: string, cs: seq<string>, els: Elements, s: seq<Link>, fuel: nat): (r: seq<string>)
    ensures |r| >= 4 && r[..4] == Header(name)
    ensures s == [] ==> r == Header(name) + [NoLinks]
  {
    Header(name) + (if s == [] then [NoLinks] else ExportRoots(s, RootElements(cs, els), if cs == [] then "" else cs[0], fuel))
  }

  /** With links present, the lines after the header are the roots' subtrees. */
  lemma ExportAfterHeader(name: string, cs: seq<string>, els: Elements, s: seq<Link>, fuel: nat)
    requires s != [] && |cs| > 0
    ensures ExportLines(name, cs, els, s, fuel)[4..] == ExportRoots(s, RootElements(cs, els), cs[0], fuel)
  {
    var body := ExportRoots(s, RootElements(cs, els), cs[0], fuel);
    assert |Header(name)| == 4;
    assert ExportLines(name, cs, els, s, fuel) == Header(name) + body;
  }

  /** The export and the tree view have the same shape: exporting a node
      writes exactly the pre-order rendering of the subtree the view builds. */
  lemma {:induction false} ExportIsRender(s: seq<Link>, element: string, classifier: string, comment: string,
                                          level: nat, fuel: nat)
    ensures ExportElement(s, element, classifier, comment, level, fuel)
         == Render(Grow(s, element, classifier, comment, fuel), level)
    decreases fuel, 0, 0
  {
    if fuel > 0 {
      ExportLinksIsRender(s, Outgoing(s, classifier, element), level + 1, fuel - 1);
    }
  }

  lemma {:induction false} ExportLinksIsRender(s: seq<Link>, ls: seq<Link>, level: nat, fuel: nat)
    ensures ExportLinks(s, ls, level, fuel) == RenderAll(Branches(s, ls, fuel), level)
    decreases fuel, 1, |ls|
  {
    if ls != [] {
      var ts := Branches(s, ls, fuel);
      assert ts[1..] == Branches(s, ls[1..], fuel);
      ExportIsRender(s, ls[0].toElement, ls[0].toClassifier, ls[0].comment, level, fuel);
      ExportLinksIsRender(s, ls[1..], level, fuel);
    }
  }

  lemma {:induction false} ExportRootsIsRender(s: seq<Link>, cs: seq<string>, els: Elements, fuel: nat)
    requires |cs| > 0
    ensures ExportRoots(s, RootElements(cs, els), cs[0], fuel) == RenderAll(Roots(cs, els, s, fuel), 0)
  {
    var roots := RootElements(cs, els);
    var k := |roots|;
    while k > 0
      invariant 0 <= k <= |roots|
      invariant ExportRoots(s, roots[k..], cs[0], fuel)
             == RenderAll(Roots(cs, els, s, fuel)[k..], 0)
    {
      k := k - 1;
      var ts := Roots(cs, els, s, fuel)[k..];
      assert ts[1..] == Roots(cs, els, s, fuel)[k + 1..];
      assert roots[k..][1..] == roots[k + 1..];
      ExportIsRender(s, roots[k], cs[0], "", 0, fuel);
    }
  }

  /** The whole export, when there are links, is the header followed by the
      pre-order rendering of the forest the results screen shows. */
  lemma ExportShowsForest(name: string, cs: seq<string>, els: Elements, s: seq<Link>, fuel: nat)
    requires s != []
    ensures ExportLines(name, cs, els, s, fuel) == Header(name) + RenderAll(Roots(cs, els, s, fuel), 0)
  {
    if cs != [] {
      ExportRootsIsRender(s, cs, els, fuel);
    }
  }

  /** Every link goes down a ranking of the nodes: there is no cycle, and a
      node of rank r has at most r levels below it. */
  ghost predicate Ranked(s: seq<Link>, rank: (string, string) -> nat) {
    forall l :: l in s ==> rank(l.toClassifier, l.toElement) < rank(l.fromClassifier, l.fromElement)
  }

  /** Once the fuel exceeds the node's rank, the amount no longer matters:
      the tree view has then shown the whole subtree the links describe. */
  lemma {:induction false} GrowStable(s: seq<Link>, element: string, classifier: string, comment: string,
                                      fuel: nat, more: nat, rank: (string, string) -> nat)
    requires Ranked(s, rank) && rank(classifier, element) < fuel && rank(classifier, element) < more
    ensures Grow(s, element, classifier, comment, fuel) == Grow(s, element, classifier, comment, more)
    decreases fuel, 0, 0
  {
    var o := Outgoing(s, classifier, element);
    assert Branches(s, o, fuel - 1) == Branches(s, o, more - 1) by {
      OutgoingRanked(s, classifier, element, rank);
      BranchesStable(s, o, fuel - 1, more - 1, rank(classifier, element), rank);
    }
  }

  /** The children of a node rank below it. */
  lemma OutgoingRanked(s: seq<Link>, classifier: string, element: string, rank: (string, string) -> nat)
    requires Ranked(s, rank)
    ensures forall l :: l in Outgoing(s, classifier, element) ==>
      rank(l.toClassifier, l.toElement) < rank(classifier, element)
  {
    forall l | l in Outgoing(s, classifier, element)
      ensures rank(l.toClassifier, l.toElement) < rank(classifier, element)
    {
      assert l in s && LeavesFrom(l, classifier, element);
    }
  }

  lemma {:induction false} BranchesStable(s: seq<Link>, ls: seq<Link>, fuel: nat, more: nat, bound: nat,
                                          rank: (string, string) -> nat)
    requires Ranked(s, rank) && bound <= fuel && bound <= more
    requires forall l :: l in ls ==> rank(l.toClassifier, l.toElement) < bound
    ensures Branches(s, ls, fuel) == Branches(s, ls, more)
    decreases fuel, 1, |ls|
  {
    if ls != [] {
      assert ls[0] in ls;
      GrowStable(s, ls[0].toElement, ls[0].toClassifier, ls[0].comment, fuel, more, rank);
      BranchesStable(s, ls[1..], fuel, more, bound, rank);
    }
  }

  /** The same for the export: past the node's rank, any fuel writes the same
      lines. */
  lemma ExportStable(s: seq<Link>, element: string, classifier: string, comment: string,
                     level: nat, fuel: nat, more: nat, rank: (string, string) -> nat)
    requires Ranked(s, rank) && rank(classifier, element) < fuel && rank(classifier, element) < more
    ensures ExportElement(s, element, classifier, comment, level, fuel)
         == ExportElement(s, element, classifier, comment, level, more)
  {
    ExportIsRender(s, element, classifier, comment, level, fuel);
    ExportIsRender(s, element, classifier, comment, level, more);
    GrowStable(s, element, classifier, comment, fuel, more, rank);
  }

  /** How many classifiers come after c's first occurrence; 0 when c is not
      listed. */
  function After(cs: seq<string>, c: string): nat {
    if cs == [] then 0 else if cs[0] == c then |cs| - 1 else After(cs[1..], c)
  }

  lemma {:induction false} AfterIndex(cs: seq<string>, k: nat)
    requires Distinct(cs) && k < |cs|
    ensures After(cs, cs[k]) == |cs| - 1 - k
    decreases k
  {
    if k > 0 {
      assert cs[0] != cs[k];
      assert cs[1..][k - 1] == cs[k];
      AfterIndex(cs[1..], k - 1);
    }
  }

  /** Every link joins an element of one classifier to one of the next, as
      the analysis proposes them. */
  ghost predicate Adjacent(cs: seq<string>, s: seq<Link>) {
    forall l :: l in s ==>
      exists k :: 0 <= k < |cs| - 1 && l.fromClassifier == cs[k] && l.toClassifier == cs[k + 1]
  }

  /** Adjacent links over distinct classifiers go down the classifier order. */
  lemma AdjacentRanked(cs: seq<string>, s: seq<Link>)
    requires Distinct(cs) && Adjacent(cs, s)
    ensures Ranked(s, (c, e) => After(cs, c))
  {
    forall l | l in s
      ensures After(cs, l.toClassifier) < After(cs, l.fromClassifier)
    {
      var k :| 0 <= k < |cs| - 1 && l.fromClassifier == cs[k] && l.toClassifier == cs[k + 1];
      AfterIndex(cs, k);
      AfterIndex(cs, k + 1);
    }
  }

  lemma {:induction false} ExportRootsStable(s: seq<Link>, roots: seq<string>, c0: string,
                                             fuel: nat, more: nat, rank: (string, string) -> nat)
    requires Ranked(s, rank)
    requires forall e :: e in roots ==> rank(c0, e) < fuel && rank(c0, e) < more
    ensures ExportRoots(s, roots, c0, fuel) == ExportRoots(s, roots, c0, more)
    decreases |roots|
  {
    if roots != [] {
      assert roots[0] in roots;
      ExportStable(s, roots[0], c0, "", 0, fuel, more, rank);
      ExportRootsStable(s, roots[1..], c0, fuel, more, rank);
    }
  }

  /** With distinct classifiers and every link between adjacent ones, fuel
      equal to the number of classifiers is enough: the export is then the
      same for any larger fuel. */
  lemma ExportComplete(name: string, cs: seq<string>, els: Elements, s: seq<Link>, fuel: nat)
    requires Distinct(cs) && Adjacent(cs, s) && fuel >= |cs|
    ensures ExportLines(name, cs, els, s, |cs|) == ExportLines(name, cs, els, s, fuel)
  {
    if s != [] && cs != [] {
      AdjacentRanked(cs, s);
      AfterIndex(cs, 0);
      ExportRootsStable(s, RootElements(cs, els), cs[0], |cs|, fuel, (c, e) => After(cs, c));
    }
  }
}
