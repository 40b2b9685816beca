/** The flat list of accepted links and the three ways the results screen
    reads or rewrites it: the links leaving a node (its children), the list
    without every link touching a node (node removal), and a link with one
    node's label replaced at its endpoints (node rename). */
module Links {

  /** A directed link {from_classifier, from_element, to_classifier, to_element, comment}. */
  datatype Link = Link(fromClassifier: string, fromElement: string,
                       toClassifier: string, toElement: string, comment: string)

  /** The link leaves node (c, e). */
  predicate LeavesFrom(l: Link, c: string, e: string) {
    l.fromClassifier == c && l.fromElement == e
  }

  /** The link arrives at node (c, e). */
  predicate ArrivesAt(l: Link, c: string, e: string) {
    l.toClassifier == c && l.toElement == e
  }

  /** Node (c, e) is either endpoint of the link. */
  predicate Touches(l: Link, c: string, e: string) {
    LeavesFrom(l, c, e) || ArrivesAt(l, c, e)
  }

  /** The links leaving node (c, e): the node's children, in list order. */
  function Outgoing(s: seq<Link>, c: string, e: string): (r: seq<Link>)
    ensures forall l :: l in r <==> l in s && LeavesFrom(l, c, e)
    ensures |r| <= |s|
  {
    if s == [] then []
    else (if LeavesFrom(s[0], c, e) then [s[0]] else []) + Outgoing(s[1..], c, e)
  }

  /** Children keep the list order: Outgoing distributes over concatenation. */
  lemma {:induction false} OutgoingConcat(a: seq<Link>, b: seq<Link>, c: string, e: string)
    ensures Outgoing(a + b, c, e) == Outgoing(a, c, e) + Outgoing(b, c, e)
    decreases |a|
  {
    if a == [] {
      assert a + b == b;
    } else {
      assert (a + b)[1..] == a[1..] + b;
      OutgoingConcat(a[1..], b, c, e);
    }
  }

  /** A node that no link leaves has no children. */
  lemma {:induction false} NoChildren(s: seq<Link>, c: string, e: string)
    requires forall l :: l in s ==> !LeavesFrom(l, c, e)
    ensures Outgoing(s, c, e) == []
    decreases |s|
  {
    if s != [] {
      NoChildren(s[1..], c, e);
    }
  }

  /** A link appended to the list becomes the last child of the node it
      leaves and changes no other node's children. */
  lemma AppendedLinkIsLastChild(s: seq<Link>, l: Link, c: string, e: string)
    ensures Outgoing(s + [l], c, e) == Outgoing(s, c, e) + (if LeavesFrom(l, c, e) then [l] else [])
  {
    OutgoingConcat(s, [l], c, e);
    assert Outgoing([l], c, e) == (if LeavesFrom(l, c, e) then [l] else []) + Outgoing([], c, e);
  }

  /** The list without any link that has (c, e) as an endpoint: every such link
      is gone and every other link survives. */
  function Detach(s: seq<Link>, c: string, e: string): (r: seq<Link>)
    ensures forall l :: l in r <==> l in s && !Touches(l, c, e)
    ensures |r| <= |s|
  {
    if s == [] then []
    else (if Touches(s[0], c, e) then [] else [s[0]]) + Detach(s[1..], c, e)
  }

  /** Survivors keep their relative order: Detach distributes over concatenation. */
  lemma {:induction false} DetachConcat(a: seq<Link>, b: seq<Link>, c: string, e: string)
    ensures Detach(a + b, c, e) == Detach(a, c, e) + Detach(b, c, e)
    decreases |a|
  {
    if a == [] {
      assert a + b == b;
    } else {
      assert (a + b)[1..] == a[1..] + b;
      DetachConcat(a[1..], b, c, e);
    }
  }

  /** A list in which no link touches (c, e) is left exactly as it was. */
  lemma {:induction false} DetachUntouched(s: seq<Link>, c: string, e: string)
    requires forall l :: l in s ==> !Touches(l, c, e)
    ensures Detach(s, c, e) == s
    decreases |s|
  {
    if s != [] {
      DetachUntouched(s[1..], c, e);
      assert s == [s[0]] + s[1..];
    }
  }

  /** After removal the node has no children and is no node's child, so the
      subtree below it is cut off from the tree. */
  lemma DetachPrunes(s: seq<Link>, c: string, e: string)
    ensures Outgoing(Detach(s, c, e), c, e) == []
    ensures forall pc, pe, l :: l in Outgoing(Detach(s, c, e), pc, pe) ==> !ArrivesAt(l, c, e)
  {
    NoChildren(Detach(s, c, e), c, e);
  }

  /** One link with node (c, before) renamed to (c, after) at whichever endpoints
      it occupies; classifiers, the comment and other endpoints stay. */
  function Relabel(l: Link, c: string, before: string, after: string): (r: Link)
    ensures r.fromClassifier == l.fromClassifier && r.toClassifier == l.toClassifier
    ensures r.comment == l.comment
    ensures !Touches(l, c, before) ==> r == l
    ensures LeavesFrom(l, c, before) ==> LeavesFrom(r, c, after)
    ensures !LeavesFrom(l, c, before) ==> r.fromElement == l.fromElement
    ensures ArrivesAt(l, c, before) ==> ArrivesAt(r, c, after)
    ensures !ArrivesAt(l, c, before) ==> r.toElement == l.toElement
    ensures before != after ==> !Touches(r, c, before)
  {
    var l1 := if LeavesFrom(l, c, before) then l.(fromElement := after) else l;
    if ArrivesAt(l1, c, before) then l1.(toElement := after) else l1
  }
}
