/** The project's vocabulary: classifiers (ordered, unique labels), the
    element lists they own, the outcome of an edit, and the gate that decides
    whether every classifier has elements before link analysis may start. */
module Domain {

  datatype Option<T> = None | Some(value: T)

  /** What an edit reports: it was applied, or the warning the application
      shows instead (no selection, an empty or unchanged name, a name that is
      already taken, a top-level tree node). A warning leaves the project as it was. */
  datatype Status = Done | NothingSelected | EnterName | AlreadyExists | RootLocked

  /** The element lists, keyed by classifier label. */
  type Elements = map<string, seq<string>>

  /** No entry occurs twice. */
  predicate Distinct<T(==)>(s: seq<T>) {
    forall i, j :: 0 <= i < j < |s| ==> s[i] != s[j]
  }

  /** Two duplicate-free lists with no entry in common concatenate to a
      duplicate-free list. */
  lemma DistinctConcat<T>(a: seq<T>, b: seq<T>)
    requires Distinct(a) && Distinct(b)
    requires forall x :: x in a ==> x !in b
    ensures Distinct(a + b)
  {
    forall i, j | 0 <= i < j < |a + b| ensures (a + b)[i] != (a + b)[j] {
      if i < |a| <= j {
        assert (a + b)[i] in a;
        assert (a + b)[j] == b[j - |a|];
      }
    }
  }

  /** Dropping the first entry keeps a list duplicate-free, and that entry
      does not occur again. */
  lemma DistinctTail<T>(s: seq<T>)
    requires Distinct(s) && s != []
    ensures Distinct(s[1..]) && s[0] !in s[1..]
  {
    forall i, j | 0 <= i < j < |s| - 1 ensures s[1..][i] != s[1..][j] {
      assert s[1..][i] == s[i + 1] && s[1..][j] == s[j + 1];
    }
    forall k | 0 <= k < |s| - 1 ensures s[1..][k] != s[0] {
      assert s[1..][k] == s[k + 1];
    }
  }

  /** In a duplicate-free list every value occurs at most once. */
  lemma {:induction false} DistinctOnce<T>(s: seq<T>, x: T)
    requires Distinct(s)
    ensures multiset(s)[x] <= 1
    decreases |s|
  {
    if s != [] {
      assert s == [s[0]] + s[1..];
      DistinctTail(s);
      DistinctOnce(s[1..], x);
    }
  }

  /** A list in which every value occurs at most once is duplicate-free. */
  lemma OnceIsDistinct<T>(s: seq<T>)
    requires forall x :: multiset(s)[x] <= 1
    ensures Distinct(s)
  {
    forall i, j | 0 <= i < j < |s| ensures s[i] != s[j] {
      var x := s[i];
      assert s == s[..j] + [s[j]] + s[j + 1..];
      assert s[..j][i] == x;
      assert multiset(s)[x] == multiset(s[..j])[x] + multiset([s[j]])[x] + multiset(s[j + 1..])[x];
    }
  }

  /** Removing the entry at one index keeps a list duplicate-free and drops
      exactly that label. */
  lemma DistinctRemove(s: seq<string>, i: nat)
    requires Distinct(s) && i < |s|
    ensures Distinct(s[..i] + s[i + 1..])
    ensures s[i] !in s[..i] + s[i + 1..]
    ensures forall x :: x in s && x != s[i] ==> x in s[..i] + s[i + 1..]
  {
    var t := s[..i] + s[i + 1..];
    forall x | x in s && x != s[i] ensures x in t {
      var k :| 0 <= k < |s| && s[k] == x;
      if k < i { assert t[k] == x; } else { assert t[k - 1] == x; }
    }
  }

  /** The gate's test for one classifier: it has no element list, or an empty one. */
  predicate Lacks(c: string, els: Elements) {
    c !in els || |els[c]| == 0
  }

  /** The classifiers that still need elements, in classifier order. */
  function Missing(cs: seq<string>, els: Elements): seq<string> {
    if cs == [] then []
    else Missing(cs[..|cs| - 1], els) + (if Lacks(cs[|cs| - 1], els) then [cs[|cs| - 1]] else [])
  }

  /** A classifier is reported exactly when it is listed and lacks elements,
      and no more classifiers are reported than there are. */
  lemma {:induction false} MissingMembers(cs: seq<string>, els: Elements)
    ensures forall c :: c in Missing(cs, els) <==> c in cs && Lacks(c, els)
    ensures |Missing(cs, els)| <= |cs|
    decreases |cs|
  {
    if cs != [] {
      var front := cs[..|cs| - 1];
      MissingMembers(front, els);
      assert cs == front + [cs[|cs| - 1]];
    }
  }

  /** Missing keeps the classifiers' order: it distributes over concatenation,
      so the offending classifiers of an earlier block come first. */
  lemma {:induction false} MissingConcat(a: seq<string>, b: seq<string>, els: Elements)
    ensures Missing(a + b, els) == Missing(a, els) + Missing(b, els)
    decreases |b|
  {
    if b == [] {
      assert a + b == a;
    } else {
      var b', last := b[..|b| - 1], b[|b| - 1];
      var tail := if Lacks(last, els) then [last] else [];
      assert (a + b)[..|a + b| - 1] == a + b';
      assert (a + b)[|a + b| - 1] == last;
      assert Missing(a + b, els) == Missing(a + b', els) + tail;
      assert Missing(b, els) == Missing(b', els) + tail;
      MissingConcat(a, b', els);
    }
  }

  /** The gate opens exactly when every classifier owns at least one element. */
  lemma GateOpensIff(cs: seq<string>, els: Elements)
    ensures Missing(cs, els) == [] <==> forall c :: c in cs ==> c in els && |els[c]| > 0
  {
    MissingMembers(cs, els);
    if Missing(cs, els) != [] {
      assert Missing(cs, els)[0] in Missing(cs, els);
    }
  }
}
