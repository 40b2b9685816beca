/** The candidate combinations reviewed during link analysis: for every pair of
    adjacent classifiers that both own an element list, every element of the
    first paired with every element of the second, in nested list order. */
module Enumerator {
  import opened Domain

  /** A candidate link (classifier1, element1, classifier2, element2). */
  datatype Combination = Combination(fromClassifier: string, fromElement: string,
                                     toClassifier: string, toElement: string)

  /** One element of the first classifier against every element of the second. */
  function Row(c1: string, e1: string, c2: string, ys: seq<string>): (r: seq<Combination>)
    ensures |r| == |ys|
  {
    seq(|ys|, j requires 0 <= j < |ys| => Combination(c1, e1, c2, ys[j]))
  }

  /** The inner two loops for one classifier pair, in row-major order. */
  function Product(c1: string, xs: seq<string>, c2: string, ys: seq<string>): seq<Combination> {
    if xs == [] then [] else Row(c1, xs[0], c2, ys) + Product(c1, xs[1..], c2, ys)
  }

  /** One pair yields |xs| * |ys| candidates. */
  lemma {:induction false} ProductLength(c1: string, xs: seq<string>, c2: string, ys: seq<string>)
    ensures |Product(c1, xs, c2, ys)| == |xs| * |ys|
    decreases |xs|
  {
    if xs != [] {
      ProductLength(c1, xs[1..], c2, ys);
      assert |xs| * |ys| == |ys| + (|xs| - 1) * |ys|;
    }
  }

  /** Nested order: candidate (xs[i], ys[j]) sits at position i * |ys| + j. */
  lemma {:induction false} ProductAt(c1: string, xs: seq<string>, c2: string, ys: seq<string>, i: nat, j: nat)
    requires i < |xs| && j < |ys|
    ensures i * |ys| + j < |Product(c1, xs, c2, ys)|
    ensures Product(c1, xs, c2, ys)[i * |ys| + j] == Combination(c1, xs[i], c2, ys[j])
    decreases i
  {
    if i > 0 {
      ProductAt(c1, xs[1..], c2, ys, i - 1, j);
      assert i * |ys| + j == |ys| + ((i - 1) * |ys| + j);
    } else {
      ProductLength(c1, xs, c2, ys);
      assert j < |ys| <= |xs| * |ys|;
    }
  }

  /** No omissions within a pair: a tuple is produced exactly when it pairs
      an element of xs with an element of ys. */
  lemma {:induction false} ProductContains(c1: string, xs: seq<string>, c2: string, ys: seq<string>, t: Combination)
    ensures t in Product(c1, xs, c2, ys) <==>
      t.fromClassifier == c1 && t.toClassifier == c2 && t.fromElement in xs && t.toElement in ys
    decreases |xs|
  {
    if xs != [] {
      ProductContains(c1, xs[1..], c2, ys, t);
      var head := Row(c1, xs[0], c2, ys);
      assert t in head <==> t.fromClassifier == c1 && t.fromElement == xs[0] && t.toClassifier == c2 && t.toElement in ys by {
        if t.fromClassifier == c1 && t.fromElement == xs[0] && t.toClassifier == c2 && t.toElement in ys {
          var j :| 0 <= j < |ys| && ys[j] == t.toElement;
          assert head[j] == t;
        }
      }
      assert xs == [xs[0]] + xs[1..];
    }
  }

  /** The candidates of one adjacent pair; a pair contributes nothing unless
      both classifiers have an element list. */
  function PairCombinations(c1: string, c2: string, els: Elements): seq<Combination> {
    if c1 in els && c2 in els then Product(c1, els[c1], c2, els[c2]) else []
  }

  /** The number of candidates one adjacent pair contributes. */
  function PairCount(c1: string, c2: string, els: Elements): nat {
    if c1 in els && c2 in els then |els[c1]| * |els[c2]| else 0
  }

  /** The sum over adjacent pairs of |elements[c_i]| * |elements[c_(i+1)]|. */
  function Count(cs: seq<string>, els: Elements): nat {
    if |cs| < 2 then 0 else PairCount(cs[0], cs[1], els) + Count(cs[1..], els)
  }

  /** Every candidate the analysis stage will show, in the order it shows them. */
  function Combinations(cs: seq<string>, els: Elements): seq<Combination> {
    if |cs| < 2 then [] else PairCombinations(cs[0], cs[1], els) + Combinations(cs[1..], els)
  }

  /** The number of candidates is the sum, over adjacent pairs that both have
      a list, of the product of the lists' lengths. */
  lemma {:induction false} CombinationsCount(cs: seq<string>, els: Elements)
    ensures |Combinations(cs, els)| == Count(cs, els)
    decreases |cs|
  {
    if |cs| >= 2 {
      CombinationsCount(cs[1..], els);
      if cs[0] in els && cs[1] in els {
        ProductLength(cs[0], els[cs[0]], cs[1], els[cs[1]]);
      }
    }
  }

  /** Candidate t comes from adjacent pair (cs[i], cs[i+1]). */
  predicate FromPair(cs: seq<string>, els: Elements, i: int, t: Combination)
    requires 0 <= i < |cs| - 1
  {
    && t.fromClassifier == cs[i] && t.toClassifier == cs[i + 1]
    && cs[i] in els && cs[i + 1] in els
    && t.fromElement in els[cs[i]] && t.toElement in els[cs[i + 1]]
  }

  /** No omissions and nothing extra: a tuple is enumerated exactly when it
      pairs an element of some classifier with an element of the next one. */
  lemma {:induction false} CombinationsComplete(cs: seq<string>, els: Elements, t: Combination)
    ensures t in Combinations(cs, els) <==> exists i :: 0 <= i < |cs| - 1 && FromPair(cs, els, i, t)
    decreases |cs|
  {
    if |cs| >= 2 {
      CombinationsComplete(cs[1..], els, t);
      var here := PairCombinations(cs[0], cs[1], els);
      if cs[0] in els && cs[1] in els {
        ProductContains(cs[0], els[cs[0]], cs[1], els[cs[1]], t);
      }
      assert t in here <==> FromPair(cs, els, 0, t);
      assert Combinations(cs, els) == here + Combinations(cs[1..], els);
      if t in Combinations(cs[1..], els) {
        var i :| 0 <= i < |cs[1..]| - 1 && FromPair(cs[1..], els, i, t);
        assert FromPair(cs, els, i + 1, t);
      }
      if exists i :: 0 <= i < |cs| - 1 && FromPair(cs, els, i, t) {
        var i :| 0 <= i < |cs| - 1 && FromPair(cs, els, i, t);
        if i > 0 {
          assert FromPair(cs[1..], els, i - 1, t);
        }
      }
    }
  }

  /** Order across pairs: the candidates of the pairs inside cs[..k+1] all come
      before those of the pairs inside cs[k..]. */
  lemma {:induction false} CombinationsSplit(cs: seq<string>, els: Elements, k: nat)
    requires k < |cs|
    ensures Combinations(cs, els) == Combinations(cs[..k + 1], els) + Combinations(cs[k..], els)
    decreases k
  {
    if k == 0 {
      assert |cs[..1]| == 1;
      assert cs[0..] == cs;
    } else {
      var rest := cs[1..];
      var front := cs[..k + 1];
      var pair := PairCombinations(cs[0], cs[1], els);
      CombinationsSplit(rest, els, k - 1);
      assert front[1..] == rest[..k];
      assert rest[k - 1..] == cs[k..];
      calc {
        Combinations(cs, els);
        pair + Combinations(rest, els);
        pair + (Combinations(rest[..k], els) + Combinations(rest[k - 1..], els));
        (pair + Combinations(front[1..], els)) + Combinations(cs[k..], els);
        { assert front[0] == cs[0] && front[1] == cs[1]; }
        Combinations(front, els) + Combinations(cs[k..], els);
      }
    }
  }
  /** Within one pair nothing is yielded twice when both lists are
      duplicate-free. */
  lemma {:induction false} ProductDistinct(c1: string, xs: seq<string>, c2: string, ys: seq<string>)
    requires Distinct(xs) && Distinct(ys)
    ensures Distinct(Product(c1, xs, c2, ys))
    decreases |xs|
  {
    if xs != [] {
      var row := Row(c1, xs[0], c2, ys);
      var rest := Product(c1, xs[1..], c2, ys);
      DistinctTail(xs);
      ProductDistinct(c1, xs[1..], c2, ys);
      forall i, j | 0 <= i < j < |row| ensures row[i] != row[j] {
        assert row[i].toElement == ys[i] && row[j].toElement == ys[j];
      }
      forall t | t in row ensures t !in rest {
        ProductContains(c1, xs[1..], c2, ys, t);
        var j :| 0 <= j < |row| && row[j] == t;
        assert t.fromElement == xs[0];
      }
      DistinctConcat(row, rest);
    }
  }

  /** No candidate is shown twice when the classifiers and every element list
      are duplicate-free, as the input screens keep them. */
  lemma {:induction false} CombinationsDistinct(cs: seq<string>, els: Elements)
    requires Distinct(cs) && forall c :: c in els ==> Distinct(els[c])
    ensures Distinct(Combinations(cs, els))
    decreases |cs|
  {
    if |cs| >= 2 {
      var pair := PairCombinations(cs[0], cs[1], els);
      var rest := Combinations(cs[1..], els);
      DistinctTail(cs);
      CombinationsDistinct(cs[1..], els);
      if cs[0] in els && cs[1] in els {
        ProductDistinct(cs[0], els[cs[0]], cs[1], els[cs[1]]);
        forall t | t in pair ensures t !in rest {
          ProductContains(cs[0], els[cs[0]], cs[1], els[cs[1]], t);
          forall i | 0 <= i < |cs[1..]| - 1 ensures !FromPair(cs[1..], els, i, t) {
            assert cs[1..][i] in cs[1..];
          }
          CombinationsComplete(cs[1..], els, t);
        }
      }
      DistinctConcat(pair, rest);
    }
  }
}
