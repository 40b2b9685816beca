/** The application's project data and the operations its screens apply to
    it: classifier and element lists edited by index, the gate into link
    analysis, the one-candidate-at-a-time review that records links, and the
    tree edits that rewrite the link list. Widget selections arrive as plain
    indices or picked nodes; text fields arrive raw and are stripped here. */
module App {
  import opened Text
  import opened Domain
  import opened Enumerator
  import opened Links
  import opened Forest

  /** A row picked in the results tree: its label, its classifier, and whether
      it is a top-level row. */
  datatype Picked = Picked(element: string, classifier: string, isRoot: bool)

  /** The link an accepted candidate becomes: the candidate's endpoints with
      the comment attached. */
  function Accepted(x: Combination, comment: string): (l: Link)
    ensures Candidate(l) == x && l.comment == comment
  {
    Link(x.fromClassifier, x.fromElement, x.toClassifier, x.toElement, comment)
  }

  /** The candidate a recorded link came from. */
  function Candidate(l: Link): Combination {
    Combination(l.fromClassifier, l.fromElement, l.toClassifier, l.toElement)
  }

  /** An element list, or the empty list the source creates on first use. */
  function ListOf(els: Elements, c: string): seq<string> {
    if c in els then els[c] else []
  }

  /** Classifier labels are unique, and every element list belongs to a
      listed classifier and has unique labels. */
  ghost predicate WellKeyed(cs: seq<string>, els: Elements) {
    && Distinct(cs)
    && forall c :: c in els ==> c in cs && Distinct(els[c])
  }

  /** Renaming the classifier at index to an unlisted label, and moving its
      element list to the new key, keeps the lists well keyed. */
  lemma RenameKeepsKeys(cs: seq<string>, els: Elements, index: nat, entry: string)
    requires index < |cs| && entry !in cs
    requires WellKeyed(cs, els)
    ensures var before := cs[index];
      WellKeyed(cs[index := entry], if before in els then (els - {before})[entry := els[before]] else els)
  {
    var before := cs[index];
    var cs' := cs[index := entry];
    var els' := if before in els then (els - {before})[entry := els[before]] else els;
    forall i, j | 0 <= i < j < |cs'| ensures cs'[i] != cs'[j] {
      if i != index && j != index { assert cs'[i] == cs[i] && cs'[j] == cs[j]; }
    }
    forall c | c in els' ensures c in cs' && Distinct(els'[c]) {
      if c != entry {
        assert c in els && c != before;
        var k :| 0 <= k < |cs| && cs[k] == c;
        assert cs'[k] == c;
      } else {
        assert cs'[index] == c;
      }
    }
  }

  /** Appending an element missing from a listed classifier's list keeps the
      lists well keyed. */
  lemma AppendKeepsKeys(cs: seq<string>, els: Elements, c: string, entry: string)
    requires c in cs && entry !in ListOf(els, c)
    requires WellKeyed(cs, els)
    ensures WellKeyed(cs, els[c := ListOf(els, c) + [entry]])
  {
    var list := ListOf(els, c) + [entry];
    forall i, j | 0 <= i < j < |list| ensures list[i] != list[j] {
      if j == |list| - 1 { assert list[i] in ListOf(els, c); }
    }
  }

  /** Overwriting one entry of a list with a label missing from it keeps the
      lists well keyed. */
  lemma ReplaceKeepsKeys(cs: seq<string>, els: Elements, c: string, index: nat, entry: string)
    requires c in els && index < |els[c]| && entry !in els[c]
    requires WellKeyed(cs, els)
    ensures WellKeyed(cs, els[c := els[c][index := entry]])
  {
    var list, list' := els[c], els[c][index := entry];
    forall i, j | 0 <= i < j < |list'| ensures list'[i] != list'[j] {
      if i == index {
        assert list'[j] == list[j];
      } else if j == index {
        assert list'[i] == list[i];
      } else {
        assert list'[i] == list[i] && list'[j] == list[j];
      }
    }
  }

  /** The candidates the recorded links came from, in link order. */
  function Candidates(s: seq<Link>): seq<Combination> {
    seq(|s|, i requires 0 <= i < |s| => Candidate(s[i]))
  }

  /** The candidate on screen, as a bag of at most one. */
  function OnScreen(current: Option<Combination>): multiset<Combination> {
    if current.Some? then multiset{current.value} else multiset{}
  }

  /** The analysis invariant on plain values: the candidates of the recorded
      links, the ones still to come and the one on screen, taken together,
      are drawn from all without using any candidate more often than all
      holds it. */
  ghost predicate Within(all: seq<Combination>, s: seq<Link>, pending: seq<Combination>, current: Option<Combination>) {
    multiset(Candidates(s)) + multiset(pending) + OnScreen(current) <= multiset(all)
  }

  /** Everything the analysis invariant counts is a member of all. */
  lemma WithinMembers(all: seq<Combination>, s: seq<Link>, pending: seq<Combination>, current: Option<Combination>)
    requires Within(all, s, pending, current)
    ensures forall l :: l in s ==> Candidate(l) in all
    ensures forall x :: x in pending ==> x in all
    ensures current.Some? ==> current.value in all
  {
    var used := multiset(Candidates(s)) + multiset(pending) + OnScreen(current);
    forall l | l in s ensures Candidate(l) in all {
      var k :| 0 <= k < |s| && s[k] == l;
      assert Candidates(s)[k] == Candidate(l);
      assert used[Candidate(l)] > 0;
    }
    forall x | x in pending ensures x in all {
      assert used[x] > 0;
    }
    if current.Some? {
      assert used[current.value] > 0;
    }
  }

  /** The recorded candidates of a state within a repeat-free enumeration
      are pairwise distinct. */
  lemma WithinOnce(all: seq<Combination>, s: seq<Link>, pending: seq<Combination>, current: Option<Combination>)
    requires Within(all, s, pending, current) && Distinct(all)
    ensures forall i, j :: 0 <= i < j < |s| ==> Candidate(s[i]) != Candidate(s[j])
  {
    forall x ensures multiset(Candidates(s))[x] <= 1 {
      DistinctOnce(all, x);
    }
    OnceIsDistinct(Candidates(s));
    forall i, j | 0 <= i < j < |s| ensures Candidate(s[i]) != Candidate(s[j]) {
      assert Candidates(s)[i] == Candidate(s[i]) && Candidates(s)[j] == Candidate(s[j]);
    }
  }

  /** What the analysis invariant promises: every recorded link, remaining
      candidate and the one on screen comes from the enumeration; together
      they never outnumber it; and when the enumeration has no repeats, no
      candidate is recorded twice. */
  lemma WithinMeans(all: seq<Combination>, s: seq<Link>, pending: seq<Combination>, current: Option<Combination>)
    requires Within(all, s, pending, current)
    ensures forall l :: l in s ==> Candidate(l) in all
    ensures forall x :: x in pending ==> x in all
    ensures current.Some? ==> current.value in all
    ensures |s| + |pending| + (if current.Some? then 1 else 0) <= |all|
    ensures Distinct(all) ==> forall i, j :: 0 <= i < j < |s| ==> Candidate(s[i]) != Candidate(s[j])
  {
    WithinMembers(all, s, pending, current);
    var used := multiset(Candidates(s)) + multiset(pending) + OnScreen(current);
    assert |used| <= |multiset(all)| by {
      var bag := multiset(all);
      assert bag == used + (bag - used);
    }
    assert |Candidates(s)| == |s|;
    if Distinct(all) {
      WithinOnce(all, s, pending, current);
    }
  }

  /** Moving to the next candidate after the one on screen, recording its
      link or not, keeps the analysis invariant. */
  lemma StepKeepsWithin(all: seq<Combination>, s: seq<Link>, pending: seq<Combination>, x: Combination,
                        accept: bool, comment: string)
    requires Within(all, s, pending, Some(x))
    ensures var s' := s + if accept then [Accepted(x, comment)] else [];
      && (pending != [] ==> Within(all, s', pending[1..], Some(pending[0])))
      && (pending == [] ==> Within(all, s', [], None))
  {
    var s' := s + if accept then [Accepted(x, comment)] else [];
    assert Candidates(s') == Candidates(s) + if accept then [x] else [];
    if pending != [] {
      assert pending == [pending[0]] + pending[1..];
    }
  }

  /** Starting the enumeration over, with nothing recorded, satisfies the
      analysis invariant. */
  lemma RestartWithin(all: seq<Combination>)
    ensures all != [] ==> Within(all, [], all[1..], Some(all[0]))
    ensures all == [] ==> Within(all, [], [], None)
  {
    assert Candidates([]) == [];
    if all != [] {
      assert all == [all[0]] + all[1..];
    }
  }

  /** With well-keyed lists the enumeration has no repeats, so during analysis
      no candidate's link is recorded twice. */
  lemma AnalysisRecordsOnce(cs: seq<string>, els: Elements, s: seq<Link>,
                            pending: seq<Combination>, current: Option<Combination>)
    requires WellKeyed(cs, els)
    requires Within(Combinations(cs, els), s, pending, current)
    ensures forall i, j :: 0 <= i < j < |s| ==> Candidate(s[i]) != Candidate(s[j])
  {
    CombinationsDistinct(cs, els);
    WithinMeans(Combinations(cs, els), s, pending, current);
  }

  class Project {
    var name: string
    var classifiers: seq<string>
    var elements: Elements
    var structure: seq<Link>
    /** 0 classifiers, 1 elements, 2 link analysis, 3 results. */
    var stage: nat
    /** What the candidate generator has still to yield. */
    var pending: seq<Combination>
    /** The candidate on screen; None before any has been shown. */
    var current: Option<Combination>

    /** Labels are unique, and element lists belong to listed classifiers. */
    ghost predicate Consistent()
      reads this
    {
      WellKeyed(classifiers, elements)
    }

    /** During link analysis the recorded links' candidates, the candidates
        still to come and the one on screen together use each candidate of the
        current enumeration at most as often as it occurs there. */
    ghost predicate Analysing()
      reads this
    {
      Within(Combinations(classifiers, elements), structure, pending, current)
    }

    /** In any state reached by analysis steps from a consistent project, no
        candidate has two recorded links. */
    lemma RecordedOnce()
      requires Consistent() && Analysing()
      ensures forall i, j :: 0 <= i < j < |structure| ==> Candidate(structure[i]) != Candidate(structure[j])
    {
      AnalysisRecordsOnce(classifiers, elements, structure, pending, current);
    }

    constructor ()
      ensures name == "Новый проект" && classifiers == [] && elements == map[]
      ensures structure == [] && stage == 0 && pending == [] && current == None
      ensures Consistent()
    {
      name := "Новый проект";
      classifiers := [];
      elements := map[];
      structure := [];
      stage := 0;
      pending := [];
      current := None;
    }

    /** Appends a new classifier label; a blank or already listed one is refused. */
    method AddClassifier(input: string) returns (status: Status)
      modifies this`classifiers
      ensures var entry := Strip(input);
        && (status == EnterName <==> entry == [])
        && (status == AlreadyExists <==> entry != [] && entry in old(classifiers))
        && (status == Done <==> entry != [] && entry !in old(classifiers))
        && classifiers == if status == Done then old(classifiers) + [entry] else old(classifiers)
      ensures old(Consistent()) ==> Consistent()
    {
      var entry := Strip(input);
      if entry != [] {
        if entry !in classifiers {
          classifiers := classifiers + [entry];
          status := Done;
        } else {
          status := AlreadyExists;
        }
      } else {
        status := EnterName;
      }
    }

    /** Removes the selected classifier and its element list; links that name
        it are kept. */
    method RemoveClassifier(selection: Option<nat>)
      requires selection.Some? ==> selection.value < |classifiers|
      modifies this`classifiers, this`elements
      ensures selection.None? ==> classifiers == old(classifiers) && elements == old(elements)
      ensures selection.Some? ==>
        var i := selection.value;
        && classifiers == old(classifiers[..i] + classifiers[i + 1..])
        && elements == old(elements) - {old(classifiers[i])}
      ensures old(Consistent()) ==> Consistent()
      ensures old(Consistent()) && selection.Some? ==>
        old(classifiers[selection.value]) !in classifiers && old(classifiers[selection.value]) !in elements
    {
      if selection.Some? {
        var i := selection.value;
        var c := classifiers[i];
        if old(Consistent()) {
          DistinctRemove(classifiers, i);
        }
        if c in elements {
          elements := elements - {c};
        }
        classifiers := classifiers[..i] + classifiers[i + 1..];
      }
    }

    /** Renames the classifier at index in place and moves its element list
        to the new key; links keep the old label. A blank or unchanged name,
        or one already listed, is refused. */
    method EditClassifier(index: nat, input: string) returns (status: Status)
      requires index < |classifiers|
      modifies this`classifiers, this`elements
      ensures var before, entry := old(classifiers[index]), Strip(input);
        && (status == EnterName <==> entry == [] || entry == before)
        && (status == AlreadyExists <==> entry != [] && entry != before && entry in old(classifiers))
        && (status == Done <==> entry != [] && entry != before && entry !in old(classifiers))
      ensures status == Done ==>
        var before, entry := old(classifiers[index]), Strip(input);
        && classifiers == old(classifiers)[index := entry]
        && elements == if before in old(elements)
                       then (old(elements) - {before})[entry := old(elements)[before]]
                       else old(elements)
      ensures status != Done ==> classifiers == old(classifiers) && elements == old(elements)
      ensures Trimmed(old(classifiers[index])) && input == old(classifiers[index]) ==> status == EnterName
      ensures old(Consistent()) ==> Consistent()
    {
      var before := classifiers[index];
      var entry := Strip(input);
      if Trimmed(before) && input == before {
        StripKeepsTrimmed(before);
      }
      if entry == [] || entry == before {
        return EnterName;
      }
      if entry in classifiers {
        return AlreadyExists;
      }
      if Consistent() {
        RenameKeepsKeys(classifiers, elements, index, entry);
      }
      if before in elements {
        var moved := elements[before];
        elements := (elements - {before})[entry := moved];
      }
      classifiers := classifiers[index := entry];
      status := Done;
    }

    /** Appends an element to the chosen classifier's list, creating the list
        on first use. A blank entry, no chosen classifier, or a label already
        in that list is refused. */
    method AddElement(classifier: string, input: string) returns (status: Status)
      modifies this`elements
      ensures var entry := Strip(input);
        && (status == EnterName <==> classifier == "" || entry == [])
        && (status == AlreadyExists <==> classifier != "" && entry != [] && entry in ListOf(old(elements), classifier))
        && (status == Done <==> classifier != "" && entry != [] && entry !in ListOf(old(elements), classifier))
        && elements == if status == Done
                       then old(elements)[classifier := ListOf(old(elements), classifier) + [entry]]
                       else old(elements)
      ensures old(Consistent()) && (classifier == "" || classifier in classifiers) ==> Consistent()
    {
      var entry := Strip(input);
      if classifier == "" || entry == [] {
        return EnterName;
      }
      var list := if classifier in elements then elements[classifier] else [];
      if entry in list {
        return AlreadyExists;
      }
      if Consistent() && classifier in classifiers {
        AppendKeepsKeys(classifiers, elements, classifier, entry);
      }
      elements := elements[classifier := list + [entry]];
      status := Done;
    }

    /** Removes the selected element from the chosen classifier's list; links
        that name it are kept. */
    method RemoveElement(classifier: string, selection: Option<nat>)
      requires selection.Some? && classifier != "" ==>
        classifier in elements && selection.value < |elements[classifier]|
      modifies this`elements
      ensures !(selection.Some? && classifier != "") ==> elements == old(elements)
      ensures selection.Some? && classifier != "" ==>
        var list, i := old(elements[classifier]), selection.value;
        elements == old(elements)[classifier := list[..i] + list[i + 1..]]
      ensures old(Consistent()) ==> Consistent()
    {
      if classifier != "" && selection.Some? {
        var i := selection.value;
        var list := elements[classifier];
        if old(Consistent()) {
          DistinctRemove(list, i);
        }
        elements := elements[classifier := list[..i] + list[i + 1..]];
      }
    }

    /** Renames the element at index in the chosen classifier's list in place;
        links keep the old label. A blank or unchanged name, or one already in
        that list, is refused. */
    method EditElement(classifier: string, index: nat, input: string) returns (status: Status)
      requires classifier in elements && index < |elements[classifier]|
      modifies this`elements
      ensures var list, entry := old(elements[classifier]), Strip(input);
        && (status == EnterName <==> entry == [] || entry == list[index])
        && (status == AlreadyExists <==> entry != [] && entry != list[index] && entry in list)
        && (status == Done <==> entry != [] && entry !in list)
        && elements == if status == Done
                       then old(elements)[classifier := list[index := entry]]
                       else old(elements)
      ensures var before := old(elements[classifier][index]);
        Trimmed(before) && input == before ==> status == EnterName
      ensures old(Consistent()) ==> Consistent()
    {
      var list := elements[classifier];
      var entry := Strip(input);
      if Trimmed(list[index]) && input == list[index] {
        StripKeepsTrimmed(list[index]);
      }
      if entry == [] || entry == list[index] {
        return EnterName;
      }
      if entry in list {
        return AlreadyExists;
      }
      if Consistent() {
        ReplaceKeepsKeys(classifiers, elements, classifier, index, entry);
      }
      elements := elements[classifier := list[index := entry]];
      status := Done;
    }

    /** The gate's scan: the classifiers with no element list or an empty one,
        in classifier order, and whether there are none. */
    method FindMissing() returns (valid: bool, missing: seq<string>)
      ensures missing == Missing(classifiers, elements)
      ensures valid <==> forall c :: c in classifiers ==> c in elements && |elements[c]| > 0
      ensures valid <==> missing == []
    {
      valid := true;
      missing := [];
      for i := 0 to |classifiers|
        invariant missing == Missing(classifiers[..i], elements)
        invariant valid <==> missing == []
      {
        var c := classifiers[i];
        assert classifiers[..i + 1][..i] == classifiers[..i];
        if c !in elements || |elements[c]| == 0 {
          valid := false;
          missing := missing + [c];
        }
      }
      assert classifiers[..|classifiers|] == classifiers;
      GateOpensIff(classifiers, elements);
    }

    /** Enters link analysis when every classifier has elements; otherwise
        reports the ones that lack them and changes nothing. */
    method GoToAnalysis() returns (missing: seq<string>)
      modifies this
      ensures missing == Missing(classifiers, elements)
      ensures missing == [] <==> forall c :: c in classifiers ==> c in elements && |elements[c]| > 0
      ensures missing != [] ==> unchanged(this)
      ensures missing == [] ==> stage == 2 && structure == [] && Analysing()
      ensures missing == [] ==>
        var all := Combinations(classifiers, elements);
        if all == [] then pending == [] && current == None
        else current == Some(all[0]) && pending == all[1..]
      ensures classifiers == old(classifiers) && elements == old(elements) && name == old(name)
    {
      var valid;
      valid, missing := FindMissing();
      if valid {
        stage := 2;
        ShowAnalysis();
      }
    }

    /** The gate as the source runs it: it enters through the uncorrected
        analysis screen, so with no candidate to show the one left from an
        earlier visit stays on record. */
    method GoToAnalysisAsWritten() returns (missing: seq<string>)
      modifies this
      ensures missing == Missing(classifiers, elements)
      ensures missing != [] ==> unchanged(this)
      ensures missing == [] ==> stage == 2 && structure == []
      ensures missing == [] ==>
        var all := Combinations(classifiers, elements);
        if all == [] then pending == [] && current == old(current)
        else current == Some(all[0]) && pending == all[1..]
      ensures classifiers == old(classifiers) && elements == old(elements) && name == old(name)
    {
      var valid;
      valid, missing := FindMissing();
      if valid {
        stage := 2;
        ShowAnalysisAsWritten();
      }
    }

    /** The analysis screen: discards every recorded link, restarts the
        enumeration and shows its first candidate. */
    method ShowAnalysis()
      modifies this`stage, this`structure, this`pending, this`current
      ensures stage == 2 && structure == []
      ensures var all := Combinations(classifiers, elements);
        if all == [] then pending == [] && current == None
        else current == Some(all[0]) && pending == all[1..]
      ensures Analysing()
    {
      stage := 2;
      structure := [];
      pending := Combinations(classifiers, elements);
      ShowNextCombination();
      RestartWithin(Combinations(classifiers, elements));
    }

    /** The analysis screen as the source enters it: the links are discarded
        and the enumeration restarts, but when it has no candidate the one
        left on record from an earlier visit stays. */
    method ShowAnalysisAsWritten()
      modifies this`stage, this`structure, this`pending, this`current
      ensures stage == 2 && structure == []
      ensures var all := Combinations(classifiers, elements);
        if all == [] then pending == [] && current == old(current)
        else current == Some(all[0]) && pending == all[1..]
    {
      stage := 2;
      structure := [];
      pending := Combinations(classifiers, elements);
      ShowNextCombinationAsWritten();
    }

    /** Shows the generator's next candidate; once it is exhausted no
        candidate is on screen. */
    method ShowNextCombination()
      modifies this`pending, this`current
      ensures old(pending) != [] ==> current == Some(old(pending)[0]) && pending == old(pending)[1..]
      ensures old(pending) == [] ==> current == None && pending == []
      ensures unchanged(this`classifiers, this`elements, this`structure)
    {
      if pending != [] {
        current := Some(pending[0]);
        pending := pending[1..];
      } else {
        current := None;
      }
    }

    /** Accepts (recording one link with the stripped comment) or rejects the
        candidate on screen, then moves to the next one. */
    method ProcessCombination(accept: bool, comment: string)
      modifies this`structure, this`pending, this`current
      ensures old(current).None? ==> unchanged(this)
      ensures old(current).Some? ==>
        && structure == old(structure) + (if accept then [Accepted(old(current).value, Strip(comment))] else [])
        && (old(pending) != [] ==> current == Some(old(pending)[0]) && pending == old(pending)[1..])
        && (old(pending) == [] ==> current == None && pending == [])
      ensures old(Analysing()) ==> Analysing()
    {
      if current.Some? {
        var note := Strip(comment);
        ghost var all := Combinations(classifiers, elements);
        ghost var was := Analysing();
        ghost var s1 := structure + if accept then [Accepted(current.value, note)] else [];
        ghost var p1, c1 := if pending != [] then pending[1..] else [], if pending != [] then Some(pending[0]) else None;
        if was {
          assert Within(all, s1, p1, c1) by {
            StepKeepsWithin(all, structure, pending, current.value, accept, note);
          }
        }
        Record(accept, note);
        ShowNextCombination();
        if was {
          assert structure == s1 && pending == p1 && current == c1;
          assert Within(all, structure, pending, current);
        }
      }
    }

    /** Appends the link of the candidate on screen, with the given comment,
        when it is accepted; a rejection records nothing. */
    method Record(accept: bool, note: string)
      requires current.Some?
      modifies this`structure
      ensures structure == old(structure) + if accept then [Accepted(current.value, note)] else []
    {
      if accept {
        structure := structure + [Accepted(current.value, note)];
      }
    }

    /** The generator's next candidate as the source takes it: on exhaustion
        the last candidate stays on record. */
    method ShowNextCombinationAsWritten()
      modifies this`pending, this`current
      ensures old(pending) != [] ==> current == Some(old(pending)[0]) && pending == old(pending)[1..]
      ensures old(pending) == [] ==> current == old(current) && pending == []
    {
      if pending != [] {
        current := Some(pending[0]);
        pending := pending[1..];
      }
    }

    /** Accept or reject as the source does it: once the candidates are
        exhausted, the last one is still on record and accepting records its
        link again. */
    method ProcessCombinationAsWritten(accept: bool, comment: string)
      modifies this`structure, this`pending, this`current
      ensures old(current).None? ==> unchanged(this)
      ensures old(current).Some? ==>
        structure == old(structure) + (if accept then [Accepted(old(current).value, Strip(comment))] else [])
      ensures old(current).Some? && old(pending) != [] ==>
        current == Some(old(pending)[0]) && pending == old(pending)[1..]
      ensures old(current).Some? && old(pending) == [] ==> current == old(current) && pending == []
    {
      if current.Some? {
        Record(accept, Strip(comment));
        ShowNextCombinationAsWritten();
      }
    }

    /** Adds a child under the picked row: one link from it to the new
        element, appended whatever links exist already. */
    method AddTreeElement(parent: Option<Picked>, input: string, classifier: string, comment: string)
      returns (status: Status)
      modifies this`structure
      ensures parent.None? ==> status == NothingSelected && structure == old(structure)
      ensures parent.Some? ==>
        var p, entry := parent.value, Strip(input);
        && (status == Done <==> entry != [] && classifier != "")
        && (status != Done ==> status == EnterName)
        && structure == if status == Done
                        then old(structure) + [Link(p.classifier, p.element, classifier, entry, Strip(comment))]
                        else old(structure)
    {
      if parent.None? {
        return NothingSelected;
      }
      var p := parent.value;
      var entry := Strip(input);
      var note := Strip(comment);
      if entry != [] && classifier != "" {
        structure := structure + [Link(p.classifier, p.element, classifier, entry, note)];
        status := Done;
      } else {
        status := EnterName;
      }
    }

    /** Removes the picked row: drops every link that has it as either endpoint. */
    method RemoveTreeElement(picked: Option<Picked>) returns (status: Status)
      modifies this`structure
      ensures picked.None? ==> status == NothingSelected && structure == old(structure)
      ensures picked.Some? ==>
        status == Done && structure == Detach(old(structure), picked.value.classifier, picked.value.element)
      ensures picked.Some? ==> forall l :: l in structure ==> !Touches(l, picked.value.classifier, picked.value.element)
    {
      if picked.None? {
        return NothingSelected;
      }
      structure := Detach(structure, picked.value.classifier, picked.value.element);
      status := Done;
    }

    /** Renames the picked non-top-level row: rewrites, link by link, every
        endpoint equal to it. No check that the new name is unused. */
    method RenameTreeElement(picked: Option<Picked>, input: string) returns (status: Status)
      modifies this`structure
      ensures picked.None? ==> status == NothingSelected
      ensures picked.Some? && picked.value.isRoot ==> status == RootLocked
      ensures picked.Some? && !picked.value.isRoot ==>
        var entry := Strip(input);
        (status == Done <==> entry != [] && entry != picked.value.element)
          && (status != Done ==> status == EnterName)
      ensures status != Done ==> structure == old(structure)
      ensures status == Done ==>
        var p, entry := picked.value, Strip(input);
        && |structure| == |old(structure)|
        && (forall i :: 0 <= i < |structure| ==> structure[i] == Relabel(old(structure)[i], p.classifier, p.element, entry))
        && (forall l :: l in structure ==> !Touches(l, p.classifier, p.element))
    {
      if picked.None? {
        return NothingSelected;
      }
      var p := picked.value;
      if p.isRoot {
        return RootLocked;
      }
      var entry := Strip(input);
      if entry == [] || entry == p.element {
        return EnterName;
      }
      for i := 0 to |structure|
        invariant |structure| == |old(structure)|
        invariant forall k :: 0 <= k < i ==> structure[k] == Relabel(old(structure)[k], p.classifier, p.element, entry)
        invariant forall k :: i <= k < |structure| ==> structure[k] == old(structure)[k]
      {
        structure := structure[i := Relabel(structure[i], p.classifier, p.element, entry)];
      }
      forall l | l in structure ensures !Touches(l, p.classifier, p.element) {
        var k :| 0 <= k < |structure| && structure[k] == l;
        assert l == Relabel(old(structure)[k], p.classifier, p.element, entry);
      }
      status := Done;
    }

    /** The results tree for the current data. */
    function BuildStructureTree(fuel: nat): (ts: seq<Tree>)
      reads this
      ensures |ts| == |RootElements(classifiers, elements)|
      ensures forall i :: 0 <= i < |ts| ==> ts[i].element == RootElements(classifiers, elements)[i] && ts[i].comment == ""
      ensures fuel > 0 ==> forall i :: 0 <= i < |ts| ==>
        |ts[i].children| == |Outgoing(structure, ts[i].classifier, ts[i].element)|
    {
      Roots(classifiers, elements, structure, fuel)
    }

    /** The exported text for the current data. */
    function ExportResults(fuel: nat): (r: seq<string>)
      reads this
      ensures structure == [] ==> r == Header(name) + [NoLinks]
      ensures structure != [] ==> r == Header(name) + RenderAll(BuildStructureTree(fuel), 0)
    {
      var r := ExportLines(name, classifiers, elements, structure, fuel);
      if structure == [] then r
      else
        ExportShowsForest(name, classifiers, elements, structure, fuel);
        r
    }
  }

  /** The two-classifier project of the examples below has one candidate. */
  lemma OneCandidate()
    ensures Combinations(["A", "B"], map["A" := ["a"], "B" := ["b"]]) == [Combination("A", "a", "B", "b")]
  {
    assert Row("A", "a", "B", ["b"]) == [Combination("A", "a", "B", "b")];
  }

  /** A project left with the single classifier A, which has elements,
      passes the gate and has no candidate. */
  lemma OneClassifierReady(els: Elements)
    requires "A" in els && els["A"] != []
    ensures Missing(["A"], els) == [] && Combinations(["A"], els) == []
  {
  }

  /** Two presses of "accept" on a two-classifier project with one element
      each: the first records the only candidate's link, and the second, after
      the candidates are exhausted, records the same link again. */
  method ReacceptAfterExhaustion(comment: string) returns (links: seq<Link>)
    ensures |links| == 2 && links[0] == links[1]
    ensures |links| > |Combinations(["A", "B"], map["A" := ["a"], "B" := ["b"]])|
  {
    var p := new Project();
    p.classifiers := ["A", "B"];
    p.elements := map["A" := ["a"], "B" := ["b"]];
    OneCandidate();
    p.ShowAnalysisAsWritten();
    assert p.current == Some(Combination("A", "a", "B", "b")) && p.pending == [] && p.structure == [];
    p.ProcessCombinationAsWritten(true, comment);
    assert p.current == Some(Combination("A", "a", "B", "b")) && p.pending == [] && |p.structure| == 1;
    p.ProcessCombinationAsWritten(true, comment);
    links := p.structure;
  }

  /** Entering the analysis with A -> B on screen, going back, removing B and
      entering again: as written the stale candidate stays on screen, and
      accepting records a link to a classifier that no longer exists, though
      the enumeration is now empty. */
  method AcceptAfterReentryAsWritten(comment: string) returns (links: seq<Link>)
    ensures links == [Link("A", "a", "B", "b", Strip(comment))]
  {
    var p := new Project();
    p.classifiers := ["A", "B"];
    p.elements := map["A" := ["a"], "B" := ["b"]];
    OneCandidate();
    p.ShowAnalysisAsWritten();
    p.RemoveClassifier(Some(1));
    assert p.classifiers == ["A"];
    OneClassifierReady(p.elements);
    var missing := p.GoToAnalysisAsWritten();
    assert missing == [];
    assert p.current == Some(Combination("A", "a", "B", "b")) && p.structure == [];
    p.ProcessCombinationAsWritten(true, comment);
    links := p.structure;
  }

  /** The same steps with the corrected entry: nothing is on screen the second
      time, and accepting records nothing. */
  method AcceptAfterReentry(comment: string) returns (links: seq<Link>)
    ensures links == []
  {
    var p := new Project();
    p.classifiers := ["A", "B"];
    p.elements := map["A" := ["a"], "B" := ["b"]];
    p.ShowAnalysis();
    p.RemoveClassifier(Some(1));
    assert p.classifiers == ["A"];
    OneClassifierReady(p.elements);
    var missing := p.GoToAnalysis();
    assert missing == [];
    assert p.current == None && p.structure == [];
    p.ProcessCombination(true, comment);
    links := p.structure;
  }
}
