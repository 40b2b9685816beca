# ADPACF project engine in Dafny

ADPACF supports a structured analysis of goals and functions. The user
lists *classifiers*, which are ordered dimensions of classification. Each
classifier owns an ordered list of *elements*. The user then reviews every
pairing of an element of one classifier with an element of the next
classifier. Each accepted pairing becomes a *link*, and the links are shown
as a forest rooted at the first classifier's elements. The forest can be
edited and exported as indented text.

This project models the data the application keeps and every operation that
changes or reads it:

- `Text`: Python's `str.strip()`. Every text field goes through it.
- `Domain`: the status an edit reports, label uniqueness, and the gate
  listing the classifiers that still have no elements.
- `Enumerator`: the candidate combinations, in the order the analysis screen
  shows them.
- `Links`: the link record, a node's children, removal of a node's links,
  and renaming of a node at link endpoints.
- `Forest`: the tree the results screen builds, and the exported lines.
- `App`: the `Project` class. Its fields are updated in place by the
  screens' operations. List and tree selections arrive as plain parameters.
- `Walkthrough`: the two-classifier example (Goal → Function), worked out.

The model follows the code where it is looser than one might expect:

- Renaming an element in its list does not rewrite links.
- Adding an element under a classifier without a list creates the list.
- Renaming a tree node does not check that the new name is unused.
- When there are no links, the export writes only the "no links" line and
  does not list the roots.

## Model

| member | source | states |
|---|---|---|
| `Text.TrimStart` | ADPACF.py:151 | drops exactly the leading whitespace run; the result is a suffix of the input and starts with a non-space |
| `Text.TrimEnd` | ADPACF.py:151 | drops exactly the trailing whitespace run; the result is a prefix of the input and ends with a non-space |
| `Text.Strip` | ADPACF.py:151 | the stripped entry has no whitespace at either end and is empty exactly when the input is all whitespace (the "empty entry" test) |
| `Text.StripSlice` | ADPACF.py:151 | what is kept is one slice of the input, with only whitespace before and after it |
| `Text.StripKeepsTrimmed` | ADPACF.py:183-187 | stripping an already trimmed label returns it unchanged, so an edit dialog saved with its pre-filled name sees the old name again |
| `Text.StripIdempotent` | ADPACF.py:151 | stripping twice is the same as stripping once |
| `App.Project.constructor` | ADPACF.py:12-17 | a new project is named "Новый проект", has no classifiers, elements or links, and is at stage 0 |
| `App.Project.AddClassifier` | ADPACF.py:149-160 | a blank entry gives EnterName, a listed one gives AlreadyExists, and both leave the list as it was; otherwise the stripped label is appended at the end; uniqueness is preserved |
| `Domain.DistinctRemove` | ADPACF.py:170 | popping one index from a duplicate-free list keeps it duplicate-free, removes that label and keeps every other |
| `App.Project.RemoveClassifier` | ADPACF.py:162-171 | with a selection, the classifier at that index is removed and its element-list key deleted; links are untouched; no selection changes nothing; uniqueness is preserved |
| `App.RenameKeepsKeys` | ADPACF.py:187-191 | renaming a classifier to an unlisted label and moving its list to the new key keeps labels unique and every list under a listed classifier |
| `App.Project.EditClassifier` | ADPACF.py:173-197 | a blank or unchanged name gives EnterName and a listed one gives AlreadyExists, with nothing changed; saving the pre-filled (trimmed) name unchanged gives EnterName; otherwise the entry at the same index is replaced (length kept), the old key is gone and the new key holds the old list; links are untouched |
| `App.Project.AddElement` | ADPACF.py:256-270 | no classifier or a blank entry gives EnterName and a label already in that list gives AlreadyExists, with nothing changed; otherwise the label is appended to the classifier's list, created empty first if missing; uniqueness is preserved |
| `App.AppendKeepsKeys` | ADPACF.py:261-264 | appending a label missing from a listed classifier's list keeps that list duplicate-free and the keys listed |
| `App.Project.RemoveElement` | ADPACF.py:272-279 | with a classifier and a selection, the element at that index is removed from that list only; links are untouched |
| `App.Project.EditElement` | ADPACF.py:281-305 | a blank or unchanged name gives EnterName and a name already in the list gives AlreadyExists, with nothing changed; saving the pre-filled (trimmed) name unchanged gives EnterName; otherwise the entry at the same index is replaced and links are untouched |
| `Domain.Missing` | ADPACF.py:317-322 | the classifiers lacking elements, in classifier order; its properties are the next three rows |
| `Domain.MissingMembers` | ADPACF.py:317-322 | a classifier is reported exactly when it is listed and has no element list or an empty one; no more are reported than there are classifiers |
| `Domain.MissingConcat` | ADPACF.py:319-322 | the reported classifiers keep classifier order |
| `Domain.GateOpensIff` | ADPACF.py:323 | nothing is reported exactly when every classifier has a present, non-empty element list |
| `App.Project.FindMissing` | ADPACF.py:317-322 | the loop's `missing` equals the classifiers lacking elements, in order, and `valid` holds exactly when there are none |
| `App.Project.GoToAnalysis` | ADPACF.py:315-330 | when classifiers lack elements they are returned and nothing changes; otherwise stage becomes 2, the links are cleared, the first candidate is on screen with the rest pending, and the analysis invariant holds; it enters through the corrected `ShowAnalysis`, so an empty enumeration leaves no candidate on screen |
| `App.Project.GoToAnalysisAsWritten` | ADPACF.py:315-330 | as in the source: the same gate, entering through `ShowAnalysisAsWritten`, so an empty enumeration keeps the candidate from an earlier visit |
| `App.Project.ShowAnalysis` | ADPACF.py:332-352 | entering analysis sets stage 2, empties the link list, restarts the enumeration at its first candidate (none on screen when it is empty) and establishes the analysis invariant |
| `App.Project.ShowAnalysisAsWritten` | ADPACF.py:332-372 | as in the source, an empty enumeration leaves the candidate from an earlier visit on record |
| `App.RestartWithin` | ADPACF.py:336-352 | an empty link list with the whole enumeration still to come satisfies the analysis invariant |
| `Enumerator.ProductLength` | ADPACF.py:360-362 | one classifier pair yields \|elements[c1]\| × \|elements[c2]\| candidates |
| `Enumerator.ProductAt` | ADPACF.py:360-362 | candidate (e1 = xs[i], e2 = ys[j]) is at position i × \|ys\| + j: outer loop over the first list, inner over the second |
| `Enumerator.ProductContains` | ADPACF.py:360-362 | a tuple is yielded for a pair exactly when it joins an element of the first list to an element of the second |
| `Enumerator.CombinationsCount` | ADPACF.py:354-362 | the candidate count is the sum over adjacent pairs with both lists present of the product of their lengths |
| `Enumerator.CombinationsComplete` | ADPACF.py:356-362 | a tuple is yielded exactly when some i has classifiers i and i+1 both keyed in `elements` and the tuple joins an element of each |
| `Enumerator.CombinationsSplit` | ADPACF.py:356 | the candidates of earlier adjacent pairs all come before those of later pairs |
| `Enumerator.Combinations` | ADPACF.py:354-362 | the generator's sequence: for each adjacent pair with both lists present, the pair's product; its properties are the rows above and below |
| `Enumerator.ProductDistinct` | ADPACF.py:360-362 | two duplicate-free lists give a duplicate-free product |
| `Enumerator.CombinationsDistinct` | ADPACF.py:354-362 | with unique classifier labels and duplicate-free lists, no candidate is yielded twice |
| `App.Project.ShowNextCombination` | ADPACF.py:364-372 | the next candidate goes on screen and leaves the pending list; when none is left, no candidate is on screen |
| `App.Accepted` | ADPACF.py:380-386 | the recorded link carries the candidate's four endpoints (its candidate is the one accepted) and the comment |
| `App.Project.Record` | ADPACF.py:380-386 | accepting appends the link of the candidate on screen with the given comment at the end of the links; rejecting appends nothing |
| `App.Project.ProcessCombination` | ADPACF.py:374-388 | accepting appends exactly one link built from the candidate on screen and the stripped comment; rejecting appends nothing; both advance; the analysis invariant is preserved |
| `App.WithinMeans` | ADPACF.py:374-388 | under the analysis invariant every recorded link, pending candidate and shown candidate comes from the enumeration, together they never outnumber it, and with no repeats in it no candidate has two links |
| `App.StepKeepsWithin` | ADPACF.py:376-388 | accepting or rejecting the candidate on screen and moving on keeps the recorded links, pending candidates and shown candidate, as a bag, inside the enumeration |
| `App.AnalysisRecordsOnce` | ADPACF.py:374-388 | with well-keyed lists, a link list within the enumeration has no two links from the same candidate |
| `App.Project.RecordedOnce` | ADPACF.py:374-388 | a consistent project in analysis has recorded at most one link per candidate |
| `App.Project.ShowNextCombinationAsWritten` | ADPACF.py:364-372 | as in the source, exhaustion leaves the last candidate on record |
| `App.Project.ProcessCombinationAsWritten` | ADPACF.py:374-388 | as in the source, a remaining candidate moves onto the screen, and accepting after exhaustion appends the last candidate's link again with the cursor staying put |
| `App.ReacceptAfterExhaustion` | ADPACF.py:366-388 | on a project with one candidate, two accepts with any comment record two identical links, more than there are candidates |
| `App.AcceptAfterReentryAsWritten` | ADPACF.py:332-388 | entering with A→B on screen, going back, removing B, entering again and accepting records A/a→B/b with the stripped comment, though the enumeration is now empty |
| `App.AcceptAfterReentry` | ADPACF.py:332-388 | the same steps with the corrected entry record nothing, whatever the comment |
| `Links.Outgoing` | ADPACF.py:447-450 | a node's children are exactly the links whose from-endpoint is that node |
| `Links.OutgoingConcat` | ADPACF.py:447-451 | children keep the link list's order |
| `Links.NoChildren` | ADPACF.py:455-463 | a node that no link leaves has no children |
| `Links.AppendedLinkIsLastChild` | ADPACF.py:496-504 | an appended link becomes the last child of the node it leaves and changes no other node's children |
| `App.Project.AddTreeElement` | ADPACF.py:465-508 | with no picked row nothing changes; with a non-blank name and a classifier exactly one link from the picked row is appended, whatever links exist; otherwise EnterName and nothing changes |
| `Links.Detach` | ADPACF.py:522-525 | afterwards no link has the node as either endpoint, and every link not touching it survives |
| `Links.DetachConcat` | ADPACF.py:522-525 | survivors keep their relative order |
| `Links.DetachUntouched` | ADPACF.py:522-525 | a list with no link touching the node is returned unchanged |
| `Links.DetachPrunes` | ADPACF.py:522-528 | after removal the node has no children and is no node's child, so its subtree is cut off |
| `App.Project.RemoveTreeElement` | ADPACF.py:510-528 | with a picked row the link list becomes the filtered list and no link touches the row; with none nothing changes |
| `Links.Relabel` | ADPACF.py:556-560 | each endpoint equal to (c, old) becomes (c, new) and none remains when the names differ; classifiers, comment and other endpoints stay |
| `App.Project.RenameTreeElement` | ADPACF.py:530-566 | a top-level row gives RootLocked and a blank or unchanged name gives EnterName, with nothing changed; otherwise the length is kept, every link is relabelled in place and no endpoint names the old node; no uniqueness check |
| `Forest.Grow` | ADPACF.py:445-463 | a node's children are its outgoing links in link-list order, each showing the target element, its classifier and the link's comment |
| `Forest.Branches` | ADPACF.py:451-463 | one child row per link, in the links' order |
| `App.Project.BuildStructureTree` | ADPACF.py:429-443 | one top-level row per element of the first classifier, in order, with an empty comment, each with one child row per link leaving it |
| `Forest.Roots` | ADPACF.py:429-443 | the roots are the first classifier's elements in insertion order, each listed even with no outgoing link, with an empty comment |
| `Forest.Indent` | ADPACF.py:595 | the indent is 4 × level spaces |
| `Forest.Line` | ADPACF.py:595-599 | a line starts with the indent, then the element, and is longer than indent, element and ` ()` around the classifier exactly when the comment is non-empty |
| `Forest.LineText` | ADPACF.py:595-599 | after the element comes ` (classifier)`, then ` [Комментарий: c]` for a non-empty comment c and nothing otherwise |
| `Forest.Header` | ADPACF.py:579-581 | four header lines, the second 50 characters long and the third blank |
| `Forest.HeaderText` | ADPACF.py:579-581 | the header's text: the title with the project name, a rule of fifty `=` and the section title |
| `Forest.ExportElement` | ADPACF.py:593-608 | a node's export starts with its own line |
| `Forest.ExportLinks` | ADPACF.py:604-608 | each link contributes at least its target's line |
| `Forest.ExportRoots` | ADPACF.py:587-588 | every root contributes at least its own line, at level 0, the first root's first |
| `Forest.ExportLines` | ADPACF.py:579-588 | the export starts with the four header lines; with no links it holds only the "Нет значимых связей между элементами" line after them |
| `Forest.ExportAfterHeader` | ADPACF.py:582-588 | with links present, the lines after the four header lines are the export of the roots in order |
| `Forest.ExportIsRender` | ADPACF.py:593-608 | exporting a node writes exactly the pre-order rendering of the subtree the results tree builds for it |
| `Forest.ExportLinksIsRender` | ADPACF.py:600-608 | exporting a node's links writes their subtrees one after another, in link order |
| `Forest.ExportRootsIsRender` | ADPACF.py:585-588 | exporting the roots writes each root's subtree in root order |
| `Forest.ExportShowsForest` | ADPACF.py:582-588 | with links present, the export is the header followed by the pre-order rendering of the results forest |
| `App.Project.ExportResults` | ADPACF.py:568-588 | the file is the header and the "no links" line when nothing is recorded, else the header and the pre-order rendering of the results tree |
| `Forest.OutgoingRanked` | ADPACF.py:447-450 | when every link goes down a ranking, a node's children rank below it |
| `Forest.GrowStable` | ADPACF.py:445-463 | when every link goes down a ranking, any two fuels above a node's rank grow the same subtree, so the whole subtree is shown |
| `Forest.BranchesStable` | ADPACF.py:451-463 | the same for a list of links whose targets rank below both fuels |
| `Forest.ExportStable` | ADPACF.py:593-608 | the same for a node's export |
| `Forest.ExportRootsStable` | ADPACF.py:585-588 | the same for the roots' export |
| `Forest.AdjacentRanked` | ADPACF.py:356-362 | links between adjacent distinct classifiers, as the analysis proposes them, go down the classifier order |
| `Forest.ExportComplete` | ADPACF.py:582-608 | for such links, fuel equal to the number of classifiers already writes the complete export |
| `Walkthrough.WalkthroughSession` | ADPACF.py:374-388 | entering the Goal/Function analysis and accepting twice with a blank comment records exactly the two links G1→F1, G1→F2 and leaves nothing on screen |
| `Walkthrough.GoalFunctionWalkthrough` | ADPACF.py:354-362 | Goal/Function with G1 and F1, F2: candidates G1→F1 then G1→F2; accepting both exports "G1 (Goal)", then F1 and F2 four spaces in |

## Findings

| source | as written | input that shows it | evidently intended | confidence | as-written member | corrected member |
|---|---|---|---|---|---|---|
| ADPACF.py:364-388 | when the generator is exhausted, `current_combination` keeps the last candidate and `process_combination` still acts on it | classifiers A, B with one element each: accept, then accept again on the "all combinations analysed" screen; the link A/a→B/b is recorded twice | once the candidates are exhausted, accept and reject record nothing, so each candidate gives at most one link | not executed | `App.Project.ProcessCombinationAsWritten` | `App.Project.ProcessCombination` |
| ADPACF.py:332-372 | `show_analysis` restarts the generator, but when it is empty `current_combination` keeps the candidate from an earlier visit | classifiers A, B with one element each: enter the analysis, go back, remove B, enter again, accept; the link A/a→B/b is recorded though no candidate exists (`App.AcceptAfterReentryAsWritten`) | entering with no candidates shows none, and accepting then records nothing (`App.AcceptAfterReentry`) | not executed | `App.Project.ShowAnalysisAsWritten` | `App.Project.ShowAnalysis` |

## Left out

- Tkinter screens, widgets, dialogs and warning texts. Each warning becomes a `Domain.Status` value.
- Clipboard paste, the print stub and the about box. These are foreign UI calls.
- Opening and saving project files. This is file I/O and JSON with no validation to verify.
- The actual writing of the export file. `Forest.ExportLines` returns the lines it would write.
- Stage changes made by the other screens (classifiers input, elements input, results). Only the gate into analysis and the analysis reset are modelled.
- `Forest.Grow`, `Forest.ExportIsRender`: the source recurses with no cycle guard until Python's recursion limit raises. The model takes a `fuel` depth bound and shows a node reached with no fuel left without its children. `Forest.GrowStable` and `Forest.ExportComplete` show that the bound cuts nothing off when the links are acyclic; cyclic links, which renames and tree edits can produce, are cut at the bound where the source would fail.
- `App.Project.ProcessCombination`: models the corrected behaviour from the Findings table. `App.Project.ProcessCombinationAsWritten` keeps the source's.
- `App.Project.ShowNextCombination`: models the corrected step, with no candidate on screen once the enumeration is exhausted. `App.Project.ShowNextCombinationAsWritten` keeps the source's.
- `App.Project.ShowAnalysis`: models the corrected entry from the Findings table. `App.Project.ShowAnalysisAsWritten` keeps the source's.
- `App.Project.GoToAnalysis`: enters through the corrected `ShowAnalysis`, so with an empty enumeration no candidate is on screen, where the source keeps the one from an earlier visit. `App.Project.GoToAnalysisAsWritten` keeps the source's.
- `App.Project.EditClassifier`, `App.Project.EditElement`: the refusal of an unchanged name is stated for trimmed labels. That every stored label is trimmed is not carried as an invariant, because a loaded project file may hold untrimmed ones.
- The analysis generator reads the lists lazily. The model takes the enumeration when analysis starts. The edit and tree dialogs are not modal: one left open from another screen can still be saved while the analysis screen is up, and it writes `classifiers`, `elements` or `structure` before it fails on its destroyed list or tree (ADPACF.py:189-191, 298, 496). The generator would then read the changed lists. The model does not capture these late writes.
- Python dicts keep insertion order, and a classifier rename moves its key to the end. No operation reads that order, and the model's map has none.
- Edit dialogs keep the index they were opened with. A list changed while a dialog is open is not modelled: `EditClassifier` and `EditElement` require a valid index.
- `App.Project.AddElement`: keeps uniqueness only when the chosen classifier is listed. The element screen's menu is filled from the listed classifiers. A classifier edit dialog left open from the classifier screen can still rename the chosen classifier afterwards (ADPACF.py:189-191), and an element added under the old name is then keyed by an unlisted classifier. The model does not capture that sequence.
- The results tree inserts the same row whether or not the node has children (ADPACF.py:439-443, 459-463). The two branches are one case here.
