# Duplicate entry inspection for ignore files

A Dafny model of the "duplicate entry" inspection of the idea-gitignore IDE
plugin. Given one file, the inspection returns nothing when the file is not an
ignore file. Otherwise it walks the file's entries (pattern lines) in document
order and puts each one into a multimap, keyed by the entry's exact text. Then it
visits every group of the multimap. It keeps the group's first member and
registers one problem for each later member. Each problem offers a quick-fix
that removes that entry.

The model keeps the source's imperative shape:

- `MultiMaps.MultiMap` is the multimap: a class whose `groups` field (a
  `map<K, seq<V>>`) is updated by `PutValue`. Its invariant `Valid()` says that
  no group is empty.
- `Problems.ProblemsHolder` is the problems holder: a class whose `problems` field
  grows by one on each `RegisterProblem`.
- `DuplicateEntryInspection.CheckFile` is `checkFile`. `CollectEntries` is its
  visitor loop. `ReportGroups` is its `forEach` over the groups. The source's
  order of keys is the hash order, which it does not specify; the model lets each
  run pick any order. `VisitGroup` is one turn of that `forEach`. `ReportGroup` is
  the iterator loop over one group.

The module `DuplicateSpec` states on values what the inspection computes:

- `Groups(s)` is the multimap that the visitor builds, defined independently of
  the loop.
- `Duplicates(s)` is the sequence of entries that repeat the text of an earlier
  entry.
- `Report(es)` is the problem reported for each of those entries.
- `OfText(ps, t)` keeps the problems of `ps` that flag an entry with text `t`, in
  order. It states the order of the problems within one text.

The methods are proved against these functions. The lemmas prove what the
inspection promises about them.

An `Entry` is its text plus its position in the document. The PSI tree walk is
given as the sequence of entries it visits. `InDocumentOrder` says that the
positions strictly increase. It is needed only by `GroupInDocumentOrder`,
`FlaggedExactlyLater` and the last postcondition of `CheckFile`, which talk about
document order or about one particular entry. Without it, two entries could be
equal values.

Notes on the original code:
- The source's doc comment says `checkFile` returns `null` when no problems are
  found. The code returns the holder's results, which is an empty array for an
  ignore file with no duplicates. The model follows the code: an ignore file
  always gives `Some`, possibly `Some([])`.
- Problems do not come out in document order. The code iterates over a hash
  multimap, whose key order is unspecified (hash order); the model lets each run
  pick any order. `CheckFile` therefore states its result as a multiset, and, for
  each text, as the exact sequence of that text's problems: the text's group
  without its first member, in group order (`OfText`, `GroupInDocumentOrder`).

## Model

| member | source | states |
|---|---|---|
| `DuplicateEntryInspection.CheckFile` | src/main/kotlin/mobi/hsz/idea/gitignore/codeInspection/IgnoreDuplicateEntryInspection.kt:28-59 | `None` exactly for a file that is not an ignore file. For an ignore file, the problems are, as a multiset, one per entry that repeats an earlier text. For each text, the problems flagging entries of that text are, in order, that text's group without its first member. There are as many problems as entries minus distinct texts. Each problem carries the duplicate-entry message and a removal fix that targets the very entry it flags. In a document in order, each entry is flagged once if it repeats an earlier text and never otherwise. |
| `DuplicateEntryInspection.RecheckFile` | src/main/kotlin/mobi/hsz/idea/gitignore/codeInspection/IgnoreDuplicateEntryInspection.kt:28-58 | Two runs on the same file agree on applicability. They report the same multiset of problems, and for each text the same problems in the same order. This holds even though each run may pick its own key order. |
| `DuplicateEntryInspection.CollectEntries` | src/main/kotlin/mobi/hsz/idea/gitignore/codeInspection/IgnoreDuplicateEntryInspection.kt:34-42 | The visitor loop leaves a fresh multimap that is valid (no empty group) and equal to `Groups` of the entries. |
| `DuplicateEntryInspection.ReportGroups` | src/main/kotlin/mobi/hsz/idea/gitignore/codeInspection/IgnoreDuplicateEntryInspection.kt:44-56 | Visiting every group, in any key order, keeps the holder's earlier problems as a prefix. It adds exactly the reports of `Duplicates` of the document, as a multiset. For each text, the added problems of that text are its group without the first member, in group order. |
| `DuplicateEntryInspection.VisitGroup` | src/main/kotlin/mobi/hsz/idea/gitignore/codeInspection/IgnoreDuplicateEntryInspection.kt:44-56 | One turn of the `forEach` appends the reports of one group to the holder, after the problems of earlier turns, which are left as they were. The problems added so far then also cover that group's text, as `ReportedGroups` states. |
| `DuplicateEntryInspection.ReportGroup` | src/main/kotlin/mobi/hsz/idea/gitignore/codeInspection/IgnoreDuplicateEntryInspection.kt:45-55 | For a non-empty group, the initial `next()` is safe. Then every member after the first is registered, in group order, each with a fix removing it. |
| `MultiMaps.Get` | src/main/kotlin/mobi/hsz/idea/gitignore/codeInspection/IgnoreDuplicateEntryInspection.kt:38 | In a multimap without empty groups, a key has no values exactly when it is absent. |
| `MultiMaps.MultiMap.Create` | src/main/kotlin/mobi/hsz/idea/gitignore/codeInspection/IgnoreDuplicateEntryInspection.kt:34 | A new multimap is empty and valid. |
| `MultiMaps.MultiMap.PutValue` | src/main/kotlin/mobi/hsz/idea/gitignore/codeInspection/IgnoreDuplicateEntryInspection.kt:38 | Appends the value to the end of its key's group, creating the group if needed. Leaves other keys alone and keeps every group non-empty. |
| `Problems.ProblemsHolder.constructor` | src/main/kotlin/mobi/hsz/idea/gitignore/codeInspection/IgnoreDuplicateEntryInspection.kt:33 | A new problems holder holds no problems. |
| `Problems.ProblemsHolder.RegisterProblem` | src/main/kotlin/mobi/hsz/idea/gitignore/codeInspection/IgnoreDuplicateEntryInspection.kt:50-54 | Appends exactly one problem, with the given element, message and fix, to the holder. |
| `DuplicateSpec.Occurrences` | src/main/kotlin/mobi/hsz/idea/gitignore/codeInspection/IgnoreDuplicateEntryInspection.kt:38 | A group is no longer than the document, and holds only entries of the document that carry its text. |
| `DuplicateSpec.Groups` | src/main/kotlin/mobi/hsz/idea/gitignore/codeInspection/IgnoreDuplicateEntryInspection.kt:34-42 | The multimap the visitor builds has no empty group, so the unguarded first `iterator.next()` never fails. |
| `DuplicateSpec.Duplicates` | src/main/kotlin/mobi/hsz/idea/gitignore/codeInspection/IgnoreDuplicateEntryInspection.kt:44-56 | Every flagged entry is an entry of the document. |
| `DuplicateSpec.DuplicateProblemInjective` | src/main/kotlin/mobi/hsz/idea/gitignore/codeInspection/IgnoreDuplicateEntryInspection.kt:50-54 | Two reported problems are equal if and only if they flag the same entry. So each removal fix belongs to exactly one entry. |
| `DuplicateSpec.ReportMembers` | src/main/kotlin/mobi/hsz/idea/gitignore/codeInspection/IgnoreDuplicateEntryInspection.kt:50-54 | The problem for an entry is among the reports if and only if that entry is among the reported entries. |
| `DuplicateSpec.OccurrencesMembers` | src/main/kotlin/mobi/hsz/idea/gitignore/codeInspection/IgnoreDuplicateEntryInspection.kt:38 | An entry is in the group of `t` if and only if it is in the document and its text is exactly `t`. |
| `DuplicateSpec.OccurrencesEmpty` | src/main/kotlin/mobi/hsz/idea/gitignore/codeInspection/IgnoreDuplicateEntryInspection.kt:34-42 | A text has no members if and only if no entry carries it. |
| `DuplicateSpec.GroupsSnoc` | src/main/kotlin/mobi/hsz/idea/gitignore/codeInspection/IgnoreDuplicateEntryInspection.kt:35-42 | One `putValue` of the next entry turns the multimap of a prefix into the multimap of the prefix extended by that entry. |
| `DuplicateSpec.GroupedByExactText` | src/main/kotlin/mobi/hsz/idea/gitignore/codeInspection/IgnoreDuplicateEntryInspection.kt:38 | An entry of the document is in the group of `t` if and only if its text equals `t` exactly, with no normalisation. |
| `DuplicateSpec.KeysExact` | src/main/kotlin/mobi/hsz/idea/gitignore/codeInspection/IgnoreDuplicateEntryInspection.kt:34-42 | For every document, the empty one included, the keys of the multimap are exactly the texts of the entries. |
| `DuplicateSpec.GroupInDocumentOrder` | src/main/kotlin/mobi/hsz/idea/gitignore/codeInspection/IgnoreDuplicateEntryInspection.kt:35-47 | In a document in order, the members of each group are in document order. |
| `DuplicateSpec.GroupHeadIsFirstOccurrence` | src/main/kotlin/mobi/hsz/idea/gitignore/codeInspection/IgnoreDuplicateEntryInspection.kt:44-47 | The member a group starts with, which the inspection skips, is the earliest entry with that text. |
| `DuplicateSpec.DuplicatesOfText` | src/main/kotlin/mobi/hsz/idea/gitignore/codeInspection/IgnoreDuplicateEntryInspection.kt:44-56 | For each text, the flagged entries with that text are exactly its group without the first member, in the same order. |
| `DuplicateSpec.ReportSelectUnion` | src/main/kotlin/mobi/hsz/idea/gitignore/codeInspection/IgnoreDuplicateEntryInspection.kt:44 | For any two disjoint sets of texts, the reports for their union are, as a multiset, the sum of the reports for each set. So the order in which groups are visited does not change the multiset of problems. |
| `DuplicateSpec.ReportGroupStep` | src/main/kotlin/mobi/hsz/idea/gitignore/codeInspection/IgnoreDuplicateEntryInspection.kt:44-56 | Reporting one more group adds exactly the later occurrences of its text to what the groups visited so far have reported. |
| `DuplicateSpec.OfTextGroupStep` | src/main/kotlin/mobi/hsz/idea/gitignore/codeInspection/IgnoreDuplicateEntryInspection.kt:44-56 | Reporting one more group adds problems for its own text only: that text's group without the first member, in group order. The problems of every other text are unchanged. |
| `DuplicateSpec.ReportedGroupsStep` | src/main/kotlin/mobi/hsz/idea/gitignore/codeInspection/IgnoreDuplicateEntryInspection.kt:44-56 | Reporting the group of a text not yet visited keeps both facts: the multiset of the visited groups' reports, and the per-text order. |
| `DuplicateSpec.ReportedGroupsAll` | src/main/kotlin/mobi/hsz/idea/gitignore/codeInspection/IgnoreDuplicateEntryInspection.kt:44-56 | Once every text has been visited, the problems are all the duplicates' reports. For each text, they are that text's group without the first member. |
| `DuplicateSpec.DuplicateCount` | src/main/kotlin/mobi/hsz/idea/gitignore/codeInspection/IgnoreDuplicateEntryInspection.kt:34-56 | The number of flagged entries is the number of entries minus the number of distinct texts. |
| `DuplicateSpec.NoDuplicatesIffDistinct` | src/main/kotlin/mobi/hsz/idea/gitignore/codeInspection/IgnoreDuplicateEntryInspection.kt:34-56 | Nothing is flagged if and only if all texts are distinct. This covers the empty document. |
| `DuplicateSpec.FlaggedExactlyLater` | src/main/kotlin/mobi/hsz/idea/gitignore/codeInspection/IgnoreDuplicateEntryInspection.kt:44-56 | In a document in order, an entry is flagged exactly once if an earlier entry has its text, and never otherwise. So the first occurrence of a text is never flagged. |
| `DuplicateSpec.ReportCount` | src/main/kotlin/mobi/hsz/idea/gitignore/codeInspection/IgnoreDuplicateEntryInspection.kt:50-54 | The problem for an entry occurs as often among the reports as that entry occurs among the flagged entries. So each removal fix belongs to exactly the entry it targets. |
| `DuplicateSpec.ExampleRepeatAfterOther` | src/main/kotlin/mobi/hsz/idea/gitignore/codeInspection/IgnoreDuplicateEntryInspection.kt:44-56 | For `a`, `b`, `a`, only the entry at position 2 is flagged. |
| `DuplicateSpec.ExampleGroupKeepsFirst` | src/main/kotlin/mobi/hsz/idea/gitignore/codeInspection/IgnoreDuplicateEntryInspection.kt:35-47 | For `a`, `b`, `a`, the group of `a` is positions 0 and 2 in that order, so the member kept is position 0. |
| `DuplicateSpec.ExampleThreeTimes` | src/main/kotlin/mobi/hsz/idea/gitignore/codeInspection/IgnoreDuplicateEntryInspection.kt:44-56 | For `a`, `a`, `a`, the entries at positions 1 and 2 are flagged, and position 0 is not. |
| `DuplicateSpec.ExampleCaseSensitive` | src/main/kotlin/mobi/hsz/idea/gitignore/codeInspection/IgnoreDuplicateEntryInspection.kt:38 | `Foo` and `foo` are different texts, so nothing is flagged. |

## Left out

- src/main/kotlin/mobi/hsz/idea/gitignore/actions/CreateUserTemplateAction.kt is not part of this model. It is editor and dialog glue for the host IDE.
- The PSI tree walk (`acceptChildren` with an `IgnoreVisitor`) is replaced by the sequence of entries it visits, in document order.
- `InspectionManager`, the `isOnTheFly` flag and the construction of `ProblemDescriptor`s belong to the host. A problem is modelled as its element, its message key and its fix.
- `IgnoreBundle.message` localisation: the message is the bundle key, kept as an opaque constant.
- `IgnoreRemoveEntryFix` is modelled only as a tag naming the entry it removes. Applying it edits the document, which is host behaviour.
- `runForWholeFile` is a host scheduling flag with no logic.
- CheckFile: how the problems of different texts interleave is not stated, because the multimap visits its keys in hash order, which the source does not specify. The model lets each run pick any key order. It states the multiset of problems and, for each text, the exact sequence of that text's problems.
