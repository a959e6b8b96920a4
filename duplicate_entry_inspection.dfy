/**
 The inspection that reports entries of an ignore file duplicated by earlier
 entries. It groups the entries by text in a multimap, then reports every member
 of every group but the first, with a quick-fix that removes it.
 */
module DuplicateEntryInspection {
  import opened Wrappers
  import opened Psi
  import opened MultiMaps
  import opened Problems
  import opened DuplicateSpec

  /**
   Checks one file. A file that is not an ignore file is not applicable (`None`).
   For an ignore file the result holds one problem per entry that repeats an
   earlier entry's text, each offering to remove exactly the entry it flags. The
   problems of one text come in group order; how the texts interleave depends on the
   multimap's key order, which is left unspecified.
   */
  method CheckFile(file: PsiFile) returns (result: Option<seq<Problem>>)
    ensures result.None? <==> file.OtherFile?
    ensures file.IgnoreFile? ==>
      multiset(result.value) == multiset(Report(Duplicates(file.entries)))
    ensures file.IgnoreFile? ==> forall t {:trigger OfText(result.value, t)} ::
      OfText(result.value, t) == Report(Rest(Occurrences(file.entries, t)))
    ensures file.IgnoreFile? ==>
      |result.value| == |file.entries| - |Texts(file.entries)|
    ensures file.IgnoreFile? ==> forall p :: p in result.value ==>
      p.message == DuplicateEntryMessage && p.fix == RemoveEntryFix(p.element)
    ensures file.IgnoreFile? && InDocumentOrder(file.entries) ==>
      forall j :: 0 <= j < |file.entries| ==>
        multiset(result.value)[DuplicateProblem(file.entries[j])]
          == if IsLaterOccurrence(file.entries, j) then 1 else 0
  {
    if !file.IgnoreFile? {
      return None;
    }
    var problemsHolder := new ProblemsHolder();
    var entries := CollectEntries(file.entries);
    ReportGroups(entries, problemsHolder, file.entries);
    var problems := problemsHolder.problems;
    assert problems[0..] == problems;

    ghost var document := file.entries;
    ghost var duplicates := Duplicates(document);
    DuplicateCount(document);
    forall p | p in problems
      ensures p.message == DuplicateEntryMessage && p.fix == RemoveEntryFix(p.element)
    {
      assert p in multiset(problems);
      assert p in Report(duplicates);
    }
    if InDocumentOrder(document) {
      forall j | 0 <= j < |document|
        ensures multiset(problems)[DuplicateProblem(document[j])]
          == if IsLaterOccurrence(document, j) then 1 else 0
      {
        ReportCount(duplicates, document[j]);
        FlaggedExactlyLater(document, j);
      }
    }
    return Some(problems);
  }

  /** Checking the same file twice reports the same problems, whatever order the groups are visited in. */
  method RecheckFile(file: PsiFile) returns (first: Option<seq<Problem>>, second: Option<seq<Problem>>)
    ensures first.None? <==> second.None?
    ensures first.Some? ==> multiset(first.value) == multiset(second.value)
    ensures first.Some? ==> forall t :: OfText(first.value, t) == OfText(second.value, t)
  {
    first := CheckFile(file);
    second := CheckFile(file);
  }

  /** The visitor: every entry, in document order, is put under its exact text. */
  method CollectEntries(entries: seq<Entry>) returns (multimap: MultiMap<string, Entry>)
    ensures fresh(multimap)
    ensures multimap.Valid() && multimap.groups == Groups(entries)
  {
    multimap := new MultiMap<string, Entry>.Create();
    for i := 0 to |entries|
      invariant multimap.Valid()
      invariant multimap.groups == Groups(entries[..i])
    {
      multimap.PutValue(entries[i].text, entries[i]);
      GroupsSnoc(entries[..i], entries[i]);
      assert entries[..i + 1] == entries[..i] + [entries[i]];
    }
    assert entries[..|entries|] == entries;
  }

  /** Every group in turn, in the multimap's own key order: all members but the first are reported. */
  method ReportGroups(multimap: MultiMap<string, Entry>, problemsHolder: ProblemsHolder, ghost document: seq<Entry>)
    requires multimap.Valid() && multimap.groups == Groups(document)
    modifies problemsHolder
    ensures |old(problemsHolder.problems)| <= |problemsHolder.problems|
    ensures problemsHolder.problems[..|old(problemsHolder.problems)|] == old(problemsHolder.problems)
    ensures forall t {:trigger OfText(problemsHolder.problems[|old(problemsHolder.problems)|..], t)} ::
      OfText(problemsHolder.problems[|old(problemsHolder.problems)|..], t)
                     == Report(Rest(Occurrences(document, t)))
    ensures multiset(problemsHolder.problems)
         == multiset(old(problemsHolder.problems)) + multiset(Report(Duplicates(document)))
  {
    ghost var start := problemsHolder.problems;
    ghost var added: seq<Problem> := [];
    var groups := multimap.groups;
    var pending := groups.Keys;
    ghost var visited: set<string> := {};
    ReportedGroupsNone(document);
    while pending != {}
      invariant pending + visited == groups.Keys && pending !! visited
      invariant problemsHolder.problems == start + added
      invariant ReportedGroups(document, visited, added)
      decreases pending
    {
      var key :| key in pending;
      added := VisitGroup(key, groups[key], problemsHolder, document, visited, start, added);
      pending := pending - {key};
      visited := visited + {key};
    }
    ReportGroupsDone(document, groups, visited, start, added, problemsHolder.problems);
  }

  /**
   One turn of the `forEach`: the group of a text not yet visited is reported, and
   the problems added so far grow by that group's reports.
   */
  method VisitGroup(key: string, value: seq<Entry>, problemsHolder: ProblemsHolder,
                    ghost document: seq<Entry>, ghost visited: set<string>,
                    ghost start: seq<Problem>, ghost added: seq<Problem>)
    returns (ghost added': seq<Problem>)
    requires value != [] && value == Occurrences(document, key) && key !in visited
    requires problemsHolder.problems == start + added && ReportedGroups(document, visited, added)
    modifies problemsHolder
    ensures added' == added + Report(Rest(value))
    ensures problemsHolder.problems == start + added' && ReportedGroups(document, visited + {key}, added')
  {
    ReportGroup(value, problemsHolder);
    ghost var group := Report(Rest(value));
    AppendAssociative(start, added, group);
    ReportedGroupsStep(document, visited, key, added);
    added' := added + group;
  }

  /** The iterator over one group: its first member is skipped, every later one is reported. */
  method ReportGroup(value: seq<Entry>, problemsHolder: ProblemsHolder)
    requires value != []
    modifies problemsHolder
    ensures problemsHolder.problems == old(problemsHolder.problems) + Report(Rest(value))
  {
    var cursor := 0;
    // The first `iterator.next()`, whose member is kept and not reported.
    var kept := value[cursor];
    cursor := cursor + 1;
    while cursor < |value|
      invariant 1 <= cursor <= |value|
      invariant problemsHolder.problems == old(problemsHolder.problems) + Report(value[1..cursor])
    {
      var entry := value[cursor];
      cursor := cursor + 1;
      problemsHolder.RegisterProblem(entry, DuplicateEntryMessage, RemoveEntryFix(entry));
      ReportAppend(value[1..cursor - 1], [entry]);
      assert value[1..cursor] == value[1..cursor - 1] + [entry];
    }
  }

  // ----- Helpers -----

  lemma AppendAssociative(a: seq<Problem>, b: seq<Problem>, c: seq<Problem>)
    ensures a + b + c == a + (b + c)
  {
  }

  /** After the last group: the holder's old problems, then all groups' reports, text by text in group order. */
  lemma ReportGroupsDone(document: seq<Entry>, groups: map<string, seq<Entry>>, visited: set<string>,
                         start: seq<Problem>, added: seq<Problem>, problems: seq<Problem>)
    requires groups == Groups(document) && visited == groups.Keys
    requires problems == start + added && ReportedGroups(document, visited, added)
    ensures |start| <= |problems| && problems[..|start|] == start
    ensures forall t {:trigger OfText(problems[|start|..], t)} ::
      OfText(problems[|start|..], t) == Report(Rest(Occurrences(document, t)))
    ensures multiset(problems) == multiset(start) + multiset(Report(Duplicates(document)))
  {
    assert visited == Texts(document);
    ReportedGroupsAll(document, added);
    AppendSplit(start, added, problems);
  }

  lemma AppendSplit(a: seq<Problem>, b: seq<Problem>, ab: seq<Problem>)
    requires ab == a + b
    ensures |a| <= |ab| && ab[..|a|] == a && ab[|a|..] == b
    ensures multiset(ab) == multiset(a) + multiset(b)
  {
  }

}
