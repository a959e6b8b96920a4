/** The problems an inspection reports, each with the quick-fix it offers. */
module Problems {
  import opened Psi

  /** The quick-fix that deletes one entry from the document. */
  datatype QuickFix = RemoveEntryFix(target: Entry)

  /** One reported problem: the flagged element, its message key, and the fix offered for it. */
  datatype Problem = Problem(element: Entry, message: string, fix: QuickFix)

  /** Collects the problems registered during one inspection pass, in registration order. */
  class ProblemsHolder {
    var problems: seq<Problem>

    constructor ()
      ensures problems == []
    {
      problems := [];
    }

    method RegisterProblem(element: Entry, message: string, fix: QuickFix)
      modifies this
      ensures problems == old(problems) + [Problem(element, message, fix)]
    {
      problems := problems + [Problem(element, message, fix)];
    }
  }

}
