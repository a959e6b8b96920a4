/**
 The part of the ignore-file syntax tree that the duplicate-entry inspection
 looks at: the entries of a file, in document order.
 */
module Psi {

  /** One pattern line of an ignore file: its text as parsed, and its position in the document. */
  datatype Entry = Entry(text: string, index: nat)

  /**
   A file handed to an inspection. Only an ignore file has entries; the tree walk
   that collects them is given here as the sequence it visits, in document order.
   */
  datatype PsiFile = IgnoreFile(entries: seq<Entry>) | OtherFile(name: string)

  /** Entries appear in the order of their positions, each position once. */
  predicate InDocumentOrder(s: seq<Entry>) {
    forall i, j :: 0 <= i < j < |s| ==> s[i].index < s[j].index
  }

}
