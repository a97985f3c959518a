/**
 * `DocumentAdapter`: the rows of the home screen's document list and the diff rules the list
 * uses to match old and new rows.
 */
module DocumentAdapter {

  /** A listed document: its name, its absolute path and its last-modified time. */
  datatype Document = Document(name: string, path: string, lastModified: int)

  /** `areItemsTheSame`: two rows show the same document when their paths agree. */
  predicate AreItemsTheSame(oldItem: Document, newItem: Document) {
    oldItem.path == newItem.path
  }

  /** `areContentsTheSame`: structural equality of the records. */
  predicate AreContentsTheSame(oldItem: Document, newItem: Document) {
    oldItem == newItem
  }

  /** Both rules are reflexive and symmetric, and equal contents mean the same item. */
  lemma DiffRulesConsistent(a: Document, b: Document)
    ensures AreItemsTheSame(a, a) && AreContentsTheSame(a, a)
    ensures AreItemsTheSame(a, b) == AreItemsTheSame(b, a)
    ensures AreContentsTheSame(a, b) == AreContentsTheSame(b, a)
    ensures AreContentsTheSame(a, b) ==> AreItemsTheSame(a, b)
  {
  }

  /** The same file re-listed after a change of time is the same item with new contents. */
  lemma TouchedDocumentIsUpdated(a: Document, t: int)
    requires t != a.lastModified
    ensures AreItemsTheSame(a, a.(lastModified := t))
    ensures !AreContentsTheSame(a, a.(lastModified := t))
  {
  }

  /** What `bind` puts in a row: the name shown and the document each button delivers. */
  datatype BoundRow = BoundRow(nameText: string, clickPayload: Document, deletePayload: Document)

  function Bind(document: Document): (r: BoundRow)
    ensures r.nameText == document.name
    ensures r.clickPayload == document && r.deletePayload == document
  {
    BoundRow(document.name, document, document)
  }
}
