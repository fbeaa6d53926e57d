/**
 The document record shared by the extractor and the JSON persistence layer.
 Every field may be absent: a record loaded from JSON takes `None` for each
 key it lacks, and the extractor never sets the two derived term lists.
 */
module Documents {
  import opened Wrappers

  datatype Doc = Doc(
    documentId: Option<int>,
    title: Option<string>,
    rawText: Option<string>,
    terms: Option<seq<string>>,
    filteredTerms: Option<seq<string>>,
    stemmedTerms: Option<seq<string>>)

  /** A freshly constructed record: every field absent. */
  const EmptyDoc := Doc(None, None, None, None, None, None)
}
