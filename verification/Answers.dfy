/** The values the answering code passes around: evidence, evidence paths, drafted and
    published answers (`src/zhiqing_rag/query_answering/models.py`). */
module Answers {
  import opened Text

  // ----- evidence

  /** The place in a stored document a chunk comes from. */
  datatype Origin = Origin(knowledgeBaseId: string, documentId: string, revisionId: string, generationId: string)

  /** A readable chunk. `shownAs` stands for the titles and page shown with it, and `linked`
      for the graph relations and scores attached to it. */
  datatype Evidence = Evidence(citationId: string, chunkId: string, origin: Origin, content: string,
      shownAs: string, linked: bool)

  /** Where a hop or a bridge of a path is stated: a slice of a chunk. */
  datatype PathSource = PathSource(chunkId: string, origin: Origin, digest: string, quote: string, start: int, end: int)

  datatype Path = Path(pathId: string, hopSources: seq<PathSource>, bridgeSources: seq<PathSource>,
      required: seq<string>) {
    function Sources(): seq<PathSource> {
      hopSources + bridgeSources
    }
  }

  // ----- answers

  datatype Citation = Citation(citationId: string, quote: string)

  datatype Statement = Statement(text: string, citations: seq<Citation>)

  datatype Draft = Draft(answered: bool, statements: seq<Statement>)

  datatype Status = Answered | Structured | Insufficient | Rejected | Unavailable | Skipped | Unsupported

  datatype ReviewStatus = Passed | ReviewFailed | NotReviewed

  const SHORTEST_QUOTE := 2
  const LONGEST_QUOTE := 2000
  const LONGEST_TEXT := 1500
  const MOST_CITATIONS := 5
  const MOST_STATEMENTS := 8

  predicate NoDuplicates<T(==)>(s: seq<T>) {
    forall i, j | 0 <= i < j < |s| :: s[i] != s[j]
  }

  /** A statement as the draft model accepts it, but for the upper bound on its quotes. Its text
      has been stripped; quotes are kept as they are. */
  predicate SoundStatement(s: Statement) {
    && 1 <= |s.text| <= LONGEST_TEXT && Strip(s.text) == s.text
    && 1 <= |s.citations| <= MOST_CITATIONS
    && forall c | c in s.citations :: |c.quote| >= SHORTEST_QUOTE
  }

  predicate SoundDraft(d: Draft) {
    && |d.statements| <= MOST_STATEMENTS
    && (d.answered <==> d.statements != [])
    && forall s | s in d.statements :: SoundStatement(s)
  }

  /** What the `DraftAnswer` model accepts. */
  predicate WellFormed(d: Draft) {
    && SoundDraft(d)
    && forall s | s in d.statements :: NoDuplicates(s.citations) && forall c | c in s.citations ::
         |c.quote| <= LONGEST_QUOTE
  }
}
