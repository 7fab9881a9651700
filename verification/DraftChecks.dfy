/** The checks a draft has to pass before it may be reviewed: `_validate_citations` and
    `_validate_draft` in `src/zhiqing_rag/query_answering/service.py`. */
module DraftChecks {
  import opened Answers
  import opened LineBreaks
  import opened PathQuotes
  import opened Text

  /** The checks on wording this model does not look into, and the content digest. */
  datatype Guards = Guards(
    digest: string -> string,
    labelled: string -> bool,
    tableComplete: Evidence -> bool,
    semanticFails: (Draft, seq<Evidence>) -> bool,
    conditionLost: (Draft, seq<Evidence>, seq<Path>) -> bool,
    scopeAmbiguous: (string, Draft, seq<Evidence>, seq<Path>) -> bool,
    confirmationFails: (string, Draft, seq<Evidence>) -> bool)

  /** A checked value, or the code of an `InvalidAnswer`. */
  datatype Checked<+T> = Fine(value: T) | Invalid(code: string)

  /** What `_validate_draft` does: return a draft, or raise an `InvalidAnswer` with a code or another exception. */
  datatype Validated = Valid(draft: Draft) | Raises(code: Option<string>)

  const INVALID_OUTPUT := "ANSWER_INVALID_OUTPUT"
  const REFERENCE_UNKNOWN := "ANSWER_REFERENCE_UNKNOWN"
  const TABLE_CONTEXT_INCOMPLETE := "ANSWER_TABLE_CONTEXT_INCOMPLETE"
  const QUOTE_NOT_VERBATIM := "ANSWER_QUOTE_NOT_VERBATIM"
  const SEMANTIC_GUARD_FAILED := "ANSWER_SEMANTIC_GUARD_FAILED"
  const GRAPH_PATH_NOT_CITED := "ANSWER_GRAPH_PATH_NOT_CITED"
  const GRAPH_CONDITION_NOT_PRESERVED := "ANSWER_GRAPH_CONDITION_NOT_PRESERVED"
  const SOURCE_SCOPE_AMBIGUOUS := "ANSWER_SOURCE_SCOPE_AMBIGUOUS"
  const CONFIRMATION_GUARD_FAILED := "ANSWER_CONFIRMATION_GUARD_FAILED"

  // ----- citations

  /** One citation: known, from a complete table, and verbatim or restorable to it. */
  function CheckCitation(g: Guards, byId: map<string, Evidence>, c: Citation): Checked<Citation> {
    if c.citationId !in byId then Invalid(REFERENCE_UNKNOWN)
    else if !g.tableComplete(byId[c.citationId]) then Invalid(TABLE_CONTEXT_INCOMPLETE)
    else if Contains(byId[c.citationId].content, c.quote) then Fine(c)
    else
      match RestoreLineBreaks(c.quote, byId[c.citationId].content)
      case None => Invalid(QUOTE_NOT_VERBATIM)
      case Some(quote) => Fine(c.(quote := quote))
  }

  function CheckCitations(g: Guards, byId: map<string, Evidence>, citations: seq<Citation>): Checked<seq<Citation>> {
    if citations == [] then Fine([])
    else
      var before := CheckCitations(g, byId, citations[..|citations| - 1]);
      if !before.Fine? then before
      else
        match CheckCitation(g, byId, citations[|citations| - 1])
        case Fine(c) => Fine(before.value + [c])
        case Invalid(code) => Invalid(code)
  }

  function CheckStatement(g: Guards, byId: map<string, Evidence>, s: Statement): Checked<Statement> {
    if g.labelled(s.text) then Invalid(INVALID_OUTPUT)
    else
      match CheckCitations(g, byId, s.citations)
      case Fine(citations) => Fine(s.(citations := citations))
      case Invalid(code) => Invalid(code)
  }

  function CheckStatements(g: Guards, byId: map<string, Evidence>,
                           statements: seq<Statement>): Checked<seq<Statement>> {
    if statements == [] then Fine([])
    else
      var before := CheckStatements(g, byId, statements[..|statements| - 1]);
      if !before.Fine? then before
      else
        match CheckStatement(g, byId, statements[|statements| - 1])
        case Fine(s) => Fine(before.value + [s])
        case Invalid(code) => Invalid(code)
  }

  function CheckDraft(g: Guards, draft: Draft, evidence: seq<Evidence>): Checked<Draft> {
    if !DistinctIds(evidence) then Invalid(INVALID_OUTPUT)
    else
      match CheckStatements(g, ById(evidence), draft.statements)
      case Fine(statements) => Fine(draft.(statements := statements))
      case Invalid(code) => Invalid(code)
  }

  lemma {:induction false} CheckCitationsStops(g: Guards, byId: map<string, Evidence>, citations: seq<Citation>, k: nat)
    requires k <= |citations| && !CheckCitations(g, byId, citations[..k]).Fine?
    ensures CheckCitations(g, byId, citations) == CheckCitations(g, byId, citations[..k])
  {
    if k < |citations| {
      assert citations[..|citations| - 1][..k] == citations[..k];
      CheckCitationsStops(g, byId, citations[..|citations| - 1], k);
    } else {
      assert citations[..k] == citations;
    }
  }

  lemma {:induction false} CheckStatementsStops(g: Guards, byId: map<string, Evidence>,
                                                statements: seq<Statement>, k: nat)
    requires k <= |statements| && !CheckStatements(g, byId, statements[..k]).Fine?
    ensures CheckStatements(g, byId, statements) == CheckStatements(g, byId, statements[..k])
  {
    if k < |statements| {
      assert statements[..|statements| - 1][..k] == statements[..k];
      CheckStatementsStops(g, byId, statements[..|statements| - 1], k);
    } else {
      assert statements[..k] == statements;
    }
  }

  method ValidateStatement(g: Guards, byId: map<string, Evidence>, statement: Statement) returns (r: Checked<Statement>)
    ensures r == CheckStatement(g, byId, statement)
  {
    if g.labelled(statement.text) {
      return Invalid(INVALID_OUTPUT);
    }
    var citations := [];
    for k := 0 to |statement.citations|
      invariant CheckCitations(g, byId, statement.citations[..k]) == Fine(citations)
    {
      assert statement.citations[..k + 1][..k] == statement.citations[..k];
      var c := CheckCitation(g, byId, statement.citations[k]);
      if !c.Fine? {
        CheckCitationsStops(g, byId, statement.citations, k + 1);
        return Invalid(c.code);
      }
      citations := citations + [c.value];
    }
    assert statement.citations[..|statement.citations|] == statement.citations;
    return Fine(statement.(citations := citations));
  }

  /** `_validate_citations`. */
  method ValidateCitations(g: Guards, draft: Draft, evidence: seq<Evidence>) returns (r: Checked<Draft>)
    ensures r == CheckDraft(g, draft, evidence)
  {
    if !DistinctIds(evidence) {
      return Invalid(INVALID_OUTPUT);
    }
    var byId, statements := ById(evidence), [];
    for k := 0 to |draft.statements|
      invariant CheckStatements(g, byId, draft.statements[..k]) == Fine(statements)
    {
      assert draft.statements[..k + 1][..k] == draft.statements[..k];
      var s := ValidateStatement(g, byId, draft.statements[k]);
      if !s.Fine? {
        CheckStatementsStops(g, byId, draft.statements, k + 1);
        return Invalid(s.code);
      }
      statements := statements + [s.value];
    }
    assert draft.statements[..|draft.statements|] == draft.statements;
    return Fine(draft.(statements := statements));
  }

  // ----- what a checked draft is

  /** The quote is a slice of the item it names. */
  predicate VerbatimCitation(g: Guards, byId: map<string, Evidence>, c: Citation) {
    c.citationId in byId && g.tableComplete(byId[c.citationId]) && Contains(byId[c.citationId].content, c.quote)
  }

  predicate VerbatimStatement(g: Guards, byId: map<string, Evidence>, s: Statement) {
    !g.labelled(s.text) && forall c | c in s.citations :: VerbatimCitation(g, byId, c)
  }

  predicate Verbatim(g: Guards, draft: Draft, evidence: seq<Evidence>) {
    DistinctIds(evidence) && forall s | s in draft.statements :: VerbatimStatement(g, ById(evidence), s)
  }

  /** The same statement but for line breaks restored in its quotes. */
  predicate SameButBreaks(before: Statement, after: Statement) {
    && after.text == before.text && |after.citations| == |before.citations|
    && forall i | 0 <= i < |before.citations| ::
         && after.citations[i].citationId == before.citations[i].citationId
         && WithoutBreaks(after.citations[i].quote) == WithoutBreaks(before.citations[i].quote)
  }

  lemma {:induction false} CheckedCitation(g: Guards, byId: map<string, Evidence>, c: Citation)
    requires CheckCitation(g, byId, c).Fine?
    ensures var r := CheckCitation(g, byId, c).value;
            && VerbatimCitation(g, byId, r) && r.citationId == c.citationId
            && WithoutBreaks(r.quote) == WithoutBreaks(c.quote)
            && (|c.quote| >= SHORTEST_QUOTE ==> |r.quote| >= SHORTEST_QUOTE)
  {
    var content := byId[c.citationId].content;
    if !Contains(content, c.quote) {
      var i, j := RestoredIsTheOnlySlice(c.quote, content);
      ContainsSlice(content, i, j);
    }
  }

  lemma {:induction false} CheckedCitations(g: Guards, byId: map<string, Evidence>, citations: seq<Citation>)
    requires CheckCitations(g, byId, citations).Fine?
    ensures var r := CheckCitations(g, byId, citations).value;
            |r| == |citations| && forall i | 0 <= i < |r| :: CheckCitation(g, byId, citations[i]) == Fine(r[i])
  {
    var n := |citations| - 1;
    if n >= 0 {
      CheckedCitations(g, byId, citations[..n]);
      var before := CheckCitations(g, byId, citations[..n]).value;
      var last := CheckCitation(g, byId, citations[n]).value;
      assert CheckCitations(g, byId, citations).value == before + [last];
      forall i | 0 <= i < n
        ensures CheckCitation(g, byId, citations[i]) == Fine((before + [last])[i])
      {
        assert citations[..n][i] == citations[i];
      }
    }
  }

  lemma {:induction false} CheckedStatement(g: Guards, byId: map<string, Evidence>, s: Statement)
    requires CheckStatement(g, byId, s).Fine?
    ensures var r := CheckStatement(g, byId, s).value;
            VerbatimStatement(g, byId, r) && SameButBreaks(s, r) && (SoundStatement(s) ==> SoundStatement(r))
  {
    var r := CheckCitations(g, byId, s.citations).value;
    CheckedCitations(g, byId, s.citations);
    forall i | 0 <= i < |r|
      ensures VerbatimCitation(g, byId, r[i]) && r[i].citationId == s.citations[i].citationId
      ensures WithoutBreaks(r[i].quote) == WithoutBreaks(s.citations[i].quote)
      ensures SoundStatement(s) ==> |r[i].quote| >= SHORTEST_QUOTE
    {
      CheckedCitation(g, byId, s.citations[i]);
      assert s.citations[i] in s.citations;
    }
  }

  lemma {:induction false} CheckedStatements(g: Guards, byId: map<string, Evidence>, statements: seq<Statement>)
    requires CheckStatements(g, byId, statements).Fine?
    ensures var r := CheckStatements(g, byId, statements).value;
            |r| == |statements| && forall i | 0 <= i < |r| :: CheckStatement(g, byId, statements[i]) == Fine(r[i])
  {
    if statements != [] {
      CheckedStatements(g, byId, statements[..|statements| - 1]);
    }
  }

  /** A draft that passes has only verbatim quotes, and differs from the one submitted
      in nothing but restored line breaks. */
  lemma {:induction false} CheckedIsVerbatim(g: Guards, draft: Draft, evidence: seq<Evidence>)
    requires CheckDraft(g, draft, evidence).Fine?
    ensures var r := CheckDraft(g, draft, evidence).value;
            && Verbatim(g, r, evidence) && r.answered == draft.answered && |r.statements| == |draft.statements|
            && (forall i | 0 <= i < |r.statements| :: SameButBreaks(draft.statements[i], r.statements[i]))
            && (SoundDraft(draft) ==> SoundDraft(r))
  {
    var byId, r := ById(evidence), CheckDraft(g, draft, evidence).value;
    CheckedStatements(g, byId, draft.statements);
    forall i | 0 <= i < |r.statements|
      ensures VerbatimStatement(g, byId, r.statements[i]) && SameButBreaks(draft.statements[i], r.statements[i])
      ensures SoundDraft(draft) ==> SoundStatement(r.statements[i])
    {
      CheckedStatement(g, byId, draft.statements[i]);
      assert draft.statements[i] in draft.statements;
    }
  }

  lemma {:induction false} VerbatimCitationsPass(g: Guards, byId: map<string, Evidence>, citations: seq<Citation>)
    requires forall c | c in citations :: VerbatimCitation(g, byId, c)
    ensures CheckCitations(g, byId, citations) == Fine(citations)
  {
    if citations != [] {
      VerbatimCitationsPass(g, byId, citations[..|citations| - 1]);
      assert VerbatimCitation(g, byId, citations[|citations| - 1]);
      assert citations[..|citations| - 1] + [citations[|citations| - 1]] == citations;
    }
  }

  lemma {:induction false} VerbatimStatementsPass(g: Guards, byId: map<string, Evidence>, statements: seq<Statement>)
    requires forall s | s in statements :: VerbatimStatement(g, byId, s)
    ensures CheckStatements(g, byId, statements) == Fine(statements)
  {
    if statements != [] {
      VerbatimStatementsPass(g, byId, statements[..|statements| - 1]);
      assert VerbatimStatement(g, byId, statements[|statements| - 1]);
      VerbatimCitationsPass(g, byId, statements[|statements| - 1].citations);
      assert statements[..|statements| - 1] + [statements[|statements| - 1]] == statements;
    }
  }

  /** Checking again changes and refuses nothing. */
  lemma {:induction false} VerbatimPasses(g: Guards, draft: Draft, evidence: seq<Evidence>)
    requires Verbatim(g, draft, evidence)
    ensures CheckDraft(g, draft, evidence) == Fine(draft)
  {
    VerbatimStatementsPass(g, ById(evidence), draft.statements);
  }

  lemma {:induction false} WideningStaysVerbatim(g: Guards, byId: map<string, Evidence>,
                                                 before: Statement, after: Statement)
    requires OnlyWidens(byId, before, after) && VerbatimStatement(g, byId, before)
    ensures VerbatimStatement(g, byId, after)
  {
    forall w | w in after.citations
      ensures VerbatimCitation(g, byId, w)
    {
      assert HasNarrower(byId, before, w);
      var c :| c in before.citations && Widens(byId, c, w);
      assert VerbatimCitation(g, byId, c);
    }
  }

  /** A draft widened for a path is still verbatim, so its second check cannot fail. */
  lemma {:induction false} WidenedStaysVerbatim(g: Guards, draft: Draft, evidence: seq<Evidence>, path: Path)
    requires Verbatim(g, draft, evidence) && ExpandFor(g.digest, evidence, draft, path).Some?
    ensures var wider := ExpandFor(g.digest, evidence, draft, path).value;
            && wider.answered == draft.answered && Verbatim(g, wider, evidence)
            && CheckDraft(g, wider, evidence) == Fine(wider)
  {
    var wider := ExpandFor(g.digest, evidence, draft, path).value;
    ExpandOnlyWidens(g.digest, evidence, draft, path);
    forall i | 0 <= i < |wider.statements|
      ensures VerbatimStatement(g, ById(evidence), wider.statements[i])
    {
      assert draft.statements[i] in draft.statements;
      WideningStaysVerbatim(g, ById(evidence), draft.statements[i], wider.statements[i]);
    }
    VerbatimPasses(g, wider, evidence);
  }

  lemma {:induction false} ExpandStaysVerbatim(g: Guards, draft: Draft, evidence: seq<Evidence>, paths: seq<Path>)
    requires Verbatim(g, draft, evidence)
    ensures var wider := Expand(g.digest, evidence, draft, paths);
            wider.Some? ==> Verbatim(g, wider.value, evidence) && wider.value.answered == draft.answered
  {
    if paths != [] {
      if ExpandFor(g.digest, evidence, draft, paths[0]).Some? {
        WidenedStaysVerbatim(g, draft, evidence, paths[0]);
      } else {
        ExpandStaysVerbatim(g, draft, evidence, paths[1..]);
      }
    }
  }

  // ----- the whole check

  /** What `_validate_draft` promises of the draft it returns. */
  predicate Passes(g: Guards, draft: Draft, evidence: seq<Evidence>, question: string, paths: seq<Path>) {
    && Verbatim(g, draft, evidence)
    && SoundDraft(draft)
    && !g.semanticFails(draft, evidence)
    && (paths != [] ==> PathCitationsComplete(draft, evidence, paths) && !g.conditionLost(draft, evidence, paths))
    && !g.scopeAmbiguous(question, draft, evidence, paths)
    && !g.confirmationFails(question, draft, evidence)
  }

  /** The draft the guards look at: checked, then widened for the first path that allows it. */
  ghost function Submitted(g: Guards, draft: Draft, evidence: seq<Evidence>, paths: seq<Path>): Draft
    requires CheckDraft(g, draft, evidence).Fine?
  {
    var checked := CheckDraft(g, draft, evidence).value;
    Expand(g.digest, evidence, checked, paths).GetOr(checked)
  }

  /** The citations check out, and a widened draft can be built again. */
  ghost predicate Submittable(g: Guards, draft: Draft, evidence: seq<Evidence>, paths: seq<Path>) {
    && CheckDraft(g, draft, evidence).Fine?
    && (Expand(g.digest, evidence, CheckDraft(g, draft, evidence).value, paths).Some? ==>
         WellFormed(Submitted(g, draft, evidence, paths)))
  }

  /** The same statements but for their citations. */
  predicate SameTexts(a: Draft, b: Draft) {
    |a.statements| == |b.statements| && forall i | 0 <= i < |a.statements| ::
        a.statements[i].text == b.statements[i].text
  }

  lemma {:induction false} ExpandSameTexts(g: Guards, draft: Draft, evidence: seq<Evidence>, paths: seq<Path>)
    requires DistinctIds(evidence) && Expand(g.digest, evidence, draft, paths).Some?
    ensures SameTexts(draft, Expand(g.digest, evidence, draft, paths).value)
  {
    if ExpandFor(g.digest, evidence, draft, paths[0]).Some? {
      ExpandOnlyWidens(g.digest, evidence, draft, paths[0]);
    } else {
      ExpandSameTexts(g, draft, evidence, paths[1..]);
    }
  }

  /** Checking and widening leave every statement's text as it is. */
  lemma {:induction false} SubmittedSameTexts(g: Guards, draft: Draft, evidence: seq<Evidence>, paths: seq<Path>)
    requires CheckDraft(g, draft, evidence).Fine?
    ensures SameTexts(draft, Submitted(g, draft, evidence, paths))
  {
    var checked := CheckDraft(g, draft, evidence).value;
    CheckedIsVerbatim(g, draft, evidence);
    assert SameTexts(draft, checked);
    if Expand(g.digest, evidence, checked, paths).Some? {
      ExpandSameTexts(g, checked, evidence, paths);
    }
  }

  /** The code of the first guard that the submitted draft fails. */
  function Failure(g: Guards, submitted: Draft, evidence: seq<Evidence>, question: string,
                   paths: seq<Path>): Option<string> {
    if g.semanticFails(submitted, evidence) then Some(SEMANTIC_GUARD_FAILED)
    else if paths != [] && !PathCitationsComplete(submitted, evidence, paths) then Some(GRAPH_PATH_NOT_CITED)
    else if paths != [] && g.conditionLost(submitted, evidence, paths) then Some(GRAPH_CONDITION_NOT_PRESERVED)
    else if g.scopeAmbiguous(question, submitted, evidence, paths) then Some(SOURCE_SCOPE_AMBIGUOUS)
    else if g.confirmationFails(question, submitted, evidence) then Some(CONFIRMATION_GUARD_FAILED)
    else None
  }

  /** The draft fails with this code: that of its first citation that is not in order; none, if it
      cannot be built again once widened; or that of the first guard it fails. */
  ghost predicate FailsWith(g: Guards, draft: Draft, evidence: seq<Evidence>, question: string, paths: seq<Path>,
                            code: Option<string>) {
    match CheckDraft(g, draft, evidence)
    case Invalid(first) => code == Some(first)
    case Fine(_) =>
      if !Submittable(g, draft, evidence, paths) then code == None
      else code.Some? && code == Failure(g, Submitted(g, draft, evidence, paths), evidence, question, paths)
  }

  /** A draft fails with one code at most, and with one exactly if it is not accepted. */
  lemma {:induction false} FailsExactly(g: Guards, draft: Draft, evidence: seq<Evidence>,
                                        question: string, paths: seq<Path>)
    requires SoundDraft(draft)
    ensures forall a, b | FailsWith(g, draft, evidence, question, paths, a)
              && FailsWith(g, draft, evidence, question, paths, b) :: a == b
    ensures (exists code :: FailsWith(g, draft, evidence, question, paths, code)) <==>
            !(Submittable(g, draft, evidence, paths)
              && Passes(g, Submitted(g, draft, evidence, paths), evidence, question, paths))
  {
    var check := CheckDraft(g, draft, evidence);
    if check.Invalid? {
      assert FailsWith(g, draft, evidence, question, paths, Some(check.code));
    } else if !Submittable(g, draft, evidence, paths) {
      assert FailsWith(g, draft, evidence, question, paths, None);
    } else {
      SubmittedIsVerbatim(g, draft, evidence, paths);
      var code := Failure(g, Submitted(g, draft, evidence, paths), evidence, question, paths);
      assert code.Some? ==> FailsWith(g, draft, evidence, question, paths, code);
    }
  }

  lemma {:induction false} SubmittedIsVerbatim(g: Guards, draft: Draft, evidence: seq<Evidence>, paths: seq<Path>)
    requires SoundDraft(draft) && Submittable(g, draft, evidence, paths)
    ensures var submitted := Submitted(g, draft, evidence, paths);
            Verbatim(g, submitted, evidence) && SoundDraft(submitted) && submitted.answered == draft.answered
  {
    var checked := CheckDraft(g, draft, evidence).value;
    CheckedIsVerbatim(g, draft, evidence);
    ExpandStaysVerbatim(g, checked, evidence, paths);
  }

  /** `_validate_draft`. */
  method ValidateDraft(g: Guards, draft: Draft, evidence: seq<Evidence>, question: string, paths: seq<Path>)
      returns (r: Validated)
    requires SoundDraft(draft)
    ensures r.Valid? <==>
            Submittable(g, draft, evidence, paths)
            && Passes(g, Submitted(g, draft, evidence, paths), evidence, question, paths)
    ensures r.Valid? ==> r.draft == Submitted(g, draft, evidence, paths) && r.draft.answered == draft.answered
    ensures CheckDraft(g, draft, evidence).Invalid? ==> r == Raises(Some(CheckDraft(g, draft, evidence).code))
    ensures r.Raises? ==> FailsWith(g, draft, evidence, question, paths, r.code)
    ensures r == Raises(None) <==> CheckDraft(g, draft, evidence).Fine? && !Submittable(g, draft, evidence, paths)
  {
    var first := ValidateCitations(g, draft, evidence);
    if first.Invalid? {
      return Raises(Some(first.code));
    }
    CheckedIsVerbatim(g, draft, evidence);
    var checked := first.value;
    if paths != [] {
      var wider := ExpandSelectedPathQuotes(g.digest, evidence, checked, paths);
      if wider.Some? {
        if !WellFormed(wider.value) {
          return Raises(None);
        }
        ExpandStaysVerbatim(g, checked, evidence, paths);
        checked := wider.value;
      }
      VerbatimPasses(g, checked, evidence);
      var second := ValidateCitations(g, checked, evidence);
      assert second == Fine(checked);
    }
    if g.semanticFails(checked, evidence) {
      return Raises(Some(SEMANTIC_GUARD_FAILED));
    }
    if paths != [] && !PathCitationsComplete(checked, evidence, paths) {
      return Raises(Some(GRAPH_PATH_NOT_CITED));
    }
    if paths != [] && g.conditionLost(checked, evidence, paths) {
      return Raises(Some(GRAPH_CONDITION_NOT_PRESERVED));
    }
    if g.scopeAmbiguous(question, checked, evidence, paths) {
      return Raises(Some(SOURCE_SCOPE_AMBIGUOUS));
    }
    if g.confirmationFails(question, checked, evidence) {
      return Raises(Some(CONFIRMATION_GUARD_FAILED));
    }
    return Valid(checked);
  }

  // ----- a draft that cannot be built again

  /** A path whose one source is the whole of an item. */
  function PathOver(g: Guards, item: Evidence): Path {
    Path("path", [PathSource(item.chunkId, item.origin, g.digest(item.content), item.content, 0, |item.content|)], [],
        [item.chunkId])
  }

  /** One statement that quotes the first item without its line breaks, and the second as it is. */
  function QuotingBoth(text: string, first: Evidence, second: Evidence): Draft {
    Draft(true,
        [Statement(text, [Citation(first.citationId, WithoutBreaks(first.content)),
        Citation(second.citationId, second.content)])])
  }

  /** The draft is well formed and all items are complete; only the first item is longer than any
      quote may be. */
  predicate Overlong(g: Guards, text: string, first: Evidence, second: Evidence) {
    && first.citationId != second.citationId && g.tableComplete(first) && g.tableComplete(second)
    && !g.labelled(text) && 1 <= |text| <= LONGEST_TEXT && Strip(text) == text
    && SHORTEST_QUOTE <= |second.content| <= LONGEST_QUOTE
    && Framed(first.content) && SHORTEST_NEEDLE <= |WithoutBreaks(first.content)| <= LONGEST_QUOTE < |first.content|
  }

  lemma {:induction false} CitationsChecked(g: Guards, byId: map<string, Evidence>, citations: seq<Citation>,
                                            checked: seq<Citation>)
    requires |citations| == |checked| && forall i | 0 <= i < |citations| ::
             CheckCitation(g, byId, citations[i]) == Fine(checked[i])
    ensures CheckCitations(g, byId, citations) == Fine(checked)
  {
    var n := |citations| - 1;
    if n >= 0 {
      CitationsChecked(g, byId, citations[..n], checked[..n]);
      assert CheckCitation(g, byId, citations[n]) == Fine(checked[n]);
      assert checked[..n] + [checked[n]] == checked;
    }
  }

  lemma {:induction false} StatementChecked(g: Guards, byId: map<string, Evidence>, s: Statement, checked: Statement)
    requires CheckStatement(g, byId, s) == Fine(checked)
    ensures CheckStatements(g, byId, [s]) == Fine([checked])
  {
    var none: seq<Statement> := [];
    assert CheckStatements(g, byId, none) == Fine(none);
    assert [s][..|[s]| - 1] == none;
    assert none + [checked] == [checked];
  }

  lemma {:induction false} EachChecked(g: Guards, byId: map<string, Evidence>, first: Evidence, second: Evidence)
    requires first.citationId in byId && byId[first.citationId] == first && g.tableComplete(first)
    requires second.citationId in byId && byId[second.citationId] == second && g.tableComplete(second)
    requires Framed(first.content) && SHORTEST_NEEDLE <= |WithoutBreaks(first.content)| < |first.content|
    ensures CheckCitation(g, byId, Citation(first.citationId, WithoutBreaks(first.content)))
         == Fine(Citation(first.citationId, first.content))
    ensures CheckCitation(g, byId, Citation(second.citationId, second.content))
         == Fine(Citation(second.citationId, second.content))
  {
    WholeIsRestored(first.content);
    FlatDoesNotOccur(first.content);
    assert OccursAt(second.content, second.content, 0);
  }

  /** The same statement with both quotes as the items have them. */
  function Restored(text: string, first: Evidence, second: Evidence): Draft {
    Draft(true,
        [Statement(text, [Citation(first.citationId, first.content), Citation(second.citationId, second.content)])])
  }

  lemma {:induction false} BothChecked(g: Guards, text: string, first: Evidence, second: Evidence)
    requires Overlong(g, text, first, second)
    ensures CheckDraft(g, QuotingBoth(text, first, second), [first, second]) == Fine(Restored(text, first, second))
  {
    var evidence, s := [first, second], QuotingBoth(text, first, second).statements[0];
    var checked := Restored(text, first, second).statements[0];
    var byId := ById(evidence);
    ByIdFinds(evidence, first);
    ByIdFinds(evidence, second);
    EachChecked(g, byId, first, second);
    CitationsChecked(g, byId, s.citations, checked.citations);
    StatementChecked(g, byId, s, checked);
  }

  lemma {:induction false} WholeSpan(g: Guards, first: Evidence, second: Evidence)
    requires first.citationId != second.citationId && second.content != ""
    ensures var byChunk := ByChunk([first, second]);
            && second.chunkId in byChunk && byChunk[second.chunkId] == second
            && (forall source | source in PathOver(g, second).Sources() :: SourceStands(g.digest, byChunk, source))
            && SpansOf(g.digest, byChunk, PathOver(g, second).Sources()) == map[second.citationId :=
                 Span(0, |second.content|)]
  {
    var byChunk, sources := ByChunk([first, second]), PathOver(g, second).Sources();
    assert [first, second][..1] == [first];
    assert sources == [sources[0]] && sources[..0] == [];
    assert second.content[0..|second.content|] == second.content;
    assert SpansOf(g.digest, byChunk, sources[..0]) == map[];
  }

  lemma {:induction false} WholeHull(content: string)
    ensures SmallestHull(content, content, Span(0, |content|)) == Some(Span(0, |content|))
  {
    var whole := Span(0, |content|);
    assert OccursAt(content, content, 0);
    assert IsSmallestHull(content, content, whole, whole);
    SmallestHullIsUnique(content, content, whole, whole, SmallestHull(content, content, whole).value);
  }

  lemma {:induction false} BothWidened(byId: map<string, Evidence>, spans: map<string, Span>,
                                       s: Statement, second: Evidence)
    requires second.citationId in byId && byId[second.citationId] == second && |second.content| <= LONGEST_QUOTE
    requires spans == map[second.citationId := Span(0, |second.content|)]
    requires |s.citations| == 2 && s.citations[0].citationId != second.citationId
    requires s.citations[1] == Citation(second.citationId, second.content)
    ensures WidenStatements(byId, spans, [s]).Some?
  {
    WholeHull(second.content);
    assert s.citations[..1] == [s.citations[0]] && s.citations[..1][..0] == [];
    assert WidenCitations(byId, spans, s.citations[..1]).Some?;
    assert [s][..0] == [];
  }

  lemma {:induction false} SecondSelected(g: Guards, text: string, first: Evidence, second: Evidence)
    requires first.citationId != second.citationId && second.content != ""
    ensures AllSelected(ByChunk([first, second]), Restored(text, first, second), PathOver(g, second))
  {
    var statements := Restored(text, first, second).statements;
    WholeSpan(g, first, second);
    CitationsOfMember(statements, 0);
    assert statements[0].citations[1] in statements[0].citations;
  }

  lemma {:induction false} BothExpanded(g: Guards, text: string, first: Evidence, second: Evidence)
    requires Overlong(g, text, first, second)
    ensures ExpandFor(g.digest, [first, second], Restored(text, first, second), PathOver(g, second)).Some?
  {
    var evidence, path, statements := [first, second], PathOver(g, second), Restored(text, first, second).statements;
    SecondSelected(g, text, first, second);
    ByIdFinds(evidence, second);
    WholeSpan(g, first, second);
    BothWidened(ById(evidence), SpansOf(g.digest, ByChunk(evidence), path.Sources()), statements[0], second);
    assert statements == [statements[0]];
  }

  lemma {:induction false} CannotBeRebuilt(g: Guards, text: string, first: Evidence, second: Evidence)
    requires Overlong(g, text, first, second) && SoundDraft(Restored(text, first, second))
    ensures var wider := ExpandFor(g.digest, [first, second], Restored(text, first, second), PathOver(g, second));
            wider.Some? && !WellFormed(wider.value)
  {
    var evidence, path, checked := [first, second], PathOver(g, second), Restored(text, first, second);
    BothExpanded(g, text, first, second);
    WholeSpan(g, first, second);
    WidenedIsWellFormed(g.digest, evidence, checked, path);
    var s := checked.statements[0];
    assert s.citations[0] in s.citations && s.citations[0].quote == first.content;
    assert !OthersShort(SpansOf(g.digest, ByChunk(evidence), path.Sources()), s);
  }

  lemma {:induction false} ExpandOne(digest: string -> string, evidence: seq<Evidence>, draft: Draft, path: Path)
    requires DistinctIds(evidence) && ExpandFor(digest, evidence, draft, path).Some?
    ensures Expand(digest, evidence, draft, [path]) == ExpandFor(digest, evidence, draft, path)
  {
  }

  /** A quote within the limit that grows beyond it when its line breaks are restored, next to a
      selected path over another chunk: the draft was well formed and its citations check out, but
      once widened for the path it cannot be built again. */
  lemma {:induction false} OverlongQuoteFails(g: Guards, text: string, first: Evidence, second: Evidence)
    requires Overlong(g, text, first, second)
    ensures var draft := QuotingBoth(text, first, second);
            && WellFormed(draft) && CheckDraft(g, draft, [first, second]).Fine?
            && !Submittable(g, draft, [first, second], [PathOver(g, second)])
  {
    QuotingIsWellFormed(g, text, first, second);
    BothChecked(g, text, first, second);
    RestoredIsSound(g, text, first, second);
    CannotBeRebuilt(g, text, first, second);
    NotSubmittable(g, QuotingBoth(text, first, second), [first, second], PathOver(g, second));
  }

  lemma {:induction false} NotSubmittable(g: Guards, draft: Draft, evidence: seq<Evidence>, path: Path)
    requires CheckDraft(g, draft, evidence).Fine?
    requires var wider := ExpandFor(g.digest, evidence, CheckDraft(g, draft, evidence).value, path);
             wider.Some? && !WellFormed(wider.value)
    ensures !Submittable(g, draft, evidence, [path])
  {
    ExpandOne(g.digest, evidence, CheckDraft(g, draft, evidence).value, path);
  }

  lemma {:induction false} QuotingIsWellFormed(g: Guards, text: string, first: Evidence, second: Evidence)
    requires Overlong(g, text, first, second)
    ensures WellFormed(QuotingBoth(text, first, second))
  {
  }

  lemma {:induction false} RestoredIsSound(g: Guards, text: string, first: Evidence, second: Evidence)
    requires Overlong(g, text, first, second)
    ensures SoundDraft(Restored(text, first, second))
  {
  }

  const ORIGIN := Origin("base", "document", "revision", "generation")

  /** 1000 characters. */
  function Half(): (text: string)
    ensures |text| == 1000 && forall c | c in text :: c == 'x'
  {
    seq(1000, _ => 'x')
  }

  lemma {:induction false} PlainIsKept(text: string)
    requires forall c | c in text :: !IsLineBreak(c)
    ensures WithoutBreaks(text) == text
  {
    if text != "" {
      PlainIsKept(text[1..]);
    }
  }

  function TwoLines(): string {
    Half() + ("\n" + Half())
  }

  lemma {:induction false} TwoLinesAreOverlong()
    ensures Framed(TwoLines()) && |WithoutBreaks(TwoLines())| == 2000 && |TwoLines()| == 2001
  {
    var half := Half();
    PlainIsKept(half);
    WithoutAppend(half, "\n" + half, IsLineBreak);
    WithoutAppend("\n", half, IsLineBreak);
    assert half[0] in half && half[999] in half;
  }

  /** Two halves on two lines, quoted on one: `_validate_draft` fails with no code of its own. */
  method QuoteOver2000(g: Guards) returns (r: Validated)
    requires (forall item :: g.tableComplete(item)) && !g.labelled("fact")
    ensures r == Raises(None)
  {
    var first := Evidence("E1", "1", ORIGIN, TwoLines(), "", false);
    var second := Evidence("E2", "2", ORIGIN, "path", "", true);
    TwoLinesAreOverlong();
    TrimmedIsStripped("fact");
    OverlongQuoteFails(g, "fact", first, second);
    r := ValidateDraft(g, QuotingBoth("fact", first, second), [first, second], "", [PathOver(g, second)]);
  }
}
