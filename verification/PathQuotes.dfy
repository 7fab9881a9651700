/** Widening the quotes of an answer so that they cover a whole evidence path
    (`src/zhiqing_rag/query_answering/support.py`). */
module PathQuotes {
  import opened Answers
  import opened Text

  datatype Span = Span(start: nat, end: nat)

  // ----- comparing quotes but for layout

  predicate IsClosingMark(c: char) {
    c in "\"'“”‘’。；！？;!?"
  }

  /** `_compact`: white space deleted, quotation marks and sentence ends trimmed. */
  function Compact(text: string): string {
    Trim(Without(text, IsSpace), IsClosingMark)
  }

  /** A quote inside a longer quote stays inside it when both are compacted. */
  lemma {:induction false} CompactKeepsContains(whole: string, part: string)
    requires Contains(whole, part)
    ensures Contains(Compact(whole), Compact(part))
  {
    WithoutKeepsContains(whole, part, IsSpace);
    TrimKeepsContains(Without(whole, IsSpace), Without(part, IsSpace), IsClosingMark);
  }

  // ----- looking evidence up

  /** `{item.chunk_id: item for item in evidence}`: the last item with a key wins. */
  function ByChunk(evidence: seq<Evidence>): (m: map<string, Evidence>)
    ensures forall k | k in m :: m[k] in evidence && m[k].chunkId == k
  {
    if evidence == [] then map[]
    else
      var last := evidence[|evidence| - 1];
      ByChunk(evidence[..|evidence| - 1])[last.chunkId := last]
  }

  function ById(evidence: seq<Evidence>): (m: map<string, Evidence>)
    ensures forall k | k in m :: m[k] in evidence && m[k].citationId == k
    ensures forall item | item in evidence :: item.citationId in m
  {
    if evidence == [] then map[]
    else
      var last := evidence[|evidence| - 1];
      ById(evidence[..|evidence| - 1])[last.citationId := last]
  }

  /** No two items share a citation id; `_validate_citations` refuses anything else. */
  predicate DistinctIds(evidence: seq<Evidence>) {
    forall i, j | 0 <= i < j < |evidence| :: evidence[i].citationId != evidence[j].citationId
  }

  lemma {:induction false} ByIdFinds(evidence: seq<Evidence>, item: Evidence)
    requires DistinctIds(evidence) && item in evidence
    ensures ById(evidence)[item.citationId] == item
  {
    var found := ById(evidence)[item.citationId];
    var i :| 0 <= i < |evidence| && evidence[i] == item;
    var j :| 0 <= j < |evidence| && evidence[j] == found;
  }

  function Citations(draft: Draft): seq<Citation> {
    CitationsOf(draft.statements)
  }

  function CitationsOf(statements: seq<Statement>): seq<Citation> {
    if statements == [] then [] else statements[0].citations + CitationsOf(statements[1..])
  }

  lemma {:induction false} CitationsOfMember(statements: seq<Statement>, i: nat)
    requires i < |statements|
    ensures forall c | c in statements[i].citations :: c in CitationsOf(statements)
  {
    if i > 0 {
      CitationsOfMember(statements[1..], i - 1);
    }
  }

  lemma {:induction false} CitationsOfWhere(statements: seq<Statement>, c: Citation) returns (i: nat)
    requires c in CitationsOf(statements)
    ensures i < |statements| && c in statements[i].citations
  {
    if c in statements[0].citations {
      i := 0;
    } else {
      i := CitationsOfWhere(statements[1..], c);
      i := i + 1;
    }
  }

  // ----- a path and the citations that state it

  predicate SourceCited(citations: seq<Citation>, byChunk: map<string, Evidence>, source: PathSource) {
    exists c | c in citations ::
      source.chunkId in byChunk && c.citationId == byChunk[source.chunkId].citationId
          && Contains(Compact(c.quote), Compact(source.quote))
  }

  /** `_path_sources_cited`: every source of the path is quoted under its own citation id. */
  predicate PathSourcesCited(citations: seq<Citation>, byChunk: map<string, Evidence>, path: Path) {
    forall source | source in path.Sources() :: SourceCited(citations, byChunk, source)
  }

  predicate PathCitationsComplete(draft: Draft, evidence: seq<Evidence>, paths: seq<Path>) {
    exists path | path in paths :: PathSourcesCited(Citations(draft), ByChunk(evidence), path)
  }

  /** The path cites exactly the chunks it requires. */
  predicate RequiresItsSources(path: Path) {
    forall source | source in path.Sources() :: source.chunkId in path.required
  }

  predicate AllSelected(byChunk: map<string, Evidence>, draft: Draft, path: Path) {
    forall value | value in path.required ::
      value in byChunk && exists c | c in Citations(draft) :: c.citationId == byChunk[value].citationId
  }

  /** The stored source still is the slice of the chunk that it claims to be. */
  predicate SourceStands(digest: string -> string, byChunk: map<string, Evidence>, source: PathSource) {
    source.chunkId in byChunk &&
    var item := byChunk[source.chunkId];
    && 0 <= source.start < source.end <= |item.content|
    && digest(item.content) == source.digest
    && source.origin == item.origin
    && item.content[source.start..source.end] == source.quote
    && source.end == source.start + |source.quote|
  }

  // ----- spans of a path

  function Min(a: int, b: int): int {
    if a <= b then a else b
  }

  function Max(a: int, b: int): int {
    if a >= b then a else b
  }

  /** The spans grown to take in one more source. */
  function Widen(spans: map<string, Span>, id: string, start: nat, end: nat): map<string, Span> {
    var prior := if id in spans then spans[id] else Span(start, end);
    spans[id := Span(Min(prior.start, start), Max(prior.end, end))]
  }

  /** For each cited item, one span over all the sources that stand in it. */
  function SpansOf(digest: string -> string, byChunk: map<string, Evidence>,
                   sources: seq<PathSource>): map<string, Span> {
    if sources == [] then map[]
    else
      var source := sources[|sources| - 1];
      var spans := SpansOf(digest, byChunk, sources[..|sources| - 1]);
      if SourceStands(digest, byChunk, source) then Widen(spans, byChunk[source.chunkId].citationId,
          source.start, source.end)
      else spans
  }

  predicate SpanCovers(byChunk: map<string, Evidence>, source: PathSource, spans: map<string, Span>) {
    && source.chunkId in byChunk
    && var id := byChunk[source.chunkId].citationId;
       id in spans && spans[id].start <= source.start && source.end <= spans[id].end
  }

  lemma {:induction false} SpansCover(digest: string -> string, byChunk: map<string, Evidence>,
                                      sources: seq<PathSource>, source: PathSource)
    requires source in sources && SourceStands(digest, byChunk, source)
    ensures SpanCovers(byChunk, source, SpansOf(digest, byChunk, sources))
  {
    var last, before := sources[|sources| - 1], sources[..|sources| - 1];
    if source != last {
      assert source in before;
      SpansCover(digest, byChunk, before, source);
    }
  }

  lemma {:induction false} SpansFit(digest: string -> string, evidence: seq<Evidence>,
                                    sources: seq<PathSource>, id: string)
    requires DistinctIds(evidence) && id in SpansOf(digest, ByChunk(evidence), sources)
    ensures var span := SpansOf(digest, ByChunk(evidence), sources)[id];
            id in ById(evidence) && span.start < span.end <= |ById(evidence)[id].content|
  {
    var source, before := sources[|sources| - 1], sources[..|sources| - 1];
    if id in SpansOf(digest, ByChunk(evidence), before) {
      SpansFit(digest, evidence, before, id);
    }
    if SourceStands(digest, ByChunk(evidence), source) {
      ByIdFinds(evidence, ByChunk(evidence)[source.chunkId]);
    }
  }

  /** Walking the sources of a path, up to the first that no longer stands. */
  method CollectSpans(digest: string -> string, byChunk: map<string, Evidence>, sources: seq<PathSource>)
    returns (spans: map<string, Span>, valid: bool)
    ensures valid <==> forall source | source in sources :: SourceStands(digest, byChunk, source)
    ensures valid ==> spans == SpansOf(digest, byChunk, sources)
  {
    spans, valid := map[], true;
    var k := 0;
    while k < |sources| && valid
      invariant k <= |sources|
      invariant valid ==> spans == SpansOf(digest, byChunk, sources[..k])
      invariant valid ==> forall i | 0 <= i < k :: SourceStands(digest, byChunk, sources[i])
      invariant !valid ==> exists source | source in sources :: !SourceStands(digest, byChunk, source)
      decreases |sources| - k, valid
    {
      var source := sources[k];
      assert sources[..k + 1][..k] == sources[..k];
      if SourceStands(digest, byChunk, source) {
        spans := Widen(spans, byChunk[source.chunkId].citationId, source.start, source.end);
        k := k + 1;
      } else {
        assert source in sources;
        valid := false;
      }
    }
    assert sources[..|sources|] == sources;
  }

  // ----- widening one quote

  /** The slice from the span and one occurrence of the quote together. */
  function Hull(span: Span, at: nat, length: nat): Span {
    Span(Min(span.start, at), Max(span.end, at + length))
  }

  /** Smaller first, and further left among equals: the key of the `min` call. */
  predicate NoWider(a: Span, b: Span) {
    a.end - a.start < b.end - b.start || (a.end - a.start == b.end - b.start && a.start <= b.start)
  }

  /** `best` is the smallest slice that covers the span and some occurrence of the quote. */
  ghost predicate IsSmallestHull(content: string, quote: string, span: Span, best: Span) {
    && (exists k | 0 <= k <= |content| :: OccursAt(content, quote, k) && best == Hull(span, k, |quote|))
    && (forall k | 0 <= k <= |content| && OccursAt(content, quote, k) :: NoWider(best, Hull(span, k, |quote|)))
  }

  ghost function SmallestHull(content: string, quote: string, span: Span): (best: Option<Span>)
    ensures best.Some? ==> IsSmallestHull(content, quote, span, best.value)
    ensures best.None? ==> forall b :: !IsSmallestHull(content, quote, span, b)
  {
    if b :| IsSmallestHull(content, quote, span, b) then Some(b) else None
  }

  lemma {:induction false} SmallestHullIsUnique(content: string, quote: string, span: Span, a: Span, b: Span)
    requires span.start <= span.end
    requires IsSmallestHull(content, quote, span, a) && IsSmallestHull(content, quote, span, b)
    ensures a == b
  {
    var i :| 0 <= i <= |content| && OccursAt(content, quote, i) && a == Hull(span, i, |quote|);
    var j :| 0 <= j <= |content| && OccursAt(content, quote, j) && b == Hull(span, j, |quote|);
    assert NoWider(a, Hull(span, j, |quote|)) && NoWider(b, Hull(span, i, |quote|));
  }

  /** The `find` loop over the occurrences of a quote and the `min` over their hulls. */
  method FindSmallestHull(content: string, quote: string, span: Span) returns (best: Option<Span>)
    requires span.start <= span.end
    ensures best == SmallestHull(content, quote, span)
    ensures best.None? <==> !Contains(content, quote)
  {
    best := None;
    ghost var at := -1;
    var offset := Find(content, quote, 0);
    while offset >= 0
      invariant -1 <= offset && (offset >= 0 ==> OccursAt(content, quote, offset))
      invariant best.None? ==> offset == Find(content, quote, 0)
      invariant best.Some? ==> OccursAt(content, quote, at) && best.value == Hull(span, at, |quote|)
      invariant forall k | 0 <= k <= |content| && OccursAt(content, quote, k) ::
        (offset >= 0 && k >= offset) || (best.Some? && NoWider(best.value, Hull(span, k, |quote|)))
      decreases offset >= 0, |content| - offset
    {
      var hull := Hull(span, offset, |quote|);
      if best.None? || !NoWider(best.value, hull) {
        best, at := Some(hull), offset;
      }
      offset := Find(content, quote, offset + 1);
    }
    if best.Some? {
      assert IsSmallestHull(content, quote, span, best.value);
      SmallestHullIsUnique(content, quote, span, best.value, SmallestHull(content, quote, span).value);
    }
  }

  // ----- widening a draft for one path

  /** Every span lies in the content of a known item. */
  predicate Fitting(byId: map<string, Evidence>, spans: map<string, Span>) {
    forall id | id in spans :: id in byId && spans[id].start <= spans[id].end <= |byId[id].content|
  }

  /** One citation as it stands once the path is covered; None when that takes too long a quote. */
  ghost function WidenCitation(byId: map<string, Evidence>, spans: map<string, Span>,
                               c: Citation): (w: Option<Citation>)
    requires Fitting(byId, spans)
    ensures w.Some? ==> w.value.citationId == c.citationId
  {
    if c.citationId !in spans then Some(c)
    else
      var content := byId[c.citationId].content;
      match SmallestHull(content, c.quote, spans[c.citationId])
      case None => None
      case Some(hull) => if hull.end - hull.start > LONGEST_QUOTE then None
          else Some(Citation(c.citationId, content[hull.start..hull.end]))
  }

  ghost function WidenCitations(byId: map<string, Evidence>, spans: map<string, Span>,
                                citations: seq<Citation>): Option<seq<Citation>>
    requires Fitting(byId, spans)
  {
    if citations == [] then Some([])
    else
      match WidenCitations(byId, spans, citations[..|citations| - 1])
      case None => None
      case Some(before) =>
        match WidenCitation(byId, spans, citations[|citations| - 1])
        case None => None
        case Some(c) => Some(before + [c])
  }

  ghost function WidenStatement(byId: map<string, Evidence>, spans: map<string, Span>, s: Statement): Option<Statement>
    requires Fitting(byId, spans)
  {
    match WidenCitations(byId, spans, s.citations)
    case None => None
    case Some(citations) => Some(Statement(s.text, Distinct(citations)))
  }

  ghost function WidenStatements(byId: map<string, Evidence>, spans: map<string, Span>,
                                 statements: seq<Statement>): Option<seq<Statement>>
    requires Fitting(byId, spans)
  {
    if statements == [] then Some([])
    else
      match WidenStatements(byId, spans, statements[..|statements| - 1])
      case None => None
      case Some(before) =>
        match WidenStatement(byId, spans, statements[|statements| - 1])
        case None => None
        case Some(s) => Some(before + [s])
  }

  lemma {:induction false} WidenCitationsStops(byId: map<string, Evidence>, spans: map<string, Span>,
                                               citations: seq<Citation>, k: nat)
    requires Fitting(byId, spans) && k <= |citations| && WidenCitations(byId, spans, citations[..k]).None?
    ensures WidenCitations(byId, spans, citations).None?
  {
    if k < |citations| {
      assert citations[..|citations| - 1][..k] == citations[..k];
      WidenCitationsStops(byId, spans, citations[..|citations| - 1], k);
    } else {
      assert citations[..k] == citations;
    }
  }

  lemma {:induction false} WidenStatementsStops(byId: map<string, Evidence>, spans: map<string, Span>,
                                                statements: seq<Statement>, k: nat)
    requires Fitting(byId, spans) && k <= |statements| && WidenStatements(byId, spans, statements[..k]).None?
    ensures WidenStatements(byId, spans, statements).None?
  {
    if k < |statements| {
      assert statements[..|statements| - 1][..k] == statements[..k];
      WidenStatementsStops(byId, spans, statements[..|statements| - 1], k);
    } else {
      assert statements[..k] == statements;
    }
  }

  lemma {:induction false} WidenCitationsStep(byId: map<string, Evidence>, spans: map<string, Span>,
                                              citations: seq<Citation>, k: nat)
    requires Fitting(byId, spans) && k < |citations| && WidenCitations(byId, spans, citations[..k]).Some?
    ensures var (before, widened) :=
            (WidenCitations(byId, spans, citations[..k]).value, WidenCitation(byId, spans, citations[k]));
            WidenCitations(byId, spans, citations[..k + 1]) == if widened.Some?
                then Some(before + [widened.value]) else None
  {
    assert citations[..k + 1][..k] == citations[..k];
  }

  method Requote(byId: map<string, Evidence>, spans: map<string, Span>, c: Citation) returns (r: Option<Citation>)
    requires Fitting(byId, spans)
    ensures r == WidenCitation(byId, spans, c)
  {
    var quote := c.quote;
    if c.citationId in spans {
      var content := byId[c.citationId].content;
      var best := FindSmallestHull(content, quote, spans[c.citationId]);
      if best.None? || best.value.end - best.value.start > LONGEST_QUOTE {
        return None;
      }
      quote := content[best.value.start..best.value.end];
    }
    return Some(Citation(c.citationId, quote));
  }

  method WidenOne(byId: map<string, Evidence>, spans: map<string, Span>, statement: Statement)
      returns (r: Option<Statement>)
    requires Fitting(byId, spans)
    ensures r == WidenStatement(byId, spans, statement)
  {
    var citations, seen: set<Citation> := [], {};
    ghost var widened := [];
    for k := 0 to |statement.citations|
      invariant WidenCitations(byId, spans, statement.citations[..k]) == Some(widened)
      invariant citations == Distinct(widened) && forall c :: c in seen <==> c in citations
    {
      var c := statement.citations[k];
      WidenCitationsStep(byId, spans, statement.citations, k);
      var found := Requote(byId, spans, c);
      if found.None? {
        WidenCitationsStops(byId, spans, statement.citations, k + 1);
        return None;
      }
      var w := found.value;
      DistinctGrows(widened, w);
      widened := widened + [w];
      if w !in seen {
        citations, seen := citations + [w], seen + {w};
      }
    }
    assert statement.citations[..|statement.citations|] == statement.citations;
    return Some(Statement(statement.text, citations));
  }

  // ----- choosing a path

  /** The draft widened for one path, if the path is selected, still stands and stays short. */
  ghost function ExpandFor(digest: string -> string, evidence: seq<Evidence>, draft: Draft, path: Path): Option<Draft>
    requires DistinctIds(evidence)
  {
    var byChunk, byId := ByChunk(evidence), ById(evidence);
    if !AllSelected(byChunk, draft, path)
        || (exists source | source in path.Sources() :: !SourceStands(digest, byChunk, source)) then None
    else
      var spans := SpansOf(digest, byChunk, path.Sources());
      SpansOfFit(digest, evidence, path.Sources());
      if exists id | id in spans :: spans[id].end - spans[id].start > LONGEST_QUOTE then None
      else
        match WidenStatements(byId, spans, draft.statements)
        case None => None
        case Some(statements) => Some(Draft(draft.answered, statements))
  }

  lemma {:induction false} SpansOfFit(digest: string -> string, evidence: seq<Evidence>, sources: seq<PathSource>)
    requires DistinctIds(evidence)
    ensures Fitting(ById(evidence), SpansOf(digest, ByChunk(evidence), sources))
  {
    var spans := SpansOf(digest, ByChunk(evidence), sources);
    forall id | id in spans
      ensures id in ById(evidence) && spans[id].start <= spans[id].end <= |ById(evidence)[id].content|
    {
      SpansFit(digest, evidence, sources, id);
    }
  }

  /** The draft widened for the first path that allows it, if any does. */
  ghost function Expand(digest: string -> string, evidence: seq<Evidence>, draft: Draft,
                        paths: seq<Path>): Option<Draft>
    requires DistinctIds(evidence)
  {
    if paths == [] then None
    else
      match ExpandFor(digest, evidence, draft, paths[0])
      case Some(wider) => Some(wider)
      case None => Expand(digest, evidence, draft, paths[1..])
  }

  /** `expand_selected_path_quotes`, up to rebuilding the widened draft as a `DraftAnswer`;
      None when no path allows widening and the draft is returned as it is. */
  method ExpandSelectedPathQuotes(digest: string -> string, evidence: seq<Evidence>, draft: Draft, paths: seq<Path>)
    returns (result: Option<Draft>)
    requires DistinctIds(evidence)
    ensures result == Expand(digest, evidence, draft, paths)
  {
    var byChunk, byId := ByChunk(evidence), ById(evidence);
    for p := 0 to |paths|
      invariant Expand(digest, evidence, draft, paths) == Expand(digest, evidence, draft, paths[p..])
    {
      var path := paths[p];
      assert paths[p..][1..] == paths[p + 1..];
      if AllSelected(byChunk, draft, path) {
        var spans, valid := CollectSpans(digest, byChunk, path.Sources());
        if valid && forall id | id in spans :: spans[id].end - spans[id].start <= LONGEST_QUOTE {
          SpansOfFit(digest, evidence, path.Sources());
          var statements := WidenAll(byId, spans, draft.statements);
          if statements.Some? {
            return Some(Draft(draft.answered, statements.value));
          }
        }
      }
    }
    return None;
  }

  method WidenAll(byId: map<string, Evidence>, spans: map<string, Span>, statements: seq<Statement>)
      returns (r: Option<seq<Statement>>)
    requires Fitting(byId, spans)
    ensures r == WidenStatements(byId, spans, statements)
  {
    var wider := [];
    for k := 0 to |statements|
      invariant WidenStatements(byId, spans, statements[..k]) == Some(wider)
    {
      assert statements[..k + 1][..k] == statements[..k];
      var s := WidenOne(byId, spans, statements[k]);
      if s.None? {
        WidenStatementsStops(byId, spans, statements, k + 1);
        return None;
      }
      wider := wider + [s.value];
    }
    assert statements[..|statements|] == statements;
    return Some(wider);
  }

  // ----- what widening keeps and what it achieves

  /** `w` is `c` with a longer quote from the same item, or `c` itself. */
  predicate Widens(byId: map<string, Evidence>, c: Citation, w: Citation) {
    && w.citationId == c.citationId
    && Contains(w.quote, c.quote)
    && (w == c || (c.citationId in byId && Contains(byId[c.citationId].content, w.quote) && |w.quote| <= LONGEST_QUOTE))
  }

  /** `after` says what `before` says, with the same citation ids and every old quote inside a new one. */
  predicate OnlyWidens(byId: map<string, Evidence>, before: Statement, after: Statement) {
    && after.text == before.text
    && |after.citations| <= |before.citations| && (before.citations != [] ==> after.citations != [])
    && (forall i, j | 0 <= i < j < |after.citations| :: after.citations[i] != after.citations[j])
    && (forall c {:trigger HasWider(byId, c, after)} | c in before.citations :: HasWider(byId, c, after))
    && (forall w {:trigger HasNarrower(byId, before, w)} | w in after.citations :: HasNarrower(byId, before, w))
  }

  /** The quote `c` is inside some quote of `after`. */
  predicate HasWider(byId: map<string, Evidence>, c: Citation, after: Statement) {
    exists w | w in after.citations :: Widens(byId, c, w)
  }

  /** The citation `w` comes from some citation of `before`. */
  predicate HasNarrower(byId: map<string, Evidence>, before: Statement, w: Citation) {
    exists c | c in before.citations :: Widens(byId, c, w)
  }

  lemma {:induction false} HullWidens(byId: map<string, Evidence>, spans: map<string, Span>, c: Citation)
    requires Fitting(byId, spans) && WidenCitation(byId, spans, c).Some?
    ensures Widens(byId, c, WidenCitation(byId, spans, c).value)
    ensures c.citationId in spans ==>
      Contains(WidenCitation(byId, spans, c).value.quote,
          byId[c.citationId].content[spans[c.citationId].start..spans[c.citationId].end])
  {
    if c.citationId in spans {
      HullHolds(byId[c.citationId].content, c.quote, spans[c.citationId]);
    } else {
      ContainsSlice(c.quote, 0, |c.quote|);
      assert c.quote[0..|c.quote|] == c.quote;
    }
  }

  lemma {:induction false} HullHolds(content: string, quote: string, span: Span)
    requires span.start <= span.end <= |content| && SmallestHull(content, quote, span).Some?
    ensures var hull := SmallestHull(content, quote, span).value;
            && hull.start <= hull.end <= |content|
            && Contains(content[hull.start..hull.end], quote)
            && Contains(content[hull.start..hull.end], content[span.start..span.end])
            && Contains(content, content[hull.start..hull.end])
  {
    var hull := SmallestHull(content, quote, span).value;
    var k :| 0 <= k <= |content| && OccursAt(content, quote, k) && hull == Hull(span, k, |quote|);
    SliceInSlice(content, hull.start, hull.end, k, k + |quote|);
    SliceInSlice(content, hull.start, hull.end, span.start, span.end);
    ContainsSlice(content, hull.start, hull.end);
  }

  lemma {:induction false} SliceInSlice(text: string, i: nat, j: nat, k: nat, l: nat)
    requires i <= k <= l <= j <= |text|
    ensures Contains(text[i..j], text[k..l])
  {
    ContainsMiddle(text[i..k], text[k..l], text[l..j]);
    assert text[i..j] == text[i..k] + (text[k..l] + text[l..j]);
  }

  lemma {:induction false} WidenCitationsMembers(byId: map<string, Evidence>, spans: map<string, Span>,
                                                 citations: seq<Citation>)
    requires Fitting(byId, spans) && WidenCitations(byId, spans, citations).Some?
    ensures var wider := WidenCitations(byId, spans, citations).value;
            && |wider| == |citations|
            && forall i | 0 <= i < |citations| :: WidenCitation(byId, spans, citations[i]) == Some(wider[i])
  {
    if citations != [] {
      WidenCitationsMembers(byId, spans, citations[..|citations| - 1]);
    }
  }

  lemma {:induction false} WidenStatementOnlyWidens(byId: map<string, Evidence>, spans: map<string, Span>, s: Statement)
    requires Fitting(byId, spans) && WidenStatement(byId, spans, s).Some?
    ensures OnlyWidens(byId, s, WidenStatement(byId, spans, s).value)
  {
    var after, wider := WidenStatement(byId, spans, s).value, WidenCitations(byId, spans, s.citations).value;
    WidenCitationsMembers(byId, spans, s.citations);
    DistinctKeeps(wider);
    forall c | c in s.citations
      ensures HasWider(byId, c, after)
    {
      var i :| 0 <= i < |s.citations| && s.citations[i] == c;
      HullWidens(byId, spans, c);
      assert wider[i] in wider && wider[i] in after.citations;
    }
    forall w | w in after.citations
      ensures HasNarrower(byId, s, w)
    {
      var i :| 0 <= i < |wider| && wider[i] == w;
      HullWidens(byId, spans, s.citations[i]);
      assert s.citations[i] in s.citations;
    }
  }

  lemma {:induction false} WidenStatementsMembers(byId: map<string, Evidence>, spans: map<string, Span>,
                                                  statements: seq<Statement>)
    requires Fitting(byId, spans) && WidenStatements(byId, spans, statements).Some?
    ensures var wider := WidenStatements(byId, spans, statements).value;
            && |wider| == |statements|
            && forall i | 0 <= i < |statements| :: WidenStatement(byId, spans, statements[i]) == Some(wider[i])
  {
    if statements != [] {
      WidenStatementsMembers(byId, spans, statements[..|statements| - 1]);
    }
  }

  /** Widening adds no statement, no citation id and no duplicate, and loses no quote. */
  lemma {:induction false} ExpandOnlyWidens(digest: string -> string, evidence: seq<Evidence>, draft: Draft, path: Path)
    requires DistinctIds(evidence) && ExpandFor(digest, evidence, draft, path).Some?
    ensures var wider := ExpandFor(digest, evidence, draft, path).value;
            && wider.answered == draft.answered && |wider.statements| == |draft.statements|
            && forall i | 0 <= i < |draft.statements| ::
                 OnlyWidens(ById(evidence), draft.statements[i], wider.statements[i])
  {
    var byId, spans := ById(evidence), SpansOf(digest, ByChunk(evidence), path.Sources());
    SpansOfFit(digest, evidence, path.Sources());
    WidenStatementsMembers(byId, spans, draft.statements);
    forall i | 0 <= i < |draft.statements|
      ensures OnlyWidens(byId, draft.statements[i], ExpandFor(digest, evidence, draft, path).value.statements[i])
    {
      WidenStatementOnlyWidens(byId, spans, draft.statements[i]);
    }
  }

  /** A path whose sources are among its required chunks is fully cited once a draft is
      widened for it. */
  lemma {:induction false} ExpandCompletesPath(digest: string -> string, evidence: seq<Evidence>,
                                               draft: Draft, path: Path)
    requires DistinctIds(evidence) && ExpandFor(digest, evidence, draft, path).Some?
    requires RequiresItsSources(path)
    ensures PathSourcesCited(Citations(ExpandFor(digest, evidence, draft, path).value), ByChunk(evidence), path)
  {
    forall source | source in path.Sources()
      ensures SourceCited(Citations(ExpandFor(digest, evidence, draft, path).value), ByChunk(evidence), source)
    {
      ExpandCitesSource(digest, evidence, draft, path, source);
    }
  }

  lemma {:induction false} ExpandCitesSource(digest: string -> string, evidence: seq<Evidence>, draft: Draft,
                                             path: Path, source: PathSource)
    requires DistinctIds(evidence) && ExpandFor(digest, evidence, draft, path).Some?
    requires source in path.Sources() && source.chunkId in path.required
    ensures SourceCited(Citations(ExpandFor(digest, evidence, draft, path).value), ByChunk(evidence), source)
  {
    var byChunk, byId := ByChunk(evidence), ById(evidence);
    var spans := SpansOf(digest, byChunk, path.Sources());
    var wider := ExpandFor(digest, evidence, draft, path).value;
    assert SourceStands(digest, byChunk, source);
    var item := byChunk[source.chunkId];
    ByIdFinds(evidence, item);
    SpansOfFit(digest, evidence, path.Sources());
    SpansCover(digest, byChunk, path.Sources(), source);
    var c :| c in Citations(draft) && c.citationId == item.citationId;
    var i := CitationsOfWhere(draft.statements, c);
    WidenStatementsMembers(byId, spans, draft.statements);
    var w := CitationWidened(byId, spans, draft.statements[i], c);
    CitationsOfMember(wider.statements, i);
    var span := spans[item.citationId];
    SliceInSlice(item.content, span.start, span.end, source.start, source.end);
    ContainsTransitive(w.quote, item.content[span.start..span.end], source.quote);
    CompactKeepsContains(w.quote, source.quote);
  }

  lemma {:induction false} CitationWidened(byId: map<string, Evidence>, spans: map<string, Span>, s: Statement,
                                           c: Citation) returns (w: Citation)
    requires Fitting(byId, spans) && WidenStatement(byId, spans, s).Some? && c in s.citations && c.citationId in spans
    ensures w in WidenStatement(byId, spans, s).value.citations && w.citationId == c.citationId
    ensures Contains(w.quote, byId[c.citationId].content[spans[c.citationId].start..spans[c.citationId].end])
  {
    var wider := WidenCitations(byId, spans, s.citations).value;
    WidenCitationsMembers(byId, spans, s.citations);
    DistinctKeeps(wider);
    var i :| 0 <= i < |s.citations| && s.citations[i] == c;
    HullWidens(byId, spans, c);
    w := wider[i];
  }

  // ----- when the widened draft is a valid draft again

  predicate ShortQuotes(s: Statement) {
    forall c | c in s.citations :: |c.quote| <= LONGEST_QUOTE
  }

  /** Every quote outside the spans of the path is short enough. */
  predicate OthersShort(spans: map<string, Span>, s: Statement) {
    forall c | c in s.citations && c.citationId !in spans :: |c.quote| <= LONGEST_QUOTE
  }

  lemma {:induction false} WidenedIsSound(byId: map<string, Evidence>, spans: map<string, Span>, s: Statement)
    requires Fitting(byId, spans) && WidenStatement(byId, spans, s).Some? && SoundStatement(s)
    ensures SoundStatement(WidenStatement(byId, spans, s).value)
            && NoDuplicates(WidenStatement(byId, spans, s).value.citations)
  {
    var wider := WidenCitations(byId, spans, s.citations).value;
    WidenCitationsMembers(byId, spans, s.citations);
    DistinctKeeps(wider);
    forall i | 0 <= i < |wider|
      ensures |wider[i].quote| >= SHORTEST_QUOTE
    {
      assert s.citations[i] in s.citations;
      HullWidens(byId, spans, s.citations[i]);
      ContainsLength(wider[i].quote, s.citations[i].quote);
    }
  }

  lemma {:induction false} WidenedIsShort(byId: map<string, Evidence>, spans: map<string, Span>, s: Statement)
    requires Fitting(byId, spans) && WidenStatement(byId, spans, s).Some?
    ensures ShortQuotes(WidenStatement(byId, spans, s).value) <==> OthersShort(spans, s)
  {
    var wider := WidenCitations(byId, spans, s.citations).value;
    WidenCitationsMembers(byId, spans, s.citations);
    DistinctKeeps(wider);
    ShortMembers(spans, s.citations, wider);
  }

  /** Of quotes that were widened to fit, and others that stayed as they are, the others decide. */
  lemma {:induction false} ShortMembers(spans: map<string, Span>, citations: seq<Citation>, wider: seq<Citation>)
    requires |wider| == |citations|
    requires forall i | 0 <= i < |citations| ::
               if citations[i].citationId in spans then |wider[i].quote| <= LONGEST_QUOTE else wider[i] == citations[i]
    ensures (forall w | w in wider :: |w.quote| <= LONGEST_QUOTE)
       <==> forall c | c in citations && c.citationId !in spans :: |c.quote| <= LONGEST_QUOTE
  {
    if forall w | w in wider :: |w.quote| <= LONGEST_QUOTE {
      forall c | c in citations && c.citationId !in spans
        ensures |c.quote| <= LONGEST_QUOTE
      {
        var i :| 0 <= i < |citations| && citations[i] == c;
        assert wider[i] in wider;
      }
    } else {
      var i :| 0 <= i < |wider| && |wider[i].quote| > LONGEST_QUOTE;
      assert citations[i] in citations;
    }
  }

  /** Rebuilding the widened draft as a `DraftAnswer` fails exactly when a quote the path
      does not touch is too long; restoring line breaks can make one so. */
  lemma {:induction false} WidenedIsWellFormed(digest: string -> string, evidence: seq<Evidence>,
                                               draft: Draft, path: Path)
    requires DistinctIds(evidence) && ExpandFor(digest, evidence, draft, path).Some? && SoundDraft(draft)
    ensures WellFormed(ExpandFor(digest, evidence, draft, path).value)
       <==> forall i | 0 <= i < |draft.statements| ::
           OthersShort(SpansOf(digest, ByChunk(evidence), path.Sources()), draft.statements[i])
  {
    var byId, spans := ById(evidence), SpansOf(digest, ByChunk(evidence), path.Sources());
    var wider := ExpandFor(digest, evidence, draft, path).value;
    SpansOfFit(digest, evidence, path.Sources());
    WidenStatementsMembers(byId, spans, draft.statements);
    forall i | 0 <= i < |draft.statements|
      ensures SoundStatement(wider.statements[i]) && NoDuplicates(wider.statements[i].citations)
      ensures ShortQuotes(wider.statements[i]) <==> OthersShort(spans, draft.statements[i])
    {
      assert draft.statements[i] in draft.statements;
      WidenedIsSound(byId, spans, draft.statements[i]);
      WidenedIsShort(byId, spans, draft.statements[i]);
    }
    WellFormedByIndex(wider);
  }

  lemma {:induction false} WellFormedByIndex(d: Draft)
    requires |d.statements| <= MOST_STATEMENTS && (d.answered <==> d.statements != [])
    requires forall i | 0 <= i < |d.statements| ::
             SoundStatement(d.statements[i]) && NoDuplicates(d.statements[i].citations)
    ensures WellFormed(d) <==> forall i | 0 <= i < |d.statements| :: ShortQuotes(d.statements[i])
  {
    if forall i | 0 <= i < |d.statements| :: ShortQuotes(d.statements[i]) {
      assert WellFormed(d);
    } else {
      var i :| 0 <= i < |d.statements| && !ShortQuotes(d.statements[i]);
      assert d.statements[i] in d.statements;
    }
  }
}
