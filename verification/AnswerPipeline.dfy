/** `QueryAnswerService.execute` in `src/zhiqing_rag/query_answering/service.py`: generate,
    check, repair at most once, review, and re-read authorisation after every wait.
    The repository, the graph and the model answer anything at any time: their replies
    are arbitrary functions of the number of waits so far. */
module AnswerPipeline {
  import opened Answers
  import opened DraftChecks
  import opened PathQuotes
  import opened Text
  import Whole = EvidencePaths

  // ----- what surrounds a run

  /** A current chunk as the repository returns it. */
  datatype Row = Row(chunkId: string, origin: Origin, content: string, digest: string, shownAs: string)

  datatype ReadReply = Rows(rows: seq<Row>) | ReadDenied(status: int, code: string) | ReadFailed

  datatype GraphReply = Relations(allowed: set<string>) | GraphDenied(status: int, code: string) | GraphFailed

  /** A model reply read as a draft, or the way it failed. */
  datatype DraftReply = Drafted(draft: Draft) | DraftInvalid(code: string) | DraftFailed

  datatype Verdict = Verdict(index: int, supported: bool)

  datatype Review = Review(sufficient: bool, missing: seq<string>, verdicts: seq<Verdict>)

  datatype ReviewReply = Reviewed(review: Review) | ReviewInvalid(code: string) | ReviewFailedToArrive

  datatype World = World(read: nat -> ReadReply, graph: nat -> GraphReply, generate: nat -> DraftReply,
      repair: nat -> DraftReply,
                         review: nat -> ReviewReply)

  datatype Payload =
    | GeneratePayload(question: string, evidence: seq<Evidence>, paths: seq<Path>)
    | RepairPayload(question: string, evidence: seq<Evidence>, draft: Draft, code: string, paths: seq<Path>)
    | ReviewPayload(question: string, evidence: seq<Evidence>, draft: Draft, paths: seq<Path>)

  datatype Setup = Setup(
    guards: Guards,
    question: string,
    identityMatches: bool,
    enabled: bool,
    reportsProgress: bool,
    canRepair: bool,
    inScope: Origin -> bool,
    tokens: Payload -> nat,
    tokenLimit: nat,
    connected: (seq<Evidence>, Path) -> bool,
    planCovers: seq<Path> -> bool)

  datatype RetrievalStatus = Full | Degraded | Empty | NotSupported | NotDone

  datatype Retrieval = Retrieval(status: RetrievalStatus, evidence: seq<Evidence>, paths: seq<Path>, codes: set<string>)

  datatype Result = Result(status: Status, statements: seq<Statement>, codes: seq<string>,
      review: ReviewStatus, repairs: nat)

  /** An `AuthError`, or the pair that `execute` returns. */
  datatype Outcome = Denied(status: int, code: string) | Returned(retrieval: Retrieval, result: Result)

  datatype Stage = Generation | Reviewing

  /** One wait of the run, as it looks from outside: what was asked, and what came back. */
  datatype Event =
    | Progressed(stage: Stage)
    | ReadBack(current: seq<Evidence>)
    | ReadRefused
    | GraphRead(asked: seq<Path>, confirmed: GraphReply)
    | Generated(payload: Payload, drafted: DraftReply)
    | Repaired(payload: Payload, drafted: DraftReply)
    | ReviewAsked(payload: Payload, reviewed: ReviewReply)

  type Trace = seq<Event>

  const FORBIDDEN := "QUERY_SCOPE_FORBIDDEN"
  const AUTHORIZATION_UNAVAILABLE := "ANSWER_AUTHORIZATION_UNAVAILABLE"
  const DISABLED := "ANSWER_DISABLED"
  const CONTEXT_LIMIT := "ANSWER_CONTEXT_LIMIT"
  const ANSWER_SCOPE_CHANGED := "ANSWER_SCOPE_CHANGED"
  const REVIEW_FAILED := "ANSWER_REVIEW_FAILED"

  const SCOPE_CHANGED := "SCOPE_CHANGED"
  const PROVENANCE_CHANGED := "GRAPH_PROVENANCE_CHANGED"
  const PROVENANCE_UNAVAILABLE := "GRAPH_PROVENANCE_UNAVAILABLE"

  const REPAIRABLE := {QUOTE_NOT_VERBATIM, SEMANTIC_GUARD_FAILED, SOURCE_SCOPE_AMBIGUOUS, GRAPH_PATH_NOT_CITED,
                       CONFIRMATION_GUARD_FAILED, GRAPH_CONDITION_NOT_PRESERVED}

  // ----- re-reading authorisation

  /** The same chunk, whatever is shown with it. */
  predicate SameSource(a: Evidence, b: Evidence) {
    a.citationId == b.citationId && a.chunkId == b.chunkId && a.origin == b.origin && a.content == b.content
  }

  predicate SameSources(a: seq<Evidence>, b: seq<Evidence>) {
    |a| == |b| && forall i | 0 <= i < |a| :: SameSource(a[i], b[i])
  }

  /** The current row for an item: same chunk, place and content, and inside the scope. */
  predicate Confirms(s: Setup, row: Row, item: Evidence) {
    && s.inScope(row.origin)
    && row.chunkId == item.chunkId && row.origin == item.origin && row.content == item.content
    && row.digest == s.guards.digest(item.content)
  }

  /** The last row that confirms the item: what the dictionary lookup finds. */
  function FreshRow(s: Setup, rows: seq<Row>, item: Evidence): (r: Option<Row>)
    ensures r.Some? ==> r.value in rows && Confirms(s, r.value, item)
    ensures r.None? ==> forall row | row in rows :: !Confirms(s, row, item)
  {
    if rows == [] then None
    else
      var last := rows[|rows| - 1];
      if Confirms(s, last, item) then Some(last) else FreshRow(s, rows[..|rows| - 1], item)
  }

  /** The items that are still readable, in order. */
  function StillReadable(s: Setup, rows: seq<Row>, evidence: seq<Evidence>): (current: seq<Evidence>)
    ensures |current| <= |evidence|
  {
    if evidence == [] then []
    else
      var item, before := evidence[|evidence| - 1], StillReadable(s, rows, evidence[..|evidence| - 1]);
      match FreshRow(s, rows, item)
      case Some(row) => before + [item.(shownAs := row.shownAs)]
      case None => before
  }

  /** If nothing was dropped, every item is the same chunk as before. */
  lemma {:induction false} NothingDropped(s: Setup, rows: seq<Row>, evidence: seq<Evidence>)
    ensures |StillReadable(s, rows, evidence)| == |evidence| ==> SameSources(StillReadable(s, rows, evidence), evidence)
  {
    if evidence != [] {
      NothingDropped(s, rows, evidence[..|evidence| - 1]);
    }
  }

  /** Everything kept is confirmed by a current row in scope. */
  lemma {:induction false} KeptIsConfirmed(s: Setup, rows: seq<Row>, evidence: seq<Evidence>)
    ensures forall item | item in StillReadable(s, rows, evidence) :: FreshRow(s, rows, item).Some?
  {
    if evidence != [] {
      KeptIsConfirmed(s, rows, evidence[..|evidence| - 1]);
    }
  }

  predicate AllInScope(s: Setup, evidence: seq<Evidence>) {
    forall item | item in evidence :: s.inScope(item.origin)
  }

  /** The last wait was for an authorisation that was denied like this, or did not come. */
  predicate DeniedBy(w: World, trace: Trace, status: int, code: string) {
    && trace != []
    && var k := |trace| - 1;
       || (trace[k].ReadRefused? && w.read(k) == ReadDenied(status, code))
       || (trace[k].ReadRefused? && w.read(k).ReadFailed? && status == 503 && code == AUTHORIZATION_UNAVAILABLE)
       || (trace[k].GraphRead? && w.graph(k) == GraphDenied(status, code))
  }

  datatype Authorised<+T> = Allowed(value: T) | Refused(status: int, code: string)

  /** `_revalidate`: one read of the repository. */
  method Revalidate(s: Setup, w: World, trace: Trace, evidence: seq<Evidence>)
      returns (r: Authorised<seq<Evidence>>, after: Trace)
    ensures OnlyReads(s, w, trace, after)
    ensures r.Allowed? <==> AllInScope(s, evidence) && w.read(|trace|).Rows?
    ensures r.Allowed? ==> AllInScope(s, r.value)
    ensures r.Refused? ==>
            if AllInScope(s, evidence) then DeniedBy(w, after, r.status, r.code)
            else after == trace && r.status == 403 && r.code == FORBIDDEN
    ensures r.Allowed? ==>
            r.value == StillReadable(s, w.read(|trace|).rows, evidence) && after == trace + [ReadBack(r.value)]
  {
    if exists item | item in evidence :: !s.inScope(item.origin) {
      return Refused(403, FORBIDDEN), trace;
    }
    match w.read(|trace|) {
      case ReadDenied(status, code) =>
        return Refused(status, code), trace + [ReadRefused];
      case ReadFailed =>
        return Refused(503, AUTHORIZATION_UNAVAILABLE), trace + [ReadRefused];
      case Rows(rows) =>
        var allowed := [];
        for k := 0 to |evidence|
          invariant allowed == StillReadable(s, rows, evidence[..k])
        {
          assert evidence[..k + 1][..k] == evidence[..k];
          var found := FreshRow(s, rows, evidence[k]);
          if found.Some? {
            allowed := allowed + [evidence[k].(shownAs := found.value.shownAs)];
          }
        }
        assert evidence[..|evidence|] == evidence;
        KeptIsConfirmed(s, rows, evidence);
        assert AllInScope(s, allowed) by {
          forall item | item in allowed
            ensures s.inScope(item.origin)
          {
            assert FreshRow(s, rows, item).Some?;
          }
        }
        return Allowed(allowed), trace + [ReadBack(allowed)];
    }
  }

  /** The items are what the repository confirmed at that very moment. */
  predicate Backed(s: Setup, w: World, time: nat, current: seq<Evidence>) {
    && w.read(time).Rows?
    && forall item | item in current :: FreshRow(s, w.read(time).rows, item).Some?
  }

  predicate Read(s: Setup, w: World, time: nat, e: Event) {
    || (e.ReadBack? && Backed(s, w, time, e.current))
    || e.ReadRefused?
    || (e.GraphRead? && e.confirmed == w.graph(time) && s.planCovers(e.asked))
  }

  /** Nothing but truthful reads happened since `trace`. */
  predicate OnlyReads(s: Setup, w: World, trace: Trace, after: Trace) {
    trace <= after && forall k | |trace| <= k < |after| :: Read(s, w, k, after[k])
  }

  /** A repository that keeps confirming every item as it is shown. */
  ghost predicate Steady(s: Setup, w: World, evidence: seq<Evidence>) {
    && evidence != [] && (forall item | item in evidence :: s.inScope(item.origin))
    && forall t, item :: item in evidence ==>
         && w.read(t).Rows?
         && var row := FreshRow(s, w.read(t).rows, item); row.Some? && row.value.shownAs == item.shownAs
  }

  lemma {:induction false} SteadyKeepsAll(s: Setup, rows: seq<Row>, evidence: seq<Evidence>)
    requires forall item | item in evidence ::
             FreshRow(s, rows, item).Some? && FreshRow(s, rows, item).value.shownAs == item.shownAs
    ensures StillReadable(s, rows, evidence) == evidence
  {
    if evidence != [] {
      SteadyKeepsAll(s, rows, evidence[..|evidence| - 1]);
      assert evidence[..|evidence| - 1] + [evidence[|evidence| - 1]] == evidence;
    }
  }

  lemma {:induction false} SteadyReads(s: Setup, w: World, evidence: seq<Evidence>, t: nat)
    requires Steady(s, w, evidence)
    ensures w.read(t).Rows? && StillReadable(s, w.read(t).rows, evidence) == evidence
  {
    assert evidence[0] in evidence;
    SteadyKeepsAll(s, w.read(t).rows, evidence);
  }

  // ----- evidence paths

  /** A path whose every required chunk is at hand, whose required chunks are its sources, and each
      of whose sources still is the slice of its chunk that it claims to be. */
  predicate Complete(s: Setup, evidence: seq<Evidence>, path: Path) {
    && path.required != [] && NoDuplicates(path.required)
    && RequiresItsSources(path)
    && (forall id | id in path.required :: exists source | source in path.Sources() :: source.chunkId == id)
    && (forall id | id in path.required :: exists item | item in evidence :: item.chunkId == id)
    && (forall source | source in path.Sources() :: SourceStands(s.guards.digest, ByChunk(evidence), source))
    && s.connected(evidence, path)
  }

  /** `complete_paths` on the paths at hand. */
  function CompletePaths(s: Setup, evidence: seq<Evidence>, paths: seq<Path>): seq<Path> {
    Whole.CompletePaths(p => Complete(s, evidence, p), evidence, paths)
  }

  lemma {:induction false} CompletePathsAre(s: Setup, evidence: seq<Evidence>, paths: seq<Path>)
    ensures var kept := CompletePaths(s, evidence, paths);
            Whole.Tidy(kept) && forall p | p in kept :: p in paths && Complete(s, evidence, p)
  {
    Whole.CompletePathsExactly(p => Complete(s, evidence, p), evidence, paths);
  }

  /** `_with_evidence`: the retrieval reduced to what is readable now. */
  function WithEvidence(s: Setup, r: Retrieval, evidence: seq<Evidence>): Retrieval {
    var changed := |evidence| != |r.evidence|;
    var paths := CompletePaths(s, evidence, r.paths);
    var pathsChanged := |paths| != |r.paths|;
    Retrieval(if evidence == [] then Empty else if changed || pathsChanged then Degraded else r.status,
              evidence, paths,
              r.codes + (if changed then {SCOPE_CHANGED} else {}) + (if pathsChanged then {PROVENANCE_CHANGED} else {}))
  }

  /** The item without its graph relations, unless they are confirmed. */
  function Unlink(allowed: set<string>, evidence: seq<Evidence>): (e: seq<Evidence>)
    ensures SameSources(e, evidence)
  {
    if evidence == [] then []
    else [if evidence[0].chunkId in allowed then evidence[0]
        else evidence[0].(linked := false)] + Unlink(allowed, evidence[1..])
  }

  function AllSources(paths: seq<Path>): seq<PathSource> {
    if paths == [] then [] else paths[0].Sources() + AllSources(paths[1..])
  }

  function ConfirmedPaths(allowed: set<string>, paths: seq<Path>): (kept: seq<Path>)
    ensures forall p | p in kept :: p in paths && forall id | id in p.required :: id in allowed
  {
    if paths == [] then []
    else (if forall id | id in paths[0].required :: id in allowed then [paths[0]]
        else []) + ConfirmedPaths(allowed, paths[1..])
  }

  /** The graph was asked about these paths after the last wait but for the read at the end,
      and confirmed every chunk they require. */
  predicate Confirmed(trace: Trace, paths: seq<Path>) {
    paths != [] ==>
      && |trace| >= 2
      && var e := trace[|trace| - 2];
         e.GraphRead? && e.confirmed.Relations?
         && forall p | p in paths :: p in e.asked && forall id | id in p.required :: id in e.confirmed.allowed
  }

  /** The trace ends with the read that returned the retrieval's evidence, and its paths are
      complete over it and confirmed. */
  predicate Fresh(s: Setup, trace: Trace, r: Retrieval) {
    && trace != [] && trace[|trace| - 1] == ReadBack(r.evidence) && AllInScope(s, r.evidence)
    && Whole.Tidy(r.paths) && (forall p | p in r.paths :: Complete(s, r.evidence, p))
    && Confirmed(trace, r.paths)
  }

  /** The relations the graph still confirms, and the code to report if some are missing. */
  method ReadGraph(s: Setup, w: World, trace: Trace, paths: seq<Path>)
    returns (r: Authorised<Option<string>>, allowed: set<string>, after: Trace)
    ensures OnlyReads(s, w, trace, after)
    ensures s.planCovers(paths) ==> after == trace + [GraphRead(paths, w.graph(|trace|))]
    ensures r.Refused? ==> DeniedBy(w, after, r.status, r.code)
    ensures allowed == if s.planCovers(paths) && w.graph(|trace|).Relations? then w.graph(|trace|).allowed else {}
    ensures r == Allowed(None) <==>
      s.planCovers(paths) && w.graph(|trace|).Relations? && forall source | source in AllSources(paths) ::
          source.chunkId in allowed
  {
    allowed, after := {}, trace;
    if !s.planCovers(paths) {
      return Allowed(Some(PROVENANCE_CHANGED)), allowed, after;
    }
    after := after + [GraphRead(paths, w.graph(|trace|))];
    match w.graph(|trace|) {
      case GraphDenied(status, code) => return Refused(status, code), allowed, after;
      case GraphFailed => return Allowed(Some(PROVENANCE_UNAVAILABLE)), allowed, after;
      case Relations(confirmed) => allowed := confirmed;
    }
    var missing := exists source | source in AllSources(paths) :: source.chunkId !in allowed;
    return Allowed(if missing then Some(PROVENANCE_CHANGED) else None), allowed, after;
  }

  /** A graph that keeps confirming these paths. */
  ghost predicate GraphSteady(s: Setup, w: World, evidence: seq<Evidence>, paths: seq<Path>) {
    && Whole.Tidy(paths) && (forall p | p in paths :: Complete(s, evidence, p))
    && (paths != [] ==> s.planCovers(paths))
    && forall t :: w.graph(t).Relations? && forall source | source in AllSources(paths) ::
         source.chunkId in w.graph(t).allowed
  }

  lemma {:induction false} SourcesOfPath(paths: seq<Path>, p: Path)
    requires p in paths
    ensures forall source | source in p.Sources() :: source in AllSources(paths)
  {
    if p != paths[0] {
      SourcesOfPath(paths[1..], p);
    }
  }

  lemma {:induction false} AllComplete(s: Setup, evidence: seq<Evidence>, paths: seq<Path>)
    requires Whole.Tidy(paths) && forall p | p in paths :: Complete(s, evidence, p)
    ensures CompletePaths(s, evidence, paths) == paths
  {
    forall p | p in paths
      ensures Whole.Carried(evidence, p)
    {
      assert p.required[0] in p.required;
    }
    Whole.CompleteStay(p => Complete(s, evidence, p), evidence, paths);
  }

  lemma {:induction false} AllConfirmed(allowed: set<string>, paths: seq<Path>)
    requires forall p | p in paths :: forall id | id in p.required :: id in allowed
    ensures ConfirmedPaths(allowed, paths) == paths
  {
    if paths != [] {
      AllConfirmed(allowed, paths[1..]);
    }
  }

  lemma {:induction false} SteadyPathsStay(s: Setup, w: World, retrieval: Retrieval, t: nat)
    requires GraphSteady(s, w, retrieval.evidence, retrieval.paths) && retrieval.evidence != []
    ensures ConfirmedPaths(w.graph(t).allowed, retrieval.paths) == retrieval.paths
    ensures WithEvidence(s, retrieval, retrieval.evidence) == retrieval
  {
    forall p, id | p in retrieval.paths && id in p.required
      ensures id in w.graph(t).allowed
    {
      assert Complete(s, retrieval.evidence, p);
      SourcesOfPath(retrieval.paths, p);
      var source :| source in p.Sources() && source.chunkId == id;
    }
    AllConfirmed(w.graph(t).allowed, retrieval.paths);
    AllComplete(s, retrieval.evidence, retrieval.paths);
  }

  /** What the graph's reply leaves of a retrieval: the paths it confirmed, and, if something is
      missing, evidence without the relations it did not confirm. */
  function Reduced(s: Setup, retrieval: Retrieval, allowed: set<string>, code: Option<string>): (r: Retrieval)
    ensures SameSources(r.evidence, retrieval.evidence)
    ensures forall p | p in r.paths ::
            s.planCovers(retrieval.paths) && p in retrieval.paths && forall id | id in p.required :: id in allowed
  {
    var paths := if s.planCovers(retrieval.paths) then ConfirmedPaths(allowed, retrieval.paths) else [];
    if code.None? then retrieval.(paths := paths)
    else
      var items := Unlink(allowed, retrieval.evidence);
      Retrieval(if items == [] then Empty else Degraded, items, paths, retrieval.codes + {code.value})
  }

  /** What is left was confirmed by the reply that is last in the trace. */
  lemma {:induction false} ReducedIsConfirmed(s: Setup, asked: Trace, retrieval: Retrieval,
                                              reply: GraphReply, code: Option<string>)
    requires forall p | p in retrieval.paths :: p.required != []
    requires s.planCovers(retrieval.paths) ==> asked != [] && asked[|asked| - 1] == GraphRead(retrieval.paths, reply)
    ensures var allowed := if s.planCovers(retrieval.paths) && reply.Relations? then reply.allowed else {};
            Confirmed(asked + [ReadBack([])], Reduced(s, retrieval, allowed, code).paths)
  {
    var allowed := if s.planCovers(retrieval.paths) && reply.Relations? then reply.allowed else {};
    var kept := Reduced(s, retrieval, allowed, code).paths;
    if kept != [] {
      var p := kept[0];
      assert p in kept && p.required[0] in p.required && p.required[0] in allowed;
    }
  }

  lemma {:induction false} RereadIsFresh(s: Setup, asked: Trace, reduced: Retrieval, current: seq<Evidence>)
    requires Confirmed(asked + [ReadBack([])], reduced.paths) && AllInScope(s, current)
    ensures var left := WithEvidence(s, reduced, current);
            Fresh(s, asked + [ReadBack(current)], left) && forall p | p in left.paths :: p in reduced.paths
  {
    CompletePathsAre(s, current, reduced.paths);
    var after := asked + [ReadBack(current)];
    assert after[|after| - 1] == ReadBack(current);
    if asked != [] {
      assert after[|after| - 2] == asked[|asked| - 1] == (asked + [ReadBack([])])[|after| - 2];
    }
  }

  /** The evidence read once more after the graph was asked. */
  method Reread(s: Setup, w: World, asked: Trace, reduced: Retrieval) returns (r: Authorised<Retrieval>, after: Trace)
    requires Confirmed(asked + [ReadBack([])], reduced.paths) && AllInScope(s, reduced.evidence)
    ensures r.Refused? ==> DeniedBy(w, after, r.status, r.code)
    ensures OnlyReads(s, w, asked, after)
    ensures r.Allowed? ==> Fresh(s, after, r.value) && NoneButSame(r.value.evidence, reduced.evidence)
    ensures r.Allowed? ==> forall p | p in r.value.paths :: p in reduced.paths
    ensures Steady(s, w, reduced.evidence) ==> r == Allowed(WithEvidence(s, reduced, reduced.evidence))
  {
    var current, last := Revalidate(s, w, asked, reduced.evidence);
    after := last;
    if Steady(s, w, reduced.evidence) {
      SteadyReads(s, w, reduced.evidence, |asked|);
    }
    if current.Refused? {
      return Refused(current.status, current.code), after;
    }
    NothingDropped(s, w.read(|asked|).rows, reduced.evidence);
    RereadIsFresh(s, asked, reduced, current.value);
    r := Allowed(WithEvidence(s, reduced, current.value));
  }

  /** The graph is asked, and the retrieval reduced to what it confirms. */
  method AskGraph(s: Setup, w: World, trace: Trace, retrieval: Retrieval)
      returns (r: Authorised<Retrieval>, asked: Trace)
    requires AllInScope(s, retrieval.evidence) && forall p | p in retrieval.paths :: p.required != []
    ensures OnlyReads(s, w, trace, asked)
    ensures r.Refused? ==> DeniedBy(w, asked, r.status, r.code)
    ensures r.Allowed? ==>
            && Confirmed(asked + [ReadBack([])], r.value.paths) && AllInScope(s, r.value.evidence)
            && SameSources(r.value.evidence, retrieval.evidence)
                 && forall p | p in r.value.paths :: p in retrieval.paths
    ensures (&& retrieval.paths != [] && retrieval.evidence != []
             && GraphSteady(s, w, retrieval.evidence, retrieval.paths)) ==>
              r == Allowed(retrieval)
  {
    if retrieval.evidence != [] && GraphSteady(s, w, retrieval.evidence, retrieval.paths) {
      SteadyPathsStay(s, w, retrieval, |trace|);
    }
    var graph, allowed;
    graph, allowed, asked := ReadGraph(s, w, trace, retrieval.paths);
    if graph.Refused? {
      return Refused(graph.status, graph.code), asked;
    }
    var reduced := Reduced(s, retrieval, allowed, graph.value);
    ReducedIsConfirmed(s, asked, retrieval, w.graph(|trace|), graph.value);
    ScopeStays(s, reduced.evidence, retrieval.evidence);
    return Allowed(reduced), asked;
  }

  lemma {:induction false} ScopeStays(s: Setup, a: seq<Evidence>, b: seq<Evidence>)
    requires SameSources(a, b) && AllInScope(s, b)
    ensures AllInScope(s, a)
  {
    forall item | item in a
      ensures s.inScope(item.origin)
    {
      var i :| 0 <= i < |a| && a[i] == item;
      assert SameSource(a[i], b[i]) && b[i] in b;
    }
  }

  /** `_revalidate_paths`: re-read the graph relations, then the evidence once more. */
  method RevalidatePaths(s: Setup, w: World, trace: Trace, retrieval: Retrieval)
      returns (r: Authorised<Retrieval>, after: Trace)
    requires trace != [] && trace[|trace| - 1] == ReadBack(retrieval.evidence) && AllInScope(s, retrieval.evidence)
    requires Whole.Tidy(retrieval.paths) && forall p | p in retrieval.paths :: Complete(s, retrieval.evidence, p)
    ensures OnlyReads(s, w, trace, after)
    ensures r.Refused? ==> DeniedBy(w, after, r.status, r.code)
    ensures r.Allowed? ==> Fresh(s, after, r.value) && forall p | p in r.value.paths :: p in retrieval.paths
    ensures r.Allowed? ==> NoneButSame(r.value.evidence, retrieval.evidence)
    ensures retrieval.paths == [] ==> r == Allowed(retrieval)
    ensures Steady(s, w, retrieval.evidence) && GraphSteady(s, w, retrieval.evidence, retrieval.paths) ==>
            r == Allowed(retrieval)
  {
    if retrieval.paths == [] {
      return Allowed(retrieval), trace;
    }
    var reduced, asked := AskGraph(s, w, trace, retrieval);
    if reduced.Refused? {
      return Refused(reduced.status, reduced.code), asked;
    }
    r, after := Reread(s, w, asked, reduced.value);
    OnlyReadsJoin(s, w, trace, asked, after);
    if r.Allowed? && |r.value.evidence| == |retrieval.evidence| {
      SameSourcesTrans(r.value.evidence, reduced.value.evidence, retrieval.evidence);
    }
    if Steady(s, w, retrieval.evidence) && GraphSteady(s, w, retrieval.evidence, retrieval.paths) {
      SteadyPathsStay(s, w, retrieval, 0);
    }
  }

  /** Not more items, and if not fewer, the same chunks. */
  predicate NoneButSame(a: seq<Evidence>, b: seq<Evidence>) {
    |a| <= |b| && (|a| == |b| ==> SameSources(a, b))
  }

  lemma {:induction false} OnlyReadsJoin(s: Setup, w: World, a: Trace, b: Trace, c: Trace)
    requires OnlyReads(s, w, a, b) && OnlyReads(s, w, b, c)
    ensures OnlyReads(s, w, a, c)
  {
  }

  lemma {:induction false} SameSourcesTrans(a: seq<Evidence>, b: seq<Evidence>, c: seq<Evidence>)
    requires SameSources(b, c)
    ensures SameSources(a, b) ==> SameSources(a, c)
  {
  }

  /** The three calls every wait is followed by. */
  method Refresh(s: Setup, w: World, trace: Trace, retrieval: Retrieval)
      returns (r: Authorised<Retrieval>, after: Trace)
    ensures OnlyReads(s, w, trace, after)
    ensures r.Refused? ==>
            if AllInScope(s, retrieval.evidence) then DeniedBy(w, after, r.status, r.code)
            else after == trace && r.status == 403 && r.code == FORBIDDEN
    ensures r.Allowed? ==> AllInScope(s, retrieval.evidence)
    ensures r.Allowed? ==>
            trace < after && Fresh(s, after, r.value) && NoneButSame(r.value.evidence, retrieval.evidence)
    ensures r.Allowed? ==> forall p | p in r.value.paths :: p in retrieval.paths
    ensures Steady(s, w, retrieval.evidence) && GraphSteady(s, w, retrieval.evidence, retrieval.paths) ==>
            r == Allowed(retrieval)
  {
    var read, first := Revalidate(s, w, trace, retrieval.evidence);
    after := first;
    if Steady(s, w, retrieval.evidence) && GraphSteady(s, w, retrieval.evidence, retrieval.paths) {
      SteadyReads(s, w, retrieval.evidence, |trace|);
      SteadyPathsStay(s, w, retrieval, 0);
    }
    if read.Refused? {
      return Refused(read.status, read.code), after;
    }
    var current := read.value;
    NothingDropped(s, w.read(|trace|).rows, retrieval.evidence);
    CompletePathsAre(s, current, retrieval.paths);
    r, after := RevalidatePaths(s, w, first, WithEvidence(s, retrieval, current));
    OnlyReadsJoin(s, w, trace, first, after);
    if r.Allowed? && |current| == |retrieval.evidence| {
      SameSourcesTrans(r.value.evidence, current, retrieval.evidence);
    }
  }

  // ----- what is safe to send and to publish

  predicate Outgoing(e: Event) {
    e.Generated? || e.Repaired? || e.ReviewAsked?
  }

  /** Generation comes first, then at most one repair, then at most one review, each of the
      first and the last after at most one report of it. Reads are not ordered. */
  function Order(e: Event): nat {
    match e
    case Progressed(stage) => if stage == Generation then 1 else 4
    case Generated(_, _) => 2
    case Repaired(_, _) => 3
    case ReviewAsked(_, _) => 5
    case _ => 0
  }

  /** A payload about the user's question that is within the token limit, with evidence that the
      wait just before returned, and complete paths that the graph confirmed just before that. */
  predicate Covered(s: Setup, trace: Trace, payload: Payload) {
    && payload.question == s.question && s.tokens(payload) <= s.tokenLimit
    && trace != [] && trace[|trace| - 1] == ReadBack(payload.evidence)
    && (forall p | p in payload.paths :: Complete(s, payload.evidence, p))
    && Confirmed(trace, payload.paths)
  }

  /** The draft is a model's reply. */
  predicate Proposed(trace: Trace, draft: Draft) {
    exists j :: 0 <= j < |trace| && Drafting(trace[j]) && trace[j].drafted == Drafted(draft)
  }

  /** The draft says, statement by statement, what a model's reply says. */
  ghost predicate Written(trace: Trace, draft: Draft) {
    exists raw :: Proposed(trace, raw) && WellFormed(raw) && SameTexts(raw, draft)
  }

  predicate Drafting(e: Event) {
    e.Generated? || e.Repaired?
  }

  /** After the first `k` events a draft stood that says what the model said, and it failed its checks
      with this code over the retrieval that was read last; since then nothing happened but reads,
      and the current evidence is of the same chunks. */
  ghost predicate FailedAt(s: Setup, w: World, trace: Trace, k: nat, known: Retrieval, draft: Draft,
                           code: Option<string>, current: seq<Evidence>)
    requires k <= |trace|
  {
    && OnlyReads(s, w, trace[..k], trace) && SameSources(current, known.evidence)
    && Fresh(s, trace[..k], known) && Written(trace[..k], draft)
    && FailsWith(s.guards, draft, known.evidence, s.question, known.paths, code)
  }

  ghost predicate Failed(s: Setup, w: World, trace: Trace, draft: Draft, code: Option<string>, current: seq<Evidence>) {
    exists k: nat, known: Retrieval | k <= |trace| :: FailedAt(s, w, trace, k, known, draft, code, current)
  }

  /** Every reply is the world's reply at that moment, and every call was authorised: the repair
      is of a draft of the model, for the code it failed with, which allows one; and the review is of a draft
      that passed every check and says what the model said. */
  ghost predicate Truthful(s: Setup, w: World, trace: Trace, e: Event) {
    match e
    case Progressed(_) => true
    case ReadBack(_) => Read(s, w, |trace|, e)
    case ReadRefused => true
    case GraphRead(_, _) => Read(s, w, |trace|, e)
    case Generated(payload, drafted) =>
      payload.GeneratePayload? && Covered(s, trace, payload) && drafted == w.generate(|trace|)
    case Repaired(payload, drafted) =>
      && payload.RepairPayload? && Covered(s, trace, payload) && drafted == w.repair(|trace|)
      && s.canRepair && payload.code in REPAIRABLE && Proposed(trace, payload.draft)
      && Failed(s, w, trace, payload.draft, Some(payload.code), payload.evidence)
    case ReviewAsked(payload, reviewed) =>
      && payload.ReviewPayload? && Covered(s, trace, payload) && reviewed == w.review(|trace|)
      && Written(trace, payload.draft) && Passes(s.guards, payload.draft, payload.evidence, s.question, payload.paths)
  }

  ghost predicate SafeAt(s: Setup, w: World, trace: Trace, k: nat)
    requires k < |trace|
  {
    Truthful(s, w, trace[..k], trace[k])
  }

  ghost predicate Safe(s: Setup, w: World, trace: Trace) {
    && (forall k | 0 <= k < |trace| :: SafeAt(s, w, trace, k))
    && forall j, k | 0 <= j < k < |trace| && Order(trace[j]) > 0 && Order(trace[k]) > 0 ::
         Order(trace[j]) < Order(trace[k])
  }

  /** Every ordered event so far has at most this order. */
  predicate Within(trace: Trace, order: nat) {
    forall k | 0 <= k < |trace| :: Order(trace[k]) <= order
  }

  lemma {:induction false} EventStaysSafe(s: Setup, w: World, trace: Trace, e: Event, order: nat)
    requires Safe(s, w, trace) && Within(trace, order) && Truthful(s, w, trace, e)
    requires Order(e) == 0 || Order(e) > order
    ensures Safe(s, w, trace + [e]) && Within(trace + [e], if Order(e) == 0 then order else Order(e))
  {
    var after := trace + [e];
    forall k | 0 <= k < |after|
      ensures SafeAt(s, w, after, k)
    {
      if k < |trace| {
        assert SafeAt(s, w, trace, k) && after[..k] == trace[..k];
      } else {
        assert after[..k] == trace;
      }
    }
  }

  lemma {:induction false} ReadsStaySafe(s: Setup, w: World, trace: Trace, after: Trace, order: nat)
    requires Safe(s, w, trace) && Within(trace, order) && OnlyReads(s, w, trace, after)
    ensures Safe(s, w, after) && Within(after, order)
    decreases |after|
  {
    if |after| == |trace| {
      assert after == trace;
    } else {
      var last := |after| - 1;
      assert Read(s, w, last, after[last]);
      ReadsStaySafe(s, w, trace, after[..last], order);
      EventStaysSafe(s, w, after[..last], after[last], order);
      assert after == after[..last] + [after[last]];
    }
  }

  lemma {:induction false} ProposedStays(trace: Trace, more: Trace)
    requires trace <= more
    ensures forall draft :: Proposed(trace, draft) ==> Proposed(more, draft)
    ensures forall draft :: Written(trace, draft) ==> Written(more, draft)
  {
    forall draft | Proposed(trace, draft)
      ensures Proposed(more, draft)
    {
      var j :| 0 <= j < |trace| && Drafting(trace[j]) && trace[j].drafted == Drafted(draft);
      assert more[j] == trace[j];
    }
  }

  /** The review covers exactly these statements and finds all of them supported. */
  predicate Approves(reply: ReviewReply, statements: nat) {
    && reply.Reviewed?
    && reply.review.sufficient && reply.review.missing == []
    && |reply.review.verdicts| == statements
    && (forall v | v in reply.review.verdicts :: v.supported && 0 <= v.index < statements)
    && (forall i | 0 <= i < statements :: Judged(reply.review, i))
  }

  predicate Judged(review: Review, index: int) {
    exists v | v in review.verdicts :: v.index == index
  }

  /** The world approved these statements when it was asked to review them, nothing but reads
      followed, and the retrieval is of the chunks that the review saw. */
  ghost predicate PublishedAfter(s: Setup, w: World, trace: Trace, k: nat, retrieval: Retrieval,
                                 statements: seq<Statement>)
    requires k < |trace|
  {
    && trace[k].ReviewAsked? && trace[k].payload.ReviewPayload? && trace[k].payload.draft.statements == statements
    && Approves(w.review(k), |statements|)
    && OnlyReads(s, w, trace[..k + 1], trace)
    && SameSources(retrieval.evidence, trace[k].payload.evidence)
  }

  /** What may reach a user as an answer. */
  ghost predicate Publishable(s: Setup, w: World, trace: Trace, retrieval: Retrieval, result: Result) {
    && result.review == Passed && result.statements != [] && result.repairs <= 1
    && (exists k | 0 <= k < |trace| :: PublishedAfter(s, w, trace, k, retrieval, result.statements))
    && (retrieval.paths != [] ==>
         PathCitationsComplete(Draft(true, result.statements), retrieval.evidence, retrieval.paths))
  }

  // ----- why nothing is answered

  /** How the guarded part ends: with an outcome, or with an exception and what was known then. */
  datatype AttemptEnd =
    | Finished(outcome: Outcome)
    | Raised(code: Option<string>, stage: Stage, retrieval: Retrieval, repairs: nat)

  function ReadDraft(reply: DraftReply): DraftReply {
    if reply.Drafted? && !WellFormed(reply.draft) then DraftInvalid(INVALID_OUTPUT) else reply
  }

  function FailureCode(reply: DraftReply): Option<string>
    requires !reply.Drafted?
  {
    if reply.DraftInvalid? then Some(reply.code) else None
  }

  /** The reply covers every statement once and names no other. */
  predicate Covers(review: Review, count: nat) {
    && |review.verdicts| == count && (forall v | v in review.verdicts :: 0 <= v.index < count)
    && forall i | 0 <= i < count :: Judged(review, i)
  }

  function Unanswered(status: Status, codes: seq<string>, review: ReviewStatus, repairs: nat): Result {
    Result(status, [], codes, review, repairs)
  }

  /** The reply is no review of so many statements. */
  predicate NoReview(reply: ReviewReply, count: nat, code: Option<string>) {
    match reply
    case ReviewInvalid(named) => code == Some(named)
    case ReviewFailedToArrive => code == None
    case Reviewed(review) => !Covers(review, count) && code == Some(INVALID_OUTPUT)
  }

  /** The exception has a cause: a draft failed its checks with its code; or the last reply of a
      model was no draft, or no review, and failed with its code. */
  ghost predicate Caused(s: Setup, w: World, trace: Trace, end: AttemptEnd) {
    && end.Raised? && end.repairs <= 1 && AllInScope(s, end.retrieval.evidence)
    && (|| (exists draft :: Failed(s, w, trace, draft, end.code, end.retrieval.evidence)
              && (end.stage == Generation ==> Proposed(trace, draft)))
        || (&& trace != [] && end.stage == Generation
            && Drafting(trace[|trace| - 1])
            && var reply := ReadDraft(trace[|trace| - 1].drafted);
               !reply.Drafted? && end.code == FailureCode(reply))
        || (&& trace != [] && end.stage == Reviewing
            && var e := trace[|trace| - 1];
               e.ReviewAsked? && e.payload.ReviewPayload?
                   && NoReview(e.reviewed, |e.payload.draft.statements|, end.code)))
  }

  /** What `execute` makes of an exception. */
  function ResultOf(end: AttemptEnd): Result
    requires end.Raised?
  {
    var code := end.code.GetOr(
      if end.stage == Generation then "ANSWER_GENERATION_UNAVAILABLE" else "ANSWER_REVIEW_UNAVAILABLE");
    var status := if code == TABLE_CONTEXT_INCOMPLETE then Insufficient
                  else if end.code.Some? then Rejected else Unavailable;
    var review := if end.stage == Reviewing || end.code.Some? then ReviewFailed else NotReviewed;
    Unanswered(status, [code], review, end.repairs)
  }

  /** What would have been sent is over the limit. */
  ghost predicate TooLarge(s: Setup, trace: Trace, r: Retrieval) {
    || s.tokens(GeneratePayload(s.question, r.evidence, r.paths)) > s.tokenLimit
    || exists draft ::
         Written(trace, draft) && s.tokens(ReviewPayload(s.question, r.evidence, draft, r.paths)) > s.tokenLimit
  }

  /** A model found that the evidence does not answer the question. */
  predicate ModelDeclined(trace: Trace) {
    exists j :: 0 <= j < |trace| && Drafting(trace[j]) && trace[j].drafted.Drafted? && !trace[j].drafted.draft.answered
  }

  /** The reviewing model found something missing or unsupported. */
  predicate ReviewDeclined(trace: Trace) {
    exists j :: 0 <= j < |trace| && Declines(trace[j])
  }

  predicate Declines(e: Event) {
    && e.ReviewAsked? && e.payload.ReviewPayload? && e.reviewed.Reviewed?
    && !Approves(e.reviewed, |e.payload.draft.statements|)
  }

  /** An earlier read returned more evidence. */
  predicate Shrunk(trace: Trace, evidence: seq<Evidence>) {
    exists j :: 0 <= j < |trace| && trace[j].ReadBack? && |trace[j].current| > |evidence|
  }

  /** The exception that led to this result, and nothing but reads since. */
  ghost predicate Raises(s: Setup, w: World, trace: Trace, result: Result, k: nat, end: AttemptEnd)
    requires k <= |trace|
  {
    Caused(s, w, trace[..k], end) && OnlyReads(s, w, trace[..k], trace) && result == ResultOf(end)
  }

  /** Status and code say why nothing is answered. */
  ghost predicate Reasoned(s: Setup, w: World, trace: Trace, outcome: Outcome)
    requires outcome.Returned?
  {
    var (r, status, codes) := (outcome.retrieval, outcome.result.status, outcome.result.codes);
    || (status in {Skipped, Unsupported} && codes == [])
    || (status == Insufficient && codes == [] && (r.evidence == [] || ModelDeclined(trace)))
    || (status == Unavailable && codes == [DISABLED] && !s.enabled)
    || (status == Insufficient && codes == [CONTEXT_LIMIT] && TooLarge(s, trace, r))
    || (status == Rejected && codes == [ANSWER_SCOPE_CHANGED] && Shrunk(trace, r.evidence))
    || (status == Insufficient && codes == [REVIEW_FAILED] && ReviewDeclined(trace))
    || exists k: nat, end | k <= |trace| :: Raises(s, w, trace, outcome.result, k, end)
  }

  /** The promise of `execute` for every world: every event is truthful and was authorised; a
      retrieval that goes out, with or without an answer, is fresh; and statements only go out
      if they are publishable; otherwise status and code say why nothing is
      answered. A denial is one that the last wait met with, or there was no wait. */
  ghost predicate Honest(s: Setup, w: World, trace: Trace, outcome: Outcome) {
    && Safe(s, w, trace)
    && (outcome.Denied? ==>
          if trace == [] then outcome.status == 403 && outcome.code == FORBIDDEN
          else DeniedBy(w, trace, outcome.status, outcome.code))
    && (outcome.Returned? ==>
          && (outcome.result.status in {Skipped, Unsupported} || Fresh(s, trace, outcome.retrieval))
          && if outcome.result.status == Answered then Publishable(s, w, trace, outcome.retrieval, outcome.result)
             else Silent(outcome) && Reasoned(s, w, trace, outcome))
  }

  // ----- the run

  datatype Step = Go(retrieval: Retrieval) | Halt(outcome: Outcome)

  predicate Silent(outcome: Outcome) {
    outcome.Returned? ==>
      && outcome.result.status != Answered && outcome.result.status != Structured
      && outcome.result.statements == [] && outcome.result.repairs <= 1
  }

  /** Nothing is answered, for a reason; and what is retrieved is fresh. */
  ghost predicate Quiet(s: Setup, w: World, trace: Trace, outcome: Outcome) {
    && Silent(outcome)
    && (outcome.Denied? ==> DeniedBy(w, trace, outcome.status, outcome.code))
    && (outcome.Returned? ==> Fresh(s, trace, outcome.retrieval) && Reasoned(s, w, trace, outcome))
  }

  /** Re-read authorisation after a wait, and give up if anything was withdrawn. */
  method Recheck(s: Setup, w: World, trace: Trace, retrieval: Retrieval, repairs: nat) returns (r: Step, after: Trace)
    requires repairs <= 1 && ReadBack(retrieval.evidence) in trace && AllInScope(s, retrieval.evidence)
    ensures OnlyReads(s, w, trace, after)
    ensures r.Go? ==>
            trace < after && Fresh(s, after, r.retrieval) && SameSources(r.retrieval.evidence, retrieval.evidence)
    ensures r.Halt? ==> Quiet(s, w, after, r.outcome)
    ensures Steady(s, w, retrieval.evidence) && GraphSteady(s, w, retrieval.evidence, retrieval.paths) ==>
            r == Go(retrieval)
  {
    var fresher, last := Refresh(s, w, trace, retrieval);
    after := last;
    match fresher {
      case Refused(status, code) => r := Halt(Denied(status, code));
      case Allowed(now) =>
        if |now.evidence| != |retrieval.evidence| {
          var j :| 0 <= j < |trace| && trace[j] == ReadBack(retrieval.evidence);
          assert after[j] == trace[j];
          assert Shrunk(after, now.evidence);
          r := Halt(Returned(now, Unanswered(Rejected, [ANSWER_SCOPE_CHANGED], ReviewFailed, repairs)));
        } else {
          r := Go(now);
        }
    }
  }

  lemma {:induction false} FailsHere(s: Setup, w: World, start: Trace, trace: Trace, known: Retrieval, draft: Draft,
                                     code: Option<string>, current: seq<Evidence>)
    requires OnlyReads(s, w, start, trace) && Fresh(s, start, known) && Written(start, draft)
    requires FailsWith(s.guards, draft, known.evidence, s.question, known.paths, code)
    requires SameSources(current, known.evidence)
    ensures Failed(s, w, trace, draft, code, current)
  {
    assert trace[..|start|] == start;
    assert FailedAt(s, w, trace, |start|, known, draft, code, current);
  }

  lemma {:induction false} ProposedIsWritten(trace: Trace, draft: Draft)
    requires Proposed(trace, draft) && WellFormed(draft)
    ensures Written(trace, draft)
  {
    assert SameTexts(draft, draft);
  }

  /** A draft that failed on the spot is the cause of the exception. */
  lemma {:induction false} DraftCauses(s: Setup, w: World, trace: Trace, draft: Draft, end: AttemptEnd)
    requires end.Raised? && end.repairs <= 1 && Fresh(s, trace, end.retrieval) && Written(trace, draft)
    requires end.stage == Generation ==> Proposed(trace, draft)
    requires FailsWith(s.guards, draft, end.retrieval.evidence, s.question, end.retrieval.paths, end.code)
    ensures Caused(s, w, trace, end)
  {
    FailsHere(s, w, trace, trace, end.retrieval, draft, end.code, end.retrieval.evidence);
  }

  /** A reply that is no draft is the cause of the exception. */
  lemma {:induction false} ReplyCauses(s: Setup, w: World, trace: Trace, e: Event, end: AttemptEnd)
    requires end.Raised? && end.repairs <= 1 && end.stage == Generation && Drafting(e)
    requires AllInScope(s, end.retrieval.evidence)
    requires !ReadDraft(e.drafted).Drafted? && end.code == FailureCode(ReadDraft(e.drafted))
    ensures Caused(s, w, trace + [e], end)
  {
  }

  lemma {:induction false} ReviewCauses(s: Setup, w: World, trace: Trace, e: Event, end: AttemptEnd)
    requires end.Raised? && end.repairs <= 1 && end.stage == Reviewing && AllInScope(s, end.retrieval.evidence)
    requires e.ReviewAsked? && e.payload.ReviewPayload? && NoReview(e.reviewed, |e.payload.draft.statements|, end.code)
    ensures Caused(s, w, trace + [e], end)
  {
  }

  /** A draft whose citations and wording hold against the evidence at hand, or the end of the run. */
  datatype DraftEnd =
    | Ready(draft: Draft, retrieval: Retrieval, repairs: nat)
    | Ended(end: AttemptEnd)

  /** Everything `execute` may rely on between two calls. */
  ghost predicate Standing(s: Setup, w: World, trace: Trace, retrieval: Retrieval, order: nat) {
    Safe(s, w, trace) && Within(trace, order) && Fresh(s, trace, retrieval)
  }

  ghost predicate QuietEnd(s: Setup, w: World, trace: Trace, end: AttemptEnd, order: nat) {
    && trace != [] && Safe(s, w, trace) && Within(trace, order)
    && (end.Finished? ==> Quiet(s, w, trace, end.outcome)) && (end.Raised? ==> Caused(s, w, trace, end))
  }

  // ----- a world that withdraws nothing

  /** `_validate_draft` accepts the draft and returns `Submitted`. */
  ghost predicate Accepted(s: Setup, draft: Draft, retrieval: Retrieval) {
    && Submittable(s.guards, draft, retrieval.evidence, retrieval.paths)
    && Passes(s.guards, Submitted(s.guards, draft, retrieval.evidence, retrieval.paths), retrieval.evidence,
         s.question, retrieval.paths)
  }

  /** The draft as it is reviewed: it is checked once more after the review was announced. */
  ghost function Reviewable(s: Setup, draft: Draft, retrieval: Retrieval): Draft
    requires Accepted(s, draft, retrieval)
    requires s.reportsProgress ==>
             Accepted(s, Submitted(s.guards, draft, retrieval.evidence, retrieval.paths), retrieval)
  {
    var once := Submitted(s.guards, draft, retrieval.evidence, retrieval.paths);
    if s.reportsProgress then Submitted(s.guards, once, retrieval.evidence, retrieval.paths) else once
  }

  /** A world that keeps confirming everything, with a model whose draft is accepted and approved. */
  ghost predicate Cooperative(s: Setup, w: World, retrieval: Retrieval, draft: Draft) {
    && Steady(s, w, retrieval.evidence) && GraphSteady(s, w, retrieval.evidence, retrieval.paths)
    && (forall payload :: s.tokens(payload) <= s.tokenLimit)
    && WellFormed(draft) && draft.answered && Accepted(s, draft, retrieval)
    && (s.reportsProgress ==> Accepted(s, Submitted(s.guards, draft, retrieval.evidence, retrieval.paths), retrieval))
    && forall t :: w.generate(t) == Drafted(draft) && Approves(w.review(t), |draft.statements|)
  }

  /** The wait for a progress report, and authorisation after it. */
  method Announce(s: Setup, w: World, start: Trace, stage: Stage, retrieval: Retrieval, repairs: nat)
      returns (step: Step, trace: Trace)
    requires repairs <= 1 && Safe(s, w, start) && Within(start, Order(Progressed(stage)) - 1)
    requires ReadBack(retrieval.evidence) in start && AllInScope(s, retrieval.evidence)
    ensures Safe(s, w, trace) && Within(trace, Order(Progressed(stage))) && start <= trace
    ensures step.Go? ==> Fresh(s, trace, step.retrieval)
    ensures step.Halt? ==> Quiet(s, w, trace, step.outcome)
    ensures Steady(s, w, retrieval.evidence) && GraphSteady(s, w, retrieval.evidence, retrieval.paths) ==>
            step == Go(retrieval)
  {
    EventStaysSafe(s, w, start, Progressed(stage), Order(Progressed(stage)) - 1);
    var waiting := start + [Progressed(stage)];
    step, trace := Recheck(s, w, waiting, retrieval, repairs);
    ReadsStaySafe(s, w, waiting, trace, Order(Progressed(stage)));
  }

  /** After a call for a draft: its reply, and authorisation after the wait for it. */
  method TakeReply(s: Setup, w: World, start: Trace, call: Event, first: Retrieval, repairs: nat)
      returns (r: DraftEnd, trace: Trace)
    requires Drafting(call) && Safe(s, w, start + [call]) && Within(start + [call], Order(call))
    requires Fresh(s, start, first) && repairs <= 1
    ensures r.Ended? ==> QuietEnd(s, w, trace, r.end, Order(call))
    ensures r.Ready? ==>
            && Standing(s, w, trace, r.retrieval, Order(call)) && r.repairs == repairs
            && WellFormed(r.draft) && Proposed(trace, r.draft)
    ensures Steady(s, w, first.evidence) && GraphSteady(s, w, first.evidence, first.paths) ==>
              ReadDraft(call.drafted).Drafted? ==> r == Ready(call.drafted.draft, first, repairs)
  {
    var asked := start + [call];
    var reply := ReadDraft(call.drafted);
    if !reply.Drafted? {
      ReplyCauses(s, w, start, call, Raised(FailureCode(reply), Generation, first, repairs));
      return Ended(Raised(FailureCode(reply), Generation, first, repairs)), asked;
    }
    assert asked[|start|] == call;
    var step;
    step, trace := Recheck(s, w, asked, first, repairs);
    ReadsStaySafe(s, w, asked, trace, Order(call));
    ProposedStays(asked, trace);
    if step.Halt? {
      return Ended(Finished(step.outcome)), trace;
    }
    return Ready(reply.draft, step.retrieval, repairs), trace;
  }

  /** The first call to the model, from the progress report to the checked reply. */
  method Generate(s: Setup, w: World, start: Trace, first: Retrieval) returns (r: DraftEnd, trace: Trace)
    requires Standing(s, w, start, first, 0)
    requires s.tokens(GeneratePayload(s.question, first.evidence, first.paths)) <= s.tokenLimit
    ensures r.Ended? ==> QuietEnd(s, w, trace, r.end, 2)
    ensures r.Ready? ==>
            Standing(s, w, trace, r.retrieval, 2) && WellFormed(r.draft) && Proposed(trace, r.draft) && r.repairs == 0
    ensures forall draft | Cooperative(s, w, first, draft) :: r == Ready(draft, first, 0)
  {
    var retrieval := first;
    trace := start;
    if s.reportsProgress {
      var step, after := Announce(s, w, start, Generation, retrieval, 0);
      trace := after;
      if step.Halt? {
        return Ended(Finished(step.outcome)), trace;
      }
      retrieval := step.retrieval;
      if s.tokens(GeneratePayload(s.question, retrieval.evidence, retrieval.paths)) > s.tokenLimit {
        return Ended(Finished(Returned(retrieval, Unanswered(Insufficient, [CONTEXT_LIMIT], NotReviewed, 0)))),
            trace;
      }
    }
    var drafted := w.generate(|trace|);
    var call := Generated(GeneratePayload(s.question, retrieval.evidence, retrieval.paths), drafted);
    EventStaysSafe(s, w, trace, call, 1);
    r, trace := TakeReply(s, w, trace, call, retrieval, 0);
  }

  lemma {:induction false} RepairGivenUp(s: Setup, w: World, trace: Trace, draft: Draft, end: AttemptEnd)
    requires end.Raised? && end.repairs <= 1 && Proposed(trace, draft) && AllInScope(s, end.retrieval.evidence)
    requires Failed(s, w, trace, draft, end.code, end.retrieval.evidence)
    ensures Caused(s, w, trace, end)
  {
  }

  /** The call for a repair, with the code that the draft failed with. */
  method AskRepair(s: Setup, w: World, start: Trace, draft: Draft, code: string, first: Retrieval)
      returns (r: DraftEnd, trace: Trace)
    requires Standing(s, w, start, first, 2) && s.canRepair && code in REPAIRABLE && Proposed(start, draft)
    requires Failed(s, w, start, draft, Some(code), first.evidence)
    ensures r.Ended? ==> QuietEnd(s, w, trace, r.end, 3)
    ensures r.Ready? ==>
            Standing(s, w, trace, r.retrieval, 3) && WellFormed(r.draft) && Proposed(trace, r.draft) && r.repairs == 1
  {
    var payload := RepairPayload(s.question, first.evidence, draft, code, first.paths);
    if s.tokens(payload) > s.tokenLimit {
      RepairGivenUp(s, w, start, draft, Raised(Some(code), Generation, first, 0));
      return Ended(Raised(Some(code), Generation, first, 0)), start;
    }
    var drafted := w.repair(|start|);
    EventStaysSafe(s, w, start, Repaired(payload, drafted), 2);
    r, trace := TakeReply(s, w, start, Repaired(payload, drafted), first, 1);
  }

  /** The one repair: authorised anew, within the token limit, and checked like a first draft. */
  method Repair(s: Setup, w: World, start: Trace, draft: Draft, code: string, first: Retrieval)
      returns (r: DraftEnd, trace: Trace)
    requires Standing(s, w, start, first, 2) && s.canRepair && code in REPAIRABLE
    requires Proposed(start, draft) && WellFormed(draft)
    requires FailsWith(s.guards, draft, first.evidence, s.question, first.paths, Some(code))
    ensures r.Ended? ==> QuietEnd(s, w, trace, r.end, 3)
    ensures r.Ready? ==>
            Standing(s, w, trace, r.retrieval, 3) && WellFormed(r.draft) && Proposed(trace, r.draft) && r.repairs == 1
  {
    var step;
    step, trace := Recheck(s, w, start, first, 0);
    ReadsStaySafe(s, w, start, trace, 2);
    ProposedStays(start, trace);
    if step.Halt? {
      return Ended(Finished(step.outcome)), trace;
    }
    ProposedIsWritten(start, draft);
    FailsHere(s, w, start, trace, first, draft, Some(code), step.retrieval.evidence);
    r, trace := AskRepair(s, w, trace, draft, code, step.retrieval);
  }

  /** A draft that passes every check on the retrieval at hand and says what the model said. */
  ghost predicate Checked(s: Setup, trace: Trace, draft: Draft, retrieval: Retrieval) {
    draft.answered && Written(trace, draft) && Passes(s.guards, draft, retrieval.evidence, s.question, retrieval.paths)
  }

  lemma {:induction false} SubmittedIsWritten(s: Setup, trace: Trace, draft: Draft, retrieval: Retrieval)
    requires Written(trace, draft) && CheckDraft(s.guards, draft, retrieval.evidence).Fine?
    ensures Written(trace, Submitted(s.guards, draft, retrieval.evidence, retrieval.paths))
  {
    var raw :| Proposed(trace, raw) && WellFormed(raw) && SameTexts(raw, draft);
    SubmittedSameTexts(s.guards, draft, retrieval.evidence, retrieval.paths);
    assert SameTexts(raw, Submitted(s.guards, draft, retrieval.evidence, retrieval.paths));
  }

  /** `_validate_draft` on what a model said. */
  method Check(s: Setup, ghost trace: Trace, draft: Draft, retrieval: Retrieval) returns (r: Validated)
    requires draft.answered && SoundDraft(draft) && Written(trace, draft)
    ensures r.Valid? ==> Checked(s, trace, r.draft, retrieval)
    ensures r.Raises? ==> FailsWith(s.guards, draft, retrieval.evidence, s.question, retrieval.paths, r.code)
    ensures Accepted(s, draft, retrieval) ==>
            r == Valid(Submitted(s.guards, draft, retrieval.evidence, retrieval.paths))
  {
    r := ValidateDraft(s.guards, draft, retrieval.evidence, s.question, retrieval.paths);
    if r.Valid? {
      SubmittedIsWritten(s, trace, draft, retrieval);
    }
  }

  /** From the first call to a draft that passes every check. */
  method Prepare(s: Setup, w: World, start: Trace, first: Retrieval) returns (r: DraftEnd, trace: Trace)
    requires Standing(s, w, start, first, 0)
    requires s.tokens(GeneratePayload(s.question, first.evidence, first.paths)) <= s.tokenLimit
    ensures r.Ended? ==> QuietEnd(s, w, trace, r.end, 3)
    ensures r.Ready? ==>
            Standing(s, w, trace, r.retrieval, 3) && r.repairs <= 1 && Checked(s, trace, r.draft, r.retrieval)
    ensures forall draft | Cooperative(s, w, first, draft) ::
      r == Ready(Submitted(s.guards, draft, first.evidence, first.paths), first, 0)
  {
    r, trace := Generate(s, w, start, first);
    if r.Ended? {
      return;
    }
    if !r.draft.answered {
      assert ModelDeclined(trace);
      return Ended(Finished(Returned(r.retrieval, Unanswered(Insufficient, [], NotReviewed, 0)))), trace;
    }
    ProposedIsWritten(trace, r.draft);
    var checked := Check(s, trace, r.draft, r.retrieval);
    if checked.Valid? {
      r := r.(draft := checked.draft);
      return;
    }
    if !s.canRepair || checked.code.None? || checked.code.value !in REPAIRABLE {
      DraftCauses(s, w, trace, r.draft, Raised(checked.code, Generation, r.retrieval, 0));
      return Ended(Raised(checked.code, Generation, r.retrieval, 0)), trace;
    }
    r, trace := Repair(s, w, trace, r.draft, checked.code.value, r.retrieval);
    if r.Ended? {
      return;
    }
    if !r.draft.answered {
      assert ModelDeclined(trace);
      return Ended(Finished(Returned(r.retrieval, Unanswered(Insufficient, [], NotReviewed, 1)))), trace;
    }
    ProposedIsWritten(trace, r.draft);
    checked := Check(s, trace, r.draft, r.retrieval);
    if checked.Raises? {
      DraftCauses(s, w, trace, r.draft, Raised(checked.code, Generation, r.retrieval, 1));
      return Ended(Raised(checked.code, Generation, r.retrieval, 1)), trace;
    }
    r := r.(draft := checked.draft);
  }

  method CoversAll(review: Review, count: nat) returns (covers: bool)
    ensures covers <==> Covers(review, count)
  {
    covers := |review.verdicts| == count && !(exists v | v in review.verdicts :: !(0 <= v.index < count))
      && !(exists i | 0 <= i < count :: !Judged(review, i));
  }

  /** The retrieval to publish: without its paths if the answer does not cite them all any more. */
  function Stripped(s: Setup, r: Retrieval, draft: Draft): Retrieval {
    if r.paths != [] && (!PathCitationsComplete(draft, r.evidence, r.paths)
        || s.guards.conditionLost(draft, r.evidence, r.paths)) then
      WithEvidence(s, r.(paths := [], status := Degraded, codes := r.codes + {PROVENANCE_CHANGED}), r.evidence)
    else r
  }

  lemma {:induction false} StrippedIsFresh(s: Setup, trace: Trace, r: Retrieval, draft: Draft)
    requires Fresh(s, trace, r)
    ensures var published := Stripped(s, r, draft);
            && Fresh(s, trace, published) && published.evidence == r.evidence
            && (published.paths != [] ==> PathCitationsComplete(draft, published.evidence, published.paths))
  {
    CompletePathsAre(s, r.evidence, []);
  }

  lemma {:induction false} QuietIsHonest(s: Setup, w: World, trace: Trace, outcome: Outcome)
    requires Safe(s, w, trace) && Quiet(s, w, trace, outcome)
    ensures Honest(s, w, trace, outcome)
  {
  }

  /** Once the reviewer has approved and the same chunks have been read again, the draft may be
      published. */
  lemma {:induction false} ApprovedIsHonest(s: Setup, w: World, asked: Trace, trace: Trace, draft: Draft,
                                            known: Retrieval, repairs: nat)
    requires Safe(s, w, trace) && Fresh(s, trace, known) && repairs <= 1 && draft.statements != []
    requires asked != [] && OnlyReads(s, w, asked, trace)
    requires var call := asked[|asked| - 1];
             && call.ReviewAsked? && call.payload.ReviewPayload? && call.payload.draft == draft && draft.answered
             && SameSources(known.evidence, call.payload.evidence)
             && Approves(w.review(|asked| - 1), |draft.statements|)
    ensures Honest(s, w, trace,
            Returned(Stripped(s, known, draft), Result(Answered, draft.statements, [], Passed, repairs)))
  {
    var retrieval := Stripped(s, known, draft);
    StrippedIsFresh(s, trace, known, draft);
    assert draft == Draft(true, draft.statements);
    assert PublishedAfter(s, w, trace, |asked| - 1, retrieval, draft.statements) by {
      assert trace[|asked| - 1] == asked[|asked| - 1] && trace[..(|asked| - 1) + 1] == asked;
    }
  }

  /** The question to the reviewing model, and whether its reply covers the draft. */
  method AskReview(s: Setup, w: World, start: Trace, draft: Draft, first: Retrieval, repairs: nat)
      returns (end: Option<AttemptEnd>, asked: Trace)
    requires Standing(s, w, start, first, 4) && repairs <= 1 && Checked(s, start, draft, first)
    ensures asked != [] && Safe(s, w, asked) && Within(asked, 5)
    ensures end.Some? && end.value.Finished? ==> Honest(s, w, asked, end.value.outcome)
    ensures end.Some? && end.value.Raised? ==> Caused(s, w, asked, end.value)
    ensures end.None? ==>
            && asked == start
                 + [ReviewAsked(ReviewPayload(s.question, first.evidence, draft, first.paths), w.review(|start|))]
            && w.review(|start|).Reviewed? && Covers(w.review(|start|).review, |draft.statements|)
    ensures (&& s.tokens(ReviewPayload(s.question, first.evidence, draft, first.paths)) <= s.tokenLimit
             && Approves(w.review(|start|), |draft.statements|)) ==>
              end.None?
  {
    var payload := ReviewPayload(s.question, first.evidence, draft, first.paths);
    if s.tokens(payload) > s.tokenLimit {
      var unanswered := Unanswered(Insufficient, [CONTEXT_LIMIT], NotReviewed, repairs);
      assert TooLarge(s, start, first);
      QuietIsHonest(s, w, start, Returned(first, unanswered));
      return Some(Finished(Returned(first, unanswered))), start;
    }
    var reply := w.review(|start|);
    EventStaysSafe(s, w, start, ReviewAsked(payload, reply), 4);
    asked := start + [ReviewAsked(payload, reply)];
    if !reply.Reviewed? {
      var code := if reply.ReviewInvalid? then Some(reply.code) else None;
      ReviewCauses(s, w, start, ReviewAsked(payload, reply), Raised(code, Reviewing, first, repairs));
      return Some(Raised(code, Reviewing, first, repairs)), asked;
    }
    var covers := CoversAll(reply.review, |draft.statements|);
    if !covers {
      ReviewCauses(s, w, start, ReviewAsked(payload, reply), Raised(Some(INVALID_OUTPUT), Reviewing, first, repairs));
      return Some(Raised(Some(INVALID_OUTPUT), Reviewing, first, repairs)), asked;
    }
    return None, asked;
  }

  /** What the reply means, after the last re-read. */
  method Conclude(s: Setup, w: World, asked: Trace, draft: Draft, first: Retrieval, review: Review, repairs: nat)
      returns (end: AttemptEnd, trace: Trace)
    requires Safe(s, w, asked) && Within(asked, 5) && asked != [] && repairs <= 1 && draft.answered
    requires var call := asked[|asked| - 1];
             && call.ReviewAsked? && call.payload.ReviewPayload? && call.payload.draft == draft
                  && draft.statements != []
             && call.payload.evidence == first.evidence && call.reviewed == Reviewed(review)
    requires ReadBack(first.evidence) in asked && AllInScope(s, first.evidence)
    requires w.review(|asked| - 1) == Reviewed(review) && Covers(review, |draft.statements|)
    ensures trace != [] && Safe(s, w, trace) && Within(trace, 5)
    ensures end.Finished? && Honest(s, w, trace, end.outcome)
    ensures Steady(s, w, first.evidence) && GraphSteady(s, w, first.evidence, first.paths)
            && Approves(Reviewed(review), |draft.statements|) ==>
              end == Finished(Returned(Stripped(s, first, draft),
                  Result(Answered, draft.statements, [], Passed, repairs)))
  {
    var step, after := Recheck(s, w, asked, first, repairs);
    ReadsStaySafe(s, w, asked, after, 5);
    trace := after;
    if step.Halt? {
      QuietIsHonest(s, w, trace, step.outcome);
      return Finished(step.outcome), trace;
    }
    if review.missing != [] || !review.sufficient || exists v | v in review.verdicts :: !v.supported {
      var unanswered := Unanswered(Insufficient, [REVIEW_FAILED], ReviewFailed, repairs);
      assert trace[|asked| - 1] == asked[|asked| - 1] && Declines(trace[|asked| - 1]);
      QuietIsHonest(s, w, trace, Returned(step.retrieval, unanswered));
      return Finished(Returned(step.retrieval, unanswered)), trace;
    }
    ApprovedIsHonest(s, w, asked, trace, draft, step.retrieval, repairs);
    var retrieval := Stripped(s, step.retrieval, draft);
    return Finished(Returned(retrieval, Result(Answered, draft.statements, [], Passed, repairs))), trace;
  }

  /** The review of a draft that passed, and the last re-read before it goes out. */
  method ReviewDraft(s: Setup, w: World, start: Trace, draft: Draft, first: Retrieval, repairs: nat)
      returns (end: AttemptEnd, trace: Trace)
    requires Standing(s, w, start, first, 4) && repairs <= 1 && Checked(s, start, draft, first)
    ensures trace != [] && Safe(s, w, trace) && Within(trace, 5)
    ensures end.Finished? ==> Honest(s, w, trace, end.outcome)
    ensures end.Raised? ==> Caused(s, w, trace, end)
    ensures (&& Steady(s, w, first.evidence) && GraphSteady(s, w, first.evidence, first.paths)
             && s.tokens(ReviewPayload(s.question, first.evidence, draft, first.paths)) <= s.tokenLimit
             && forall t :: Approves(w.review(t), |draft.statements|)) ==>
              end == Finished(Returned(first, Result(Answered, draft.statements, [], Passed, repairs)))
  {
    var early, asked := AskReview(s, w, start, draft, first, repairs);
    if early.Some? {
      return early.value, asked;
    }
    CheckedIsCited(s, start, draft, first);
    end, trace := Conclude(s, w, asked, draft, first, w.review(|start|).review, repairs);
  }

  /** A checked draft cites the paths it is checked with, so nothing is stripped. */
  lemma {:induction false} CheckedIsCited(s: Setup, trace: Trace, draft: Draft, retrieval: Retrieval)
    requires Checked(s, trace, draft, retrieval)
    ensures Stripped(s, retrieval, draft) == retrieval
  {
  }

  /** The announcement of the review, after which the draft is checked once more. */
  method AnnounceReview(s: Setup, w: World, start: Trace, draft: Draft, first: Retrieval, repairs: nat)
      returns (r: DraftEnd, trace: Trace)
    requires Standing(s, w, start, first, 3) && repairs <= 1 && Checked(s, start, draft, first)
    ensures r.Ended? ==> QuietEnd(s, w, trace, r.end, 5)
    ensures r.Ready? ==>
            Standing(s, w, trace, r.retrieval, 4) && Checked(s, trace, r.draft, r.retrieval) && r.repairs == repairs
    ensures Steady(s, w, first.evidence) && GraphSteady(s, w, first.evidence,
            first.paths) && Accepted(s, draft, first) ==>
            r == Ready(Submitted(s.guards, draft, first.evidence, first.paths), first, repairs)
  {
    var step;
    step, trace := Announce(s, w, start, Reviewing, first, repairs);
    ProposedStays(start, trace);
    if step.Halt? {
      return Ended(Finished(step.outcome)), trace;
    }
    var checked := Check(s, trace, draft, step.retrieval);
    if checked.Raises? {
      DraftCauses(s, w, trace, draft, Raised(checked.code, Reviewing, step.retrieval, repairs));
      return Ended(Raised(checked.code, Reviewing, step.retrieval, repairs)), trace;
    }
    return Ready(checked.draft, step.retrieval, repairs), trace;
  }

  /** The `try` block of `execute`. */
  method Attempt(s: Setup, w: World, start: Trace, first: Retrieval) returns (end: AttemptEnd, trace: Trace)
    requires Standing(s, w, start, first, 0)
    requires s.tokens(GeneratePayload(s.question, first.evidence, first.paths)) <= s.tokenLimit
    ensures trace != [] && Safe(s, w, trace) && Within(trace, 5)
    ensures end.Finished? ==> Honest(s, w, trace, end.outcome)
    ensures end.Raised? ==> Caused(s, w, trace, end)
    ensures forall draft | Cooperative(s, w, first, draft) ::
      end == Finished(Returned(first, Result(Answered, Reviewable(s, draft, first).statements, [], Passed, 0)))
  {
    var ready, prepared := Prepare(s, w, start, first);
    trace := prepared;
    if ready.Ready? && s.reportsProgress {
      ready, trace := AnnounceReview(s, w, trace, ready.draft, ready.retrieval, ready.repairs);
    }
    if ready.Ended? {
      EndIsHonest(s, w, trace, ready.end);
      return ready.end, trace;
    }
    forall draft | Cooperative(s, w, first, draft)
      ensures |Reviewable(s, draft, first).statements| == |draft.statements|
    {
      ReviewableCount(s, draft, first);
    }
    end, trace := ReviewDraft(s, w, trace, ready.draft, ready.retrieval, ready.repairs);
  }

  lemma {:induction false} EndIsHonest(s: Setup, w: World, trace: Trace, end: AttemptEnd)
    requires QuietEnd(s, w, trace, end, 5)
    ensures end.Finished? ==> Honest(s, w, trace, end.outcome)
  {
    if end.Finished? {
      QuietIsHonest(s, w, trace, end.outcome);
    }
  }

  lemma {:induction false} ReviewableCount(s: Setup, draft: Draft, retrieval: Retrieval)
    requires Accepted(s, draft, retrieval)
    requires s.reportsProgress ==>
             Accepted(s, Submitted(s.guards, draft, retrieval.evidence, retrieval.paths), retrieval)
    ensures |Reviewable(s, draft, retrieval).statements| == |draft.statements|
  {
    SubmittedSameTexts(s.guards, draft, retrieval.evidence, retrieval.paths);
    if s.reportsProgress {
      SubmittedSameTexts(s.guards, Submitted(s.guards, draft, retrieval.evidence, retrieval.paths),
          retrieval.evidence, retrieval.paths);
    }
  }

  /** The handler of exceptions: authorisation once more, and what the exception means. */
  method Recover(s: Setup, w: World, last: Trace, end: AttemptEnd) returns (outcome: Outcome, trace: Trace)
    requires last != [] && Safe(s, w, last) && Within(last, 5) && Caused(s, w, last, end)
    requires AllInScope(s, end.retrieval.evidence)
    ensures trace != [] && Honest(s, w, trace, outcome)
    ensures outcome.Denied? || outcome.result.status != Answered
  {
    var fresher, after := Refresh(s, w, last, end.retrieval);
    ReadsStaySafe(s, w, last, after, 5);
    trace := after;
    if fresher.Refused? {
      return Denied(fresher.status, fresher.code), trace;
    }
    var code := end.code;
    var named := code.GetOr(if end.stage == Generation then "ANSWER_GENERATION_UNAVAILABLE"
                            else "ANSWER_REVIEW_UNAVAILABLE");
    var status := if named == TABLE_CONTEXT_INCOMPLETE then Insufficient
                  else if code.Some? then Rejected else Unavailable;
    var review := if end.stage == Reviewing || code.Some? then ReviewFailed else NotReviewed;
    RaisedIsHonest(s, w, last, trace, fresher.value, end);
    return Returned(fresher.value, Unanswered(status, [named], review, end.repairs)), trace;
  }

  /** The run for a question that retrieval supports. */
  method Answer(s: Setup, w: World, given: Retrieval) returns (outcome: Outcome, trace: Trace)
    ensures Honest(s, w, trace, outcome) && (outcome.Denied? && trace == [] <==> !AllInScope(s, given.evidence))
    ensures forall draft | Cooperative(s, w, given, draft) ::
      s.enabled ==> outcome == Returned(given, Result(Answered, Reviewable(s, draft, given).statements, [], Passed, 0))
  {
    var fresher;
    fresher, trace := Refresh(s, w, [], given);
    EmptyIsSafe(s, w);
    ReadsStaySafe(s, w, [], trace, 0);
    if fresher.Refused? {
      return Denied(fresher.status, fresher.code), trace;
    }
    var retrieval := fresher.value;
    if retrieval.evidence == [] {
      return Returned(retrieval, Unanswered(Insufficient, [], NotReviewed, 0)), trace;
    }
    if !s.enabled {
      return Returned(retrieval, Unanswered(Unavailable, [DISABLED], NotReviewed, 0)), trace;
    }
    if s.tokens(GeneratePayload(s.question, retrieval.evidence, retrieval.paths)) > s.tokenLimit {
      return Returned(retrieval, Unanswered(Insufficient, [CONTEXT_LIMIT], NotReviewed, 0)), trace;
    }
    var end, last := Attempt(s, w, trace, retrieval);
    if end.Finished? {
      return end.outcome, last;
    }
    outcome, trace := Recover(s, w, last, end);
  }

  lemma {:induction false} EmptyIsSafe(s: Setup, w: World)
    ensures Safe(s, w, []) && Within([], 0)
  {
  }

  /** `execute`: whatever the repository, the graph and the model do, nothing leaves that
      was not authorised just before, and nothing is answered that did not pass. If
      nothing is withdrawn and the draft is accepted and approved, it is the answer. */
  method Execute(s: Setup, w: World, given: Retrieval) returns (outcome: Outcome, trace: Trace)
    ensures Honest(s, w, trace, outcome)
    ensures outcome.Denied? && trace == [] <==>
            !s.identityMatches || (!AllInScope(s, given.evidence) && given.status !in {NotSupported, NotDone})
    ensures forall draft | Cooperative(s, w, given, draft) ::
      s.identityMatches && s.enabled && given.status != NotSupported && given.status != NotDone ==>
        outcome == Returned(given, Result(Answered, Reviewable(s, draft, given).statements, [], Passed, 0))
  {
    EmptyIsSafe(s, w);
    trace := [];
    if !s.identityMatches {
      return Denied(403, FORBIDDEN), trace;
    }
    if given.status == NotSupported || given.status == NotDone {
      var read, after := Revalidate(s, w, trace, []);
      ReadsStaySafe(s, w, trace, after, 0);
      trace := after;
      if read.Refused? {
        return Denied(read.status, read.code), trace;
      }
      var status := if given.status == NotSupported then Unsupported else Skipped;
      return Returned(given, Unanswered(status, [], NotReviewed, 0)), trace;
    }
    outcome, trace := Answer(s, w, given);
  }

  lemma {:induction false} RaisedIsHonest(s: Setup, w: World, last: Trace, trace: Trace, retrieval: Retrieval,
                                          end: AttemptEnd)
    requires Safe(s, w, trace) && OnlyReads(s, w, last, trace) && Fresh(s, trace, retrieval) && Caused(s, w, last, end)
    ensures Honest(s, w, trace, Returned(retrieval, ResultOf(end)))
  {
    assert trace[..|last|] == last;
    assert Raises(s, w, trace, ResultOf(end), |last|, end);
  }

  // ----- what a reader of an answer may rely on

  lemma {:induction false} SameSourcesKeepIds(a: seq<Evidence>, b: seq<Evidence>)
    requires SameSources(a, b) && DistinctIds(b)
    ensures DistinctIds(a)
  {
    forall i, j | 0 <= i < j < |a|
      ensures a[i].citationId != a[j].citationId
    {
      assert SameSource(a[i], b[i]) && SameSource(a[j], b[j]);
    }
  }

  lemma {:induction false} CitedStays(a: seq<Evidence>, b: seq<Evidence>, c: Citation) returns (item: Evidence)
    requires SameSources(a, b) && c.citationId in ById(b) && Contains(ById(b)[c.citationId].content, c.quote)
    ensures item in a && item.citationId == c.citationId && Contains(item.content, c.quote)
  {
    var i :| 0 <= i < |b| && b[i] == ById(b)[c.citationId];
    assert SameSource(a[i], b[i]);
    item := a[i];
  }

  /** Every quote of a published answer is a slice of the evidence item it names, in the
      retrieval that is published with it and was authorised by the last read; and the answer
      is, statement by statement, what a model wrote and the reviewing model approved. */
  lemma {:induction false} PublishedQuotesAreEvidence(s: Setup, w: World, trace: Trace, outcome: Outcome)
    requires Honest(s, w, trace, outcome) && outcome.Returned? && outcome.result.status == Answered
    ensures forall statement, c | statement in outcome.result.statements && c in statement.citations ::
            Quoted(outcome.retrieval.evidence, c)
    ensures DistinctIds(outcome.retrieval.evidence) && trace != []
            && Backed(s, w, |trace| - 1, outcome.retrieval.evidence)
    ensures SoundDraft(Draft(true, outcome.result.statements))
    ensures exists k | 0 <= k < |trace| ::
            Approves(w.review(k), |outcome.result.statements|)
            && Written(trace[..k], Draft(true, outcome.result.statements))
  {
    var retrieval, statements := outcome.retrieval, outcome.result.statements;
    var k :| 0 <= k < |trace| && PublishedAfter(s, w, trace, k, retrieval, statements);
    assert SafeAt(s, w, trace, k) && SafeAt(s, w, trace, |trace| - 1);
    var sent, draft := trace[k].payload.evidence, trace[k].payload.draft;
    assert draft == Draft(true, statements);
    QuotedAfterReads(s.guards, retrieval.evidence, sent, draft);
  }

  /** Verbatim quotes of what was sent are quotes of the same chunks read later. */
  lemma {:induction false} QuotedAfterReads(g: Guards, evidence: seq<Evidence>, sent: seq<Evidence>, draft: Draft)
    requires SameSources(evidence, sent) && Verbatim(g, draft, sent)
    ensures DistinctIds(evidence)
    ensures forall statement, c | statement in draft.statements && c in statement.citations :: Quoted(evidence, c)
  {
    SameSourcesKeepIds(evidence, sent);
    forall statement, c | statement in draft.statements && c in statement.citations
      ensures Quoted(evidence, c)
    {
      assert VerbatimStatement(g, ById(sent), statement) && VerbatimCitation(g, ById(sent), c);
      var item := CitedStays(evidence, sent, c);
    }
  }

  /** Some item of the evidence is the one named and holds the quote. */
  predicate Quoted(evidence: seq<Evidence>, c: Citation) {
    exists item | item in evidence :: item.citationId == c.citationId && Contains(item.content, c.quote)
  }
}
