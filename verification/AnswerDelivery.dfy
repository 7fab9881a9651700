/** From `execute` to the browser: what the pipeline publishes is what the client accepts,
    shows and returns (`src/zhiqing_rag/query_answering/router.py`). */
module AnswerDelivery {
  import opened Answers
  import opened Text
  import Pipeline = AnswerPipeline
  import Wire = EventWire
  import Stream = AnswerStream
  import Reader = EventStream
  import Paths = PathQuotes

  // ----- one response from a retrieval and a result

  function SourcesOf(evidence: seq<Evidence>): (sources: seq<Stream.Source>)
    ensures |sources| == |evidence|
  {
    seq(|evidence|, i requires 0 <= i < |evidence| => Stream.Source(evidence[i].citationId, evidence[i].content))
  }

  /** The response `execute` hands on; `rest` and `message` are texts it adds. */
  function ResponseOf(o: Pipeline.Outcome, rest: string, message: Option<string>,
                      model: Option<string>): Stream.Response
    requires o.Returned?
  {
    Stream.Response(Stream.Base(SourcesOf(o.retrieval.evidence), None, rest),
                    Stream.Answer(o.result.status, o.result.statements, message, o.result.codes, model,
                        o.result.review, o.result.repairs))
  }

  lemma {:induction false} SourceIsFound(evidence: seq<Evidence>, item: Evidence)
    requires Paths.DistinctIds(evidence) && item in evidence
    ensures Stream.SourceOf(SourcesOf(evidence), item.citationId) == Some(item.content)
  {
    var last := |evidence| - 1;
    assert SourcesOf(evidence)[..last] == SourcesOf(evidence[..last]);
    if evidence[last].citationId != item.citationId {
      SourceIsFound(evidence[..last], item);
    } else {
      var i :| 0 <= i < |evidence| && evidence[i] == item;
      assert i == last;
    }
  }

  lemma {:induction false} QuotedIsValid(evidence: seq<Evidence>, c: Citation)
    requires Paths.DistinctIds(evidence) && Pipeline.Quoted(evidence, c) && |c.quote| >= SHORTEST_QUOTE
    ensures Stream.ValidCitation(SourcesOf(evidence), c)
  {
    var item :| item in evidence && item.citationId == c.citationId && Contains(item.content, c.quote);
    SourceIsFound(evidence, item);
  }

  /** No statement is one that the client would trim away to nothing. */
  predicate Legible(statements: seq<Statement>) {
    forall s | s in statements :: !Stream.Blank(s.text)
  }

  /** What the server strips and what the client trims differ: a statement that the server
      accepts is blank to the client exactly if it is all white space to the client, and then it
      begins and ends with a zero width no-break space. */
  lemma {:induction false} BlankExactly(s: Statement)
    requires SoundStatement(s)
    ensures Stream.Blank(s.text) <==> forall c | c in s.text :: Stream.ClientSpace(c)
    ensures Stream.Blank(s.text) ==> s.text[0] == s.text[|s.text| - 1] == '\U{FEFF}'
  {
    TrimToNothing(s.text, Stream.ClientSpace);
    TrimmedIsStripped(s.text);
    assert s.text[0] in s.text && s.text[|s.text| - 1] in s.text;
  }

  /** There is such a text: the server accepts the statement, and no client accepts a response
      with it. */
  lemma {:induction false} InvisibleStatement(citations: seq<Citation>, checks: Stream.Checks, r: Stream.Response)
    requires SoundStatement(Statement("1", citations)) && r.answer.status == Answered
    requires Statement("\U{FEFF}", citations) in r.answer.statements
    ensures SoundStatement(Statement("\U{FEFF}", citations)) && !Stream.Valid(checks, r)
  {
    var s := Statement("\U{FEFF}", citations);
    TrimmedIsStripped(s.text);
    BlankExactly(s);
  }

  /** The client accepts every response that `execute` returns, in every world, exactly if
      the rest of it is in order and no statement is blank to the client. */
  lemma {:induction false} ClientAcceptsHonest(s: Pipeline.Setup, w: Pipeline.World,
                                               trace: Pipeline.Trace, o: Pipeline.Outcome,
                                               checks: Stream.Checks, rest: string, message: Option<string>,
                                               model: Option<string>)
    requires o.Returned? && Pipeline.Honest(s, w, trace, o)
    ensures var r := ResponseOf(o, rest, message, model);
            Stream.Valid(checks, r) <==> checks.validResponse(r.base) && Legible(o.result.statements)
  {
    var r := ResponseOf(o, rest, message, model);
    if o.result.status == Answered {
      Pipeline.PublishedQuotesAreEvidence(s, w, trace, o);
      forall st | st in o.result.statements
        ensures Stream.ValidStatement(r.base.evidence, st) <==> !Stream.Blank(st.text)
      {
        assert SoundStatement(st);
        forall c | c in st.citations
          ensures Stream.ValidCitation(r.base.evidence, c)
        {
          QuotedIsValid(o.retrieval.evidence, c);
        }
      }
    }
  }

  // ----- the stages reported on the way

  function StageOf(stage: Pipeline.Stage): Stream.Stage {
    match stage
    case Generation => Stream.Generation
    case Reviewing => Stream.Review
  }

  function Reported(trace: Pipeline.Trace): seq<Stream.Stage> {
    if trace == [] then []
    else (if trace[0].Progressed? then [StageOf(trace[0].stage)] else []) + Reported(trace[1..])
  }

  lemma {:induction false} ReportsAreOrdered(trace: Pipeline.Trace, last: int)
    requires forall j, k | 0 <= j < k < |trace| && Pipeline.Order(trace[j]) > 0 && Pipeline.Order(trace[k]) > 0 ::
      Pipeline.Order(trace[j]) < Pipeline.Order(trace[k])
    requires last < 2 || (last == 2 && forall k | 0 <= k < |trace| && trace[k].Progressed? ::
             trace[k].stage == Pipeline.Reviewing)
             || forall k | 0 <= k < |trace| :: !trace[k].Progressed?
    ensures Stream.Ordered(Reported(trace), last)
  {
    if trace != [] {
      if trace[0].Progressed? {
        var first := StageOf(trace[0].stage);
        forall k | 0 <= k < |trace[1..]| && trace[1..][k].Progressed?
          ensures first == Stream.Generation && trace[1..][k].stage == Pipeline.Reviewing
        {
          assert trace[1..][k] == trace[k + 1];
          assert Pipeline.Order(trace[0]) < Pipeline.Order(trace[k + 1]);
        }
        ReportsAreOrdered(trace[1..], Stream.Rank(first));
        assert Reported(trace) == [first] + Reported(trace[1..]);
      } else {
        assert forall k | 0 <= k < |trace[1..]| :: trace[1..][k] == trace[k + 1];
        ReportsAreOrdered(trace[1..], last);
        assert Reported(trace) == Reported(trace[1..]);
      }
    }
  }

  // ----- end to end

  /** The streamed task: analysis, retrieval, then `execute` with its reports. */
  function TaskOf(trace: Pipeline.Trace, o: Pipeline.Outcome, rest: string, message: Option<string>,
                  model: Option<string>): Stream.Work {
    Stream.Work([Stream.Analysis, Stream.Retrieval] + Reported(trace),
                match o
                case Denied(status, code) => Stream.Refused(status, code, rest)
                case Returned(_, _) => Stream.Completed(ResponseOf(o, rest, message, model)))
  }

  /** The task ends in a way that the client accepts, and reports its stages in order. */
  lemma {:induction false} TaskIsAcceptable(s: Pipeline.Setup, w: Pipeline.World, trace: Pipeline.Trace,
                                            o: Pipeline.Outcome, checks: Stream.Checks, rest: string,
                                            message: Option<string>, model: Option<string>)
    requires Pipeline.Honest(s, w, trace, o)
    requires o.Denied? ==> 400 <= o.status <= 599
    requires o.Returned? ==>
             checks.validResponse(ResponseOf(o, rest, message, model).base) && Legible(o.result.statements)
    ensures var work := TaskOf(trace, o, rest, message, model);
            Stream.Acceptable(checks, work.end) && Stream.Ordered(work.stages, -1)
  {
    var work := TaskOf(trace, o, rest, message, model);
    if o.Returned? {
      ClientAcceptsHonest(s, w, trace, o, checks, rest, message, model);
    }
    TaskIsOrdered(s, w, trace, o, rest, message, model);
  }

  lemma {:induction false} TaskIsOrdered(s: Pipeline.Setup, w: Pipeline.World, trace: Pipeline.Trace,
                                         o: Pipeline.Outcome, rest: string, message: Option<string>,
                                         model: Option<string>)
    requires Pipeline.Safe(s, w, trace)
    ensures Stream.Ordered(TaskOf(trace, o, rest, message, model).stages, -1)
  {
    var stages := TaskOf(trace, o, rest, message, model).stages;
    ReportsAreOrdered(trace, 1);
    assert stages[1..] == [Stream.Retrieval] + Reported(trace) && stages[1..][1..] == Reported(trace);
  }

  /** Whatever the repository, the graph and the model did, and however the network cut the
      bytes: the browser reads the stages in order and ends with exactly the outcome of
      `execute`; if that is an answer, each of its quotes is in evidence that the last
      authorisation read confirmed. */
  lemma {:induction false} WhatIsReadWasAuthorised(s: Pipeline.Setup, w: Pipeline.World, trace: Pipeline.Trace,
                                                   o: Pipeline.Outcome, checks: Stream.Checks, codec: Stream.Codec,
                                                   rest: string, message: Option<string>, model: Option<string>,
                                                   items: seq<Wire.Item>, e: Wire.LineEnd, chunks: seq<string>)
    requires Pipeline.Honest(s, w, trace, o)
    requires o.Denied? ==> 400 <= o.status <= 599
    requires o.Returned? ==>
             checks.validResponse(ResponseOf(o, rest, message, model).base) && Legible(o.result.statements)
    requires forall body :: codec.decode(codec.encode(body)) == Some(body)
    requires Stream.Messages(items)
          == Stream.Written(codec, Stream.ServerEvents(TaskOf(trace, o, rest, message, model)))
    requires forall item | item in items :: Wire.Sendable(item, Reader.MAX_FRAME_SIZE)
    requires Concat(chunks) == Wire.Write(items, e)
    ensures var (last, end) := Reader.ReadAll(Reader.MAX_FRAME_SIZE, Stream.Dispatcher(checks, codec),
                                              Reader.Fresh(Stream.START), chunks);
            && end == Reader.Stopped(if o.Denied? then Stream.Failed(o.status, o.code, rest)
                                     else Stream.Returned(ResponseOf(o, rest, message, model)))
            && last.notices == Stream.ExpectedNotices(TaskOf(trace, o, rest, message, model))
    ensures o.Returned? && o.result.status == Answered ==>
      && trace != [] && Pipeline.Backed(s, w, |trace| - 1, o.retrieval.evidence)
      && forall st, c | st in o.result.statements && c in st.citations :: Pipeline.Quoted(o.retrieval.evidence, c)
  {
    var work := TaskOf(trace, o, rest, message, model);
    TaskIsAcceptable(s, w, trace, o, checks, rest, message, model);
    Stream.EndToEnd(checks, codec, work, items, e, chunks);
    if o.Returned? && o.result.status == Answered {
      Pipeline.PublishedQuotesAreEvidence(s, w, trace, o);
    }
  }
}
