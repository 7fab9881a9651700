/** The answer protocol on both sides of an event stream: `answer_events` turns one
    reviewed response into progress, cumulative `answer` and `done` events
    (`src/zhiqing_rag/query_answering/streaming.py`), and the browser replays the events
    through a guarded state machine (`dispatch` in `frontend/src/services/query.ts`).
    JSON is an abstract value compared structurally. */
module AnswerStream {
  import opened Answers
  import opened EventStream
  import opened EventWire
  import opened Text

  // ----- the response

  datatype Stage = Analysis | Retrieval | Generation | Review

  datatype Answer = Answer(status: Status, statements: seq<Statement>, message: Option<string>, codes: seq<string>,
                           model: Option<string>, review: ReviewStatus, repairs: nat)

  datatype Source = Source(citationId: string, content: string)

  /** Everything in a response besides its answer: the evidence, the text that the
      structured result reads as, and the rest. */
  datatype Base = Base(evidence: seq<Source>, structuredText: Option<string>, rest: string)

  datatype Response = Response(base: Base, answer: Answer) {
    /** The response as its first `count` statements. */
    function Upto(count: nat): Response
      requires count <= |answer.statements|
    {
      this.(answer := answer.(statements := answer.statements[..count]))
    }

    /** What all events of one answer must share: the response without its statements. */
    function Key(): Response {
      this.(answer := answer.(statements := []))
    }
  }

  datatype Json =
    | ResponseBody(response: Response)
    | StageBody(stage: string)
    | ErrorBody(status: int, code: string, message: string)
    | OtherBody(text: string)

  datatype Codec = Codec(encode: Json -> string, decode: string -> Option<Json>)

  /** The check of the client that this model does not look into. */
  datatype Checks = Checks(validResponse: Base -> bool)

  /** White space for `trim` in JavaScript: unlike on the server the zero width no-break space
      belongs to it, and neither U+0085 nor the separators U+001C to U+001F do. */
  predicate ClientSpace(c: char) {
    || '\t' <= c <= '\r' || c == ' ' || c == '\U{A0}' || c == '\U{FEFF}' || c == '\U{1680}'
         || '\U{2000}' <= c <= '\U{200A}'
    || c == '\U{2028}' || c == '\U{2029}' || c == '\U{202F}' || c == '\U{205F}' || c == '\U{3000}'
  }

  predicate Blank(text: string) {
    Trim(text, ClientSpace) == ""
  }

  // ----- the client

  function SourceOf(evidence: seq<Source>, citationId: string): Option<string> {
    if evidence == [] then None
    else
      var last := evidence[|evidence| - 1];
      if last.citationId == citationId then Some(last.content) else SourceOf(evidence[..|evidence| - 1], citationId)
  }

  predicate ValidCitation(evidence: seq<Source>, c: Citation) {
    |c.quote| >= SHORTEST_QUOTE &&
    match SourceOf(evidence, c.citationId)
    case Some(content) => Contains(content, c.quote)
    case None => false
  }

  predicate ValidStatement(evidence: seq<Source>, s: Statement) {
    && !Blank(s.text)
    && 0 < |s.citations| <= MOST_CITATIONS
    && forall c | c in s.citations :: ValidCitation(evidence, c)
  }

  /** `validAnswer`: what the client insists on before it shows anything. */
  predicate ValidAnswer(r: Response) {
    && r.answer.repairs <= 1
    && |r.answer.statements| <= MOST_STATEMENTS
    && if r.answer.status == Structured then
         && r.answer.statements == [] && r.answer.review == Passed
         && r.base.structuredText.Some? && r.answer.message == r.base.structuredText
       else if r.answer.status != Answered then r.answer.statements == []
       else
         && r.answer.review == Passed && r.answer.statements != []
         && forall s | s in r.answer.statements :: ValidStatement(r.base.evidence, s)
  }

  predicate Valid(checks: Checks, r: Response) {
    checks.validResponse(r.base) && ValidAnswer(r)
  }

  datatype Notice = ProgressShown(stage: Stage) | AnswerShown(response: Response) | SessionCleared

  datatype Result = Returned(response: Response) | Invalid | Failed(status: int, code: string, message: string)

  /** The variables `dispatch` closes over, and the callbacks made so far. */
  datatype Client = Client(notices: seq<Notice>, metadata: Option<Response>, statements: seq<Statement>, count: nat,
                           lastStage: int, structured: bool)

  const START := Client([], None, [], 0, -1, false)

  const STAGES: seq<Stage> := [Analysis, Retrieval, Generation, Review]

  function Name(stage: Stage): string {
    match stage
    case Analysis => "analysis"
    case Retrieval => "retrieval"
    case Generation => "generation"
    case Review => "review"
  }

  function Rank(stage: Stage): (n: nat)
    ensures n < 4 && STAGES[n] == stage
  {
    match stage
    case Analysis => 0
    case Retrieval => 1
    case Generation => 2
    case Review => 3
  }

  function IndexOf(name: string): (index: int)
    ensures -1 <= index < 4 && (index >= 0 ==> Name(STAGES[index]) == name)
    ensures forall stage :: Name(stage) == name ==> index == Rank(stage)
  {
    if name == "analysis" then 0
    else if name == "retrieval" then 1
    else if name == "generation" then 2
    else if name == "review" then 3
    else -1
  }

  function Join(lines: seq<string>): string {
    if lines == [] then "" else if |lines| == 1 then lines[0] else lines[0] + "\n" + Join(lines[1..])
  }

  /** `dispatch`: one frame of the stream. */
  function Dispatch(checks: Checks, codec: Codec, client: Client, frame: Frame): Verdict<Client, Result> {
    if frame.data == [] then Continue(client)
    else
      match codec.decode(Join(frame.data))
      case None => Stop(client, Invalid)
      case Some(body) => Accept(checks, client, frame.event, body)
  }

  function Accept(checks: Checks, client: Client, event: string, body: Json): Verdict<Client, Result> {
    if event == "error" then
      if !body.ErrorBody? || body.status < 400 || body.status > 599 then Stop(client, Invalid)
      else
        var told := if body.status == 401 then client.(notices := client.notices + [SessionCleared]) else client;
        Stop(told, Failed(body.status, body.code, body.message))
    else if event == "progress" then
      if !body.StageBody? then Stop(client, Invalid)
      else
        var index := IndexOf(body.stage);
        if index <= client.lastStage || index < 0 || client.count > 0 || client.structured then Stop(client, Invalid)
        else Continue(client.(lastStage := index, notices := client.notices + [ProgressShown(STAGES[index])]))
    else if event != "answer" && event != "done" then Stop(client, Invalid)
    else if !body.ResponseBody? || !Valid(checks, body.response) then Stop(client, Invalid)
    else AcceptResponse(client, event == "done", body.response)
  }

  function AcceptResponse(client: Client, done: bool, r: Response): Verdict<Client, Result> {
    if client.metadata.Some? && client.metadata != Some(r.Key()) then Stop(client, Invalid)
    else if r.answer.status == Structured then
      if client.count > 0 || (!done && client.structured) then Stop(client, Invalid)
      else if done then Stop(client, Returned(r))
      else Continue(client.(metadata := Some(r.Key()), structured := true, notices :=
          client.notices + [AnswerShown(r)]))
    else if done then
      if r.answer.status == Answered && (client.count == 0 || r.answer.statements != client.statements)
          then Stop(client, Invalid)
      else if r.answer.status != Answered && client.count > 0 then Stop(client, Invalid)
      else Stop(client, Returned(r))
    else if r.answer.status != Answered || |r.answer.statements| != client.count + 1
         || (client.count > 0 && r.answer.statements[..client.count] != client.statements) then Stop(client, Invalid)
    else
      Continue(client.(metadata := Some(r.Key()), statements := r.answer.statements, count := client.count + 1,
                       notices := client.notices + [AnswerShown(r)]))
  }

  function Dispatcher(checks: Checks, codec: Codec): (Client, Frame) -> Verdict<Client, Result> {
    (client, frame) => Dispatch(checks, codec, client, frame)
  }

  // ----- the server

  datatype Event = Event(name: string, body: Json)

  datatype WorkEnd = Completed(response: Response) | Refused(status: int, code: string, message: string) | Crashed

  /** What the answering task does: it reports stages, then completes or fails. */
  datatype Work = Work(stages: seq<Stage>, end: WorkEnd)

  datatype Queued = QueuedProgress(stage: Stage) | QueuedResult(response: Response) | QueuedError(body: Json)

  const UNAVAILABLE := ErrorBody(503, "ANSWER_STREAM_UNAVAILABLE", "回答暂不可用，请稍后重试。")

  function LastItem(end: WorkEnd): Queued {
    match end
    case Completed(response) => QueuedResult(response)
    case Refused(status, code, message) => QueuedError(ErrorBody(status, code, message))
    case Crashed => QueuedError(UNAVAILABLE)
  }

  function Queue(stages: seq<Stage>, end: WorkEnd): seq<Queued> {
    if stages == [] then [LastItem(end)] else [QueuedProgress(stages[0])] + Queue(stages[1..], end)
  }

  /** The responses shown before the final one: cumulative, one statement at a time. */
  function Partials(r: Response, count: nat): seq<Response>
    requires count <= |r.answer.statements|
    decreases |r.answer.statements| - count
  {
    if count == |r.answer.statements| then [] else [r.Upto(count + 1)] + Partials(r, count + 1)
  }

  function Previews(r: Response): seq<Response> {
    (if r.answer.status == Structured then [r] else []) + Partials(r, 0)
  }

  function AnswerEventsOf(shown: seq<Response>): seq<Event> {
    if shown == [] then [] else [Event("answer", ResponseBody(shown[0]))] + AnswerEventsOf(shown[1..])
  }

  /** The events for one queued item; every item but a progress report is the last. */
  function EventsFor(item: Queued): seq<Event> {
    match item
    case QueuedProgress(stage) => [Event("progress", StageBody(Name(stage)))]
    case QueuedError(body) => [Event("error", body)]
    case QueuedResult(r) => AnswerEventsOf(Previews(r)) + [Event("done", ResponseBody(r))]
  }

  function EventsOf(items: seq<Queued>): seq<Event> {
    if items == [] then [] else EventsFor(items[0]) + EventsOf(items[1..])
  }

  /** Everything `answer_events` sends for a piece of work. */
  function ServerEvents(work: Work): seq<Event> {
    EventsOf(Queue(work.stages, work.end))
  }

  lemma QueueOrder(stages: seq<Stage>, end: WorkEnd)
    ensures var q := Queue(stages, end);
            |q| == |stages| + 1 && !q[|stages|].QueuedProgress? && forall i | 0 <= i < |stages| ::
                q[i] == QueuedProgress(stages[i])
  {
  }

  /** Sending a result: cumulative previews, then `done`. */
  method SendResult(r: Response) returns (events: seq<Event>)
    ensures events == EventsFor(QueuedResult(r))
  {
    events := if r.answer.status == Structured then [Event("answer", ResponseBody(r))] else [];
    PreviewsBegin(r);
    for count := 0 to |r.answer.statements|
      invariant events + AnswerEventsOf(Partials(r, count)) == AnswerEventsOf(Previews(r))
    {
      PartSent(events, r, count);
      events := events + [Event("answer", ResponseBody(r.Upto(count + 1)))];
    }
    assert events + [] == events;
    events := events + [Event("done", ResponseBody(r))];
  }

  lemma {:induction false} PreviewsBegin(r: Response)
    ensures (if r.answer.status == Structured then [Event("answer", ResponseBody(r))] else [])
            + AnswerEventsOf(Partials(r, 0))
         == AnswerEventsOf(Previews(r))
  {
    if r.answer.status == Structured {
      assert Previews(r)[1..] == Partials(r, 0);
    } else {
      assert Previews(r) == Partials(r, 0);
    }
  }

  lemma {:induction false} PartSent(events: seq<Event>, r: Response, count: nat)
    requires count < |r.answer.statements|
    ensures events + AnswerEventsOf(Partials(r, count))
         == (events + [Event("answer", ResponseBody(r.Upto(count + 1)))]) + AnswerEventsOf(Partials(r, count + 1))
  {
    var part, others := r.Upto(count + 1), Partials(r, count + 1);
    assert ([part] + others)[1..] == others;
    EventsRegroup(events, [Event("answer", ResponseBody(part))], AnswerEventsOf(others));
  }

  lemma {:induction false} EventsRegroup(a: seq<Event>, b: seq<Event>, c: seq<Event>)
    ensures a + (b + c) == (a + b) + c
  {
  }

  /** The events of what is left are those of the next item and of what is left after it. */
  lemma {:induction false} TakeNext(items: seq<Queued>, k: nat)
    requires k < |items|
    ensures EventsOf(items[k..]) == EventsFor(items[k]) + EventsOf(items[k + 1..])
    ensures k + 1 == |items| ==> EventsOf(items[k + 1..]) == []
  {
    assert items[k..][1..] == items[k + 1..];
  }

  method SendItem(item: Queued) returns (events: seq<Event>)
    ensures events == EventsFor(item)
  {
    match item {
      case QueuedResult(response) => events := SendResult(response);
      case QueuedProgress(stage) => events := [Event("progress", StageBody(Name(stage)))];
      case QueuedError(body) => events := [Event("error", body)];
    }
  }

  /** `answer_events`: the task puts items into a queue of one place while the generator
      takes them out and yields events. Whatever order the scheduler picks, the same
      events are sent. */
  method AnswerEvents(work: Work) returns (events: seq<Event>)
    ensures events == ServerEvents(work)
  {
    QueueOrder(work.stages, work.end);
    var produced := Queue(work.stages, work.end);
    var put, queue: seq<Queued> := 0, [];
    ghost var taken := 0;
    events := [];
    var open := true;
    while open
      invariant 0 <= taken <= put <= |produced| && put <= taken + 1
      invariant queue == if taken < put then [produced[taken]] else []
      invariant open ==> taken < |produced| && events + EventsOf(produced[taken..]) == ServerEvents(work)
      invariant !open ==> events == ServerEvents(work)
      decreases open, 2 * (|produced| - put) + |queue|
    {
      if
      case |queue| < 1 =>
        queue, put := queue + [produced[put]], put + 1;
      case queue != [] =>
        var item := queue[0];
        TakeNext(produced, taken);
        queue := queue[1..];
        var sent := SendItem(item);
        EventsRegroup(events, sent, EventsOf(produced[taken + 1..]));
        taken := taken + 1;
        events := events + sent;
        open := item.QueuedProgress?;
    }
  }

  // ----- both together

  /** The receiver run on events instead of frames. */
  function Replay(checks: Checks, client: Client, events: seq<Event>): (Client, End<Result>)
    decreases |events|
  {
    if events == [] then (client, Interrupted)
    else
      match Accept(checks, client, events[0].name, events[0].body)
      case Continue(next) => Replay(checks, next, events[1..])
      case Stop(last, result) => (last, Stopped(result))
  }

  /** No answer has arrived yet. */
  predicate Waiting(client: Client) {
    client.count == 0 && client.statements == [] && client.metadata == None && !client.structured
  }

  predicate Ordered(stages: seq<Stage>, last: int) {
    stages == [] || (last < Rank(stages[0]) && Ordered(stages[1..], Rank(stages[0])))
  }

  function ProgressNotices(stages: seq<Stage>): seq<Notice> {
    if stages == [] then [] else [ProgressShown(stages[0])] + ProgressNotices(stages[1..])
  }

  function AnswerNotices(shown: seq<Response>): seq<Notice> {
    if shown == [] then [] else [AnswerShown(shown[0])] + AnswerNotices(shown[1..])
  }

  /** What the client should report for a piece of work. */
  function Expected(end: WorkEnd): Result {
    match end
    case Completed(response) => Returned(response)
    case Refused(status, code, message) => Failed(status, code, message)
    case Crashed => Failed(UNAVAILABLE.status, UNAVAILABLE.code, UNAVAILABLE.message)
  }

  function ExpectedNotices(work: Work): seq<Notice> {
    ProgressNotices(work.stages) +
    match work.end
    case Completed(response) => AnswerNotices(Previews(response))
    case Refused(status, _, _) => if status == 401 then [SessionCleared] else []
    case Crashed => []
  }

  predicate Acceptable(checks: Checks, end: WorkEnd) {
    match end
    case Completed(response) => Valid(checks, response)
    case Refused(status, _, _) => 400 <= status <= 599
    case Crashed => true
  }

  /** Every response a client accepts stays acceptable when cut to its first statements. */
  lemma {:induction false} PrefixValid(checks: Checks, r: Response, count: nat)
    requires Valid(checks, r) && r.answer.status == Answered && 1 <= count <= |r.answer.statements|
    ensures Valid(checks, r.Upto(count)) && r.Upto(count).Key() == r.Key()
  {
  }

  /** The client once it has shown one part more. */
  function WithPart(client: Client, r: Response, count: nat): Client
    requires count < |r.answer.statements|
  {
    var part := r.Upto(count + 1);
    client.(notices := client.notices + [AnswerShown(part)], metadata := Some(r.Key()),
            statements := part.answer.statements, count := count + 1)
  }

  /** The client shows the next part and is ready for the one after it. */
  lemma {:induction false} PartIsAccepted(checks: Checks, client: Client, r: Response, count: nat)
    requires Valid(checks, r) && r.answer.status == Answered && count < |r.answer.statements|
    requires client.count == count && client.statements == r.answer.statements[..count]
    requires client.metadata == (if count == 0 then None else Some(r.Key()))
    ensures Accept(checks, client, "answer", ResponseBody(r.Upto(count + 1))) == Continue(WithPart(client, r, count))
  {
    PrefixValid(checks, r, count + 1);
    assert r.Upto(count + 1).answer.statements[..count] == r.answer.statements[..count];
  }


  /** Replaying the events returns the response, having reported so much. */
  predicate Returns(checks: Checks, client: Client, events: seq<Event>, r: Response, notices: seq<Notice>) {
    var (last, end) := Replay(checks, client, events);
    end == Stopped(Returned(r)) && last.notices == notices
  }

  lemma {:induction false} ReturnsLater(checks: Checks, client: Client, event: Event, next: Client, rest: seq<Event>,
                                        r: Response, notices: seq<Notice>)
    requires Accept(checks, client, event.name, event.body) == Continue(next)
    requires Returns(checks, next, rest, r, notices)
    ensures Returns(checks, client, [event] + rest, r, notices)
  {
    assert ([event] + rest)[1..] == rest;
  }

  lemma {:induction false} DoneReplays(checks: Checks, client: Client, r: Response)
    requires Valid(checks, r) && r.answer.status == Answered && client.metadata == Some(r.Key())
    requires client.count > 0 && client.statements == r.answer.statements
    ensures Replay(checks, client, [Event("done", ResponseBody(r))]) == (client, Stopped(Returned(r)))
  {
  }

  /** The events from here on are the next part's and those of the parts after it. */
  lemma {:induction false} PartsGoOn(r: Response, count: nat)
    requires count < |r.answer.statements|
    ensures AnswerEventsOf(Partials(r, count)) + [Event("done", ResponseBody(r))]
         == [Event("answer", ResponseBody(r.Upto(count + 1)))]
            + (AnswerEventsOf(Partials(r, count + 1)) + [Event("done", ResponseBody(r))])
    ensures AnswerNotices(Partials(r, count)) == [AnswerShown(r.Upto(count + 1))]
            + AnswerNotices(Partials(r, count + 1))
  {
    var part, others := r.Upto(count + 1), Partials(r, count + 1);
    assert Partials(r, count) == [part] + others && ([part] + others)[1..] == others;
  }

  lemma {:induction false} NothingLeft(r: Response, notices: seq<Notice>)
    ensures var parts := Partials(r, |r.answer.statements|);
            && AnswerEventsOf(parts) + [Event("done", ResponseBody(r))] == [Event("done", ResponseBody(r))]
            && notices + AnswerNotices(parts) == notices
  {
  }

  lemma {:induction false} StatementsReplay(checks: Checks, client: Client, r: Response, count: nat)
    requires Valid(checks, r) && r.answer.status == Answered && count <= |r.answer.statements|
    requires client.count == count && client.statements == r.answer.statements[..count]
    requires client.metadata == (if count == 0 then None else Some(r.Key()))
    ensures Returns(checks, client, AnswerEventsOf(Partials(r, count)) + [Event("done", ResponseBody(r))], r,
                    client.notices + AnswerNotices(Partials(r, count)))
    decreases |r.answer.statements| - count
  {
    var done := [Event("done", ResponseBody(r))];
    if count == |r.answer.statements| {
      assert r.answer.statements[..count] == r.answer.statements;
      DoneReplays(checks, client, r);
      NothingLeft(r, client.notices);
    } else {
      var next, event := WithPart(client, r, count), Event("answer", ResponseBody(r.Upto(count + 1)));
      var rest := AnswerEventsOf(Partials(r, count + 1)) + done;
      PartIsAccepted(checks, client, r, count);
      PartsGoOn(r, count);
      StatementsReplay(checks, next, r, count + 1);
      NoticesRegroup(client.notices, [AnswerShown(r.Upto(count + 1))], AnswerNotices(Partials(r, count + 1)));
      ReturnsLater(checks, client, event, next, rest, r, next.notices + AnswerNotices(Partials(r, count + 1)));
    }
  }

  lemma {:induction false} NoticesRegroup(a: seq<Notice>, b: seq<Notice>, c: seq<Notice>)
    ensures (a + b) + c == a + (b + c)
  {
  }

  lemma {:induction false} ResultReplays(checks: Checks, client: Client, r: Response)
    requires Valid(checks, r)
    requires Waiting(client)
    ensures var (last, end) := Replay(checks, client, EventsFor(QueuedResult(r)));
            end == Stopped(Returned(r)) && last.notices == client.notices + AnswerNotices(Previews(r))
  {
    var done := Event("done", ResponseBody(r));
    if r.answer.status == Structured {
      assert Partials(r, 0) == [] && Previews(r) == [r];
      assert AnswerEventsOf([r]) == [Event("answer", ResponseBody(r))];
      assert EventsFor(QueuedResult(r))[1..] == [done];
    } else {
      assert Previews(r) == Partials(r, 0);
      if r.answer.status == Answered {
        StatementsReplay(checks, client, r, 0);
      } else {
        assert EventsFor(QueuedResult(r)) == [done];
      }
    }
  }

  lemma {:induction false} LastItemReplays(checks: Checks, client: Client, end: WorkEnd)
    requires Acceptable(checks, end)
    requires Waiting(client)
    ensures var (last, result) := Replay(checks, client, EventsFor(LastItem(end)));
            result == Stopped(Expected(end)) && last.notices == client.notices + ExpectedNotices(Work([], end))
  {
    var told := ExpectedNotices(Work([], end));
    match end
    case Completed(response) =>
      ResultReplays(checks, client, response);
      assert told == AnswerNotices(Previews(response));
    case _ =>
      assert client.notices + told == if told == [] then client.notices else client.notices + [SessionCleared];
  }

  lemma {:induction false} ProgressStep(checks: Checks, client: Client, stage: Stage, rest: seq<Event>)
    requires Waiting(client) && client.lastStage < Rank(stage)
    ensures var next := client.(lastStage := Rank(stage), notices := client.notices + [ProgressShown(stage)]);
            Replay(checks, client, [Event("progress", StageBody(Name(stage)))] + rest) == Replay(checks, next, rest)
  {
    var event := Event("progress", StageBody(Name(stage)));
    assert ([event] + rest)[1..] == rest;
    assert IndexOf(Name(stage)) == Rank(stage);
  }

  lemma {:induction false} ExpectedNoticesStep(before: seq<Notice>, stages: seq<Stage>, end: WorkEnd)
    requires stages != []
    ensures before + ExpectedNotices(Work(stages, end)) == before + [ProgressShown(stages[0])]
            + ExpectedNotices(Work(stages[1..], end))
  {
  }

  lemma {:induction false} EventsOfStages(stages: seq<Stage>, end: WorkEnd)
    ensures EventsOf(Queue(stages, end)) ==
            if stages == [] then EventsFor(LastItem(end))
            else [Event("progress", StageBody(Name(stages[0])))] + EventsOf(Queue(stages[1..], end))
  {
    var items := Queue(stages, end);
    if stages == [] {
      assert EventsOf(items[1..]) == [];
    } else {
      assert items[1..] == Queue(stages[1..], end);
    }
  }

  lemma {:induction false} EventsReplay(checks: Checks, client: Client, stages: seq<Stage>, end: WorkEnd)
    requires Acceptable(checks, end) && Ordered(stages, client.lastStage) && Waiting(client)
    ensures var (last, result) := Replay(checks, client, EventsOf(Queue(stages, end)));
            result == Stopped(Expected(end)) && last.notices == client.notices + ExpectedNotices(Work(stages, end))
    decreases |stages|
  {
    EventsOfStages(stages, end);
    if stages == [] {
      LastItemReplays(checks, client, end);
    } else {
      var next := client.(lastStage := Rank(stages[0]), notices := client.notices + [ProgressShown(stages[0])]);
      ProgressStep(checks, client, stages[0], EventsOf(Queue(stages[1..], end)));
      EventsReplay(checks, next, stages[1..], end);
      ExpectedNoticesStep(client.notices, stages, end);
    }
  }

  /** Every sequence of events the server sends is accepted: the client returns exactly
      the response (or raises exactly the error), after showing the stages and then the
      statements one by one. */
  lemma {:induction false} Composition(checks: Checks, work: Work)
    requires Acceptable(checks, work.end) && Ordered(work.stages, -1)
    ensures var (last, end) := Replay(checks, START, ServerEvents(work));
            end == Stopped(Expected(work.end)) && last.notices == ExpectedNotices(work)
  {
    EventsReplay(checks, START, work.stages, work.end);
    assert START.notices + ExpectedNotices(work) == ExpectedNotices(work);
  }

  // ----- what any accepted sequence showed

  function AnswersShown(notices: seq<Notice>): seq<Response> {
    if notices == [] then []
    else
      var last := notices[|notices| - 1];
      AnswersShown(notices[..|notices| - 1]) + (if last.AnswerShown? then [last.response] else [])
  }

  /** `shown[k]` is `r` cut to its first `k + 1` statements. */
  predicate GrowingPrefixes(shown: seq<Response>, r: Response) {
    |shown| == |r.answer.statements| && forall k | 0 <= k < |shown| :: shown[k] == r.Upto(k + 1)
  }

  /** Progress is reported in increasing order and never after an answer. */
  predicate Disciplined(notices: seq<Notice>) {
    forall i, j | 0 <= i < j < |notices| && notices[j].ProgressShown? ::
      notices[i].ProgressShown? && Rank(notices[i].stage) < Rank(notices[j].stage)
  }

  /** Progress reports so far are in order, below the last stage, and before any answer. */
  predicate Paced(client: Client) {
    && Disciplined(client.notices)
    && (forall i | 0 <= i < |client.notices| && client.notices[i].ProgressShown? ::
         Rank(client.notices[i].stage) <= client.lastStage)
    && (client.count == 0 && !client.structured ==> forall i | 0 <= i < |client.notices| ::
         client.notices[i].ProgressShown?)
  }

  /** The answers shown so far are the received statements growing one by one. */
  predicate Faithful(client: Client) {
    var shown, key := AnswersShown(client.notices), client.metadata;
    if client.structured then
      && client.count == 0 && |shown| == 1 && key == Some(shown[0])
      && shown[0].answer.status == Structured && shown[0].answer.statements == []
    else if client.count == 0 then shown == [] && key == None
    else
      && key.Some? && key.value.answer.statements == [] && key.value.answer.status == Answered
      && |client.statements| == client.count
      && GrowingPrefixes(shown, Received(client))
  }

  /** The response received so far, put together again. */
  function Received(client: Client): Response
    requires client.metadata.Some?
  {
    client.metadata.value.(answer := client.metadata.value.answer.(statements := client.statements))
  }

  lemma {:induction false} AnswersShownAppend(notices: seq<Notice>, n: Notice)
    ensures AnswersShown(notices + [n]) == AnswersShown(notices) + (if n.AnswerShown? then [n.response] else [])
  {
    assert (notices + [n])[..|notices|] == notices;
  }

  /** The body an accepted event carries, as a notice. */
  lemma {:induction false} AcceptTells(checks: Checks, client: Client, name: string, body: Json)
    requires Accept(checks, client, name, body).Continue?
    ensures var next := Accept(checks, client, name, body).client;
            && |next.notices| == |client.notices| + 1 && next.notices[..|client.notices|] == client.notices
            && var told := next.notices[|client.notices|];
               if name == "progress" then
                 told.ProgressShown? && client.lastStage < Rank(told.stage) == next.lastStage
                     && client.count == 0 && !client.structured
               else told.AnswerShown? && (next.count > 0 || next.structured) && next.lastStage == client.lastStage
  {
  }

  lemma {:induction false} AcceptKeepsPace(checks: Checks, client: Client, name: string, body: Json)
    requires Paced(client) && Accept(checks, client, name, body).Continue?
    ensures Paced(Accept(checks, client, name, body).client)
  {
    AcceptTells(checks, client, name, body);
    var next := Accept(checks, client, name, body).client;
    assert forall i | 0 <= i < |client.notices| :: next.notices[i] == next.notices[..|client.notices|][i];
  }

  lemma {:induction false} GrowOne(shown: seq<Response>, before: Response, r: Response)
    requires GrowingPrefixes(shown, before) && before.Key() == r.Key()
    requires |r.answer.statements| == |shown| + 1 && r.answer.statements[..|shown|] == before.answer.statements
    ensures GrowingPrefixes(shown + [r], r)
  {
    var grown := shown + [r];
    assert r.answer.statements[..|shown| + 1] == r.answer.statements;
    forall k | 0 <= k < |shown|
      ensures grown[k] == r.Upto(k + 1)
    {
      assert before.answer.statements[..k + 1] == r.answer.statements[..k + 1];
    }
  }

  lemma {:induction false} AcceptKeepsFaithful(checks: Checks, client: Client, name: string, body: Json)
    requires Faithful(client) && Accept(checks, client, name, body).Continue?
    ensures Faithful(Accept(checks, client, name, body).client)
  {
    var next := Accept(checks, client, name, body).client;
    AnswersShownAppend(client.notices, next.notices[|client.notices|]);
    if name != "progress" && body.response.answer.status == Structured {
      assert body.response.Key() == body.response;
    } else if name != "progress" {
      var r, shown := body.response, AnswersShown(client.notices);
      assert Received(next) == r;
      if client.count == 0 {
        assert shown == [] && r.answer.statements[..1] == r.answer.statements;
      } else {
        assert client.metadata == Some(r.Key());
        GrowOne(shown, Received(client), r);
      }
    }
  }

  predicate ShownMatches(shown: seq<Response>, r: Response) {
    if r.answer.status == Answered then GrowingPrefixes(shown, r)
    else if r.answer.status == Structured then shown == [] || shown == [r]
    else shown == []
  }

  lemma {:induction false} ReturnMatches(checks: Checks, client: Client, name: string, body: Json)
    requires Faithful(client)
    requires var v := Accept(checks, client, name, body); v.Stop? && v.result.Returned?
    ensures var v := Accept(checks, client, name, body);
            Valid(checks, v.result.response)
                && ShownMatches(AnswersShown(client.notices), v.result.response) && v.client == client
  {
    var r, shown := body.response, AnswersShown(client.notices);
    if client.structured {
      assert shown[0] == r.Key() && r.answer.statements == [];
      assert r == r.Key();
      assert shown == [r];
    } else if client.count > 0 {
      assert Received(client) == r;
    }
  }

  /** In any accepted sequence of events, whoever sent it, what was shown is the returned
      response growing statement by statement, with the same metadata throughout. */
  lemma {:induction false} ShownIsReturned(checks: Checks, client: Client, events: seq<Event>)
    requires Paced(client) && Faithful(client)
    ensures var (last, end) := Replay(checks, client, events);
            end.Stopped? && end.result.Returned? ==>
              && Valid(checks, end.result.response) && Disciplined(last.notices)
              && ShownMatches(AnswersShown(last.notices), end.result.response)
    decreases |events|
  {
    if events != [] {
      var v := Accept(checks, client, events[0].name, events[0].body);
      if v.Continue? {
        AcceptKeepsPace(checks, client, events[0].name, events[0].body);
        AcceptKeepsFaithful(checks, client, events[0].name, events[0].body);
        ShownIsReturned(checks, v.client, events[1..]);
      } else if v.result.Returned? {
        ReturnMatches(checks, client, events[0].name, events[0].body);
      }
    }
  }

  // ----- end to end

  /** The event as the server writes it. */
  function Written(codec: Codec, events: seq<Event>): seq<Item> {
    if events == [] then [] else [Message(events[0].name, [codec.encode(events[0].body)])] + Written(codec, events[1..])
  }

  /** The messages among the items; the rest are heartbeats. */
  function Messages(items: seq<Item>): seq<Item> {
    if items == [] then [] else (if items[0].Message? then [items[0]] else []) + Messages(items[1..])
  }

  lemma {:induction false} HeartbeatsAreSilent(checks: Checks, codec: Codec, client: Client, items: seq<Item>)
    ensures Deliver(Dispatcher(checks, codec), client, items) == Deliver(Dispatcher(checks, codec),
            client, Messages(items))
    decreases |items|
  {
    if items != [] {
      var v := Dispatch(checks, codec, client, FrameOf(items[0]));
      if items[0].Message? {
        assert Messages(items)[0] == items[0] && Messages(items)[1..] == Messages(items[1..]);
      } else {
        assert Messages(items) == Messages(items[1..]);
        assert v == Continue(client);
      }
      HeartbeatsAreSilent(checks, codec, v.client, items[1..]);
    }
  }

  lemma {:induction false} WrittenReplays(checks: Checks, codec: Codec, client: Client, events: seq<Event>)
    requires forall body :: codec.decode(codec.encode(body)) == Some(body)
    ensures Deliver(Dispatcher(checks, codec), client, Written(codec, events)) == Replay(checks, client, events)
    decreases |events|
  {
    if events != [] {
      var item := Written(codec, events)[0];
      assert Join(FrameOf(item).data) == codec.encode(events[0].body);
      assert Written(codec, events)[1..] == Written(codec, events[1..]);
      var v := Accept(checks, client, events[0].name, events[0].body);
      assert Dispatch(checks, codec, client, FrameOf(item)) == v;
      WrittenReplays(checks, codec, v.client, events[1..]);
    }
  }

  /** From the server's task to the caller in the browser: with heartbeats anywhere
      between events, with any line end, cut by the network in any way, the caller gets
      exactly the reviewed response (or exactly the error) and saw it grow. */
  lemma {:induction false} EndToEnd(checks: Checks, codec: Codec, work: Work, items: seq<Item>,
                                    e: LineEnd, chunks: seq<string>)
    requires Acceptable(checks, work.end) && Ordered(work.stages, -1)
    requires forall body :: codec.decode(codec.encode(body)) == Some(body)
    requires Messages(items) == Written(codec, ServerEvents(work))
    requires forall item | item in items :: Sendable(item, MAX_FRAME_SIZE)
    requires Concat(chunks) == Write(items, e)
    ensures var (last, end) := ReadAll(MAX_FRAME_SIZE, Dispatcher(checks, codec), Fresh(START), chunks);
            end == Stopped(Expected(work.end)) && last.notices == ExpectedNotices(work)
  {
    WireDelivers(MAX_FRAME_SIZE, Dispatcher(checks, codec), START, items, e, chunks);
    HeartbeatsAreSilent(checks, codec, START, items);
    WrittenReplays(checks, codec, START, ServerEvents(work));
    Composition(checks, work);
  }
}
