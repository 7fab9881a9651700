/** Every interleaving of logins, refreshes, logouts, cancellations and requests on one
    `AuthClient`: a run is any sequence of steps, each one block of one pending call, and
    the server, the cookie lock and the callers decide freely which block is next. */
module AuthRuns {
  import opened Text
  import opened AuthState

  // ----- pending calls and the record of a run

  /** What a call remembers: the epoch it saw, and how long the record was then. */
  datatype Ask = Ask(epoch: nat, since: nat)

  /** A refresh waits for the cookie lock, then for the server, then for its `finally`. */
  datatype RefreshCall = WaitingForLock(ask: Ask) | InFlight(ask: Ask) | Settling(ending: Ending) |
      Settled(ending: Ending)

  datatype Phase = AwaitingResponse | AwaitingBody | AwaitingRefresh(refresh: nat) | Over

  /** A request: the signal it listens to, how long the record was when it started, the
      token it last sent and how often it has sent. */
  datatype RequestCall = RequestCall(controller: nat, since: nat, token: string, sent: nat,
      callerAborted: bool, phase: Phase)

  datatype Entry =
    | SentWith(request: nat, since: nat, token: string, current: Client)
    | Selected(ask: Ask)
    | Refreshed(ask: Ask, identity: Option<Identity>, before: Client)
    | ClearedByRequest(request: nat, since: nat)
    | ClearedByRefresh(ask: Ask)
    | ClearedByLogout(call: LogoutCall, before: Client)
    | ClearedFromOutside

  /** A logout remembers the session key it was sent under, and how long the record was then. */
  datatype LogoutCall = LogoutCall(session: nat, since: nat)

  type Record = seq<Entry>

  datatype World = World(client: Client, selects: map<nat, Ask>, refreshes: seq<RefreshCall>,
      logouts: map<nat, LogoutCall>,
                         requests: map<nat, RequestCall>, log: Record)

  const START := World(NEW_CLIENT, map[], [], map[], map[], [])

  datatype Step =
    | Cancel
    | Clear(notice: string)
    | CallSelect(id: nat)
    | AnswerSelect(id: nat, reply: Reply)
    | CallRefresh
    | GrantLock(refresh: nat)
    | AnswerRefresh(refresh: nat, reply: Reply)
    | SettleRefresh(refresh: nat)
    | CallLogout(id: nat)
    | AnswerLogout(id: nat, ok: bool)
    | CallRequest(id: nat, callerAborted: bool)
    | AbortCaller(id: nat)
    | AnswerRequest(id: nat, status: int)
    | FailRequest(id: nat)
    | AnswerBody(id: nat, expired: bool)
    | ResumeRequest(id: nat)

  // ----- one step; a step that is not enabled changes nothing

  function AskNow(w: World): Ask {
    Ask(w.client.epoch, |w.log|)
  }

  function SelectEntries(c: Client, ask: Ask, reply: Reply): Record {
    if SelectAnswered(c, ask.epoch, reply).1 == Fulfilled then [Selected(ask)] else []
  }

  function StepSelect(w: World, id: nat, reply: Reply): World {
    if id !in w.selects then w
    else
      var ask := w.selects[id];
      var (client, ending) := SelectAnswered(w.client, ask.epoch, reply);
      w.(client := client, selects := w.selects - {id}, log := w.log + SelectEntries(w.client, ask, reply))
  }

  /** A call to `refresh()`, from a page or from a request that waits for it. */
  function StartRefresh(w: World): World {
    if w.client.refreshing.Some? then w
    else w.(client := RefreshCalled(w.client, |w.refreshes|), refreshes := w.refreshes + [WaitingForLock(AskNow(w))])
  }

  function StepLock(w: World, id: nat): World {
    if id >= |w.refreshes| || !w.refreshes[id].WaitingForLock? then w
    else
      var ask := w.refreshes[id].ask;
      w.(refreshes := w.refreshes[id := if ask.epoch == w.client.epoch then InFlight(ask) else Settling(Aborted)])
  }

  function RefreshEntries(c: Client, ask: Ask, reply: Reply): Record {
    var (client, ending) := RefreshAnswered(c, ask.epoch, reply);
    if ending == Fulfilled then [Refreshed(ask, client.identity, c)] else if client != c
        then [ClearedByRefresh(ask)] else []
  }

  function StepRefresh(w: World, id: nat, reply: Reply): World {
    if id >= |w.refreshes| || !w.refreshes[id].InFlight? then w
    else
      var ask := w.refreshes[id].ask;
      var (client, ending) := RefreshAnswered(w.client, ask.epoch, reply);
      w.(client := client, refreshes := w.refreshes[id := Settling(ending)], log :=
          w.log + RefreshEntries(w.client, ask, reply))
  }

  function StepSettle(w: World, id: nat): World {
    if id >= |w.refreshes| || !w.refreshes[id].Settling? then w
    else w.(client := RefreshSettled(w.client, id), refreshes := w.refreshes[id := Settled(w.refreshes[id].ending)])
  }

  function WithRequest(w: World, id: nat, r: RequestCall): World {
    w.(requests := w.requests[id := r])
  }

  /** Carry out what a request decided, and record what it sent. */
  function Apply(w: World, id: nat, r: RequestCall, move: RequestMove): World {
    match move
    case Send(token) =>
      WithRequest(w.(log := w.log + [SentWith(id, r.since, token, w.client)]), id,
                  r.(token := token, sent := r.sent + 1, phase := AwaitingResponse))
    case AwaitBody => WithRequest(w, id, r.(phase := AwaitingBody))
    case AwaitRefresh => WithRequest(StartRefresh(w), id,
        r.(phase := AwaitingRefresh(StartRefresh(w).client.refreshing.GetOr(0))))
    case Return => WithRequest(w, id, r.(phase := Over))
    case Throw(_) => WithRequest(w, id, r.(phase := Over))
  }

  function StepCall(w: World, id: nat, callerAborted: bool): World {
    if id in w.requests then w
    else Apply(w, id, RequestCall(w.client.controller, |w.log|, "", 0, callerAborted, Over),
        RequestStarted(w.client, callerAborted))
  }

  function StepBody(w: World, id: nat, expired: bool): World {
    if id !in w.requests || w.requests[id].phase != AwaitingBody then w
    else
      var r := w.requests[id];
      var (client, move) := BodyArrived(w.client, r.controller, r.callerAborted, r.token, r.sent - 1, expired);
      Apply(w.(client := client, log := w.log + if client != w.client then [ClearedByRequest(id, r.since)]
          else []), id, r, move)
  }

  function StepResume(w: World, id: nat): World {
    if id !in w.requests || !w.requests[id].phase.AwaitingRefresh? then w
    else
      var r := w.requests[id];
      if r.phase.refresh >= |w.refreshes| || !w.refreshes[r.phase.refresh].Settled? then w
      else if w.refreshes[r.phase.refresh].ending != Fulfilled
          then Apply(w, id, r, Throw(w.refreshes[r.phase.refresh].ending))
      else Apply(w, id, r, Retry(w.client, r.controller, r.callerAborted))
  }

  function StepLogout(w: World, id: nat, ok: bool): World {
    if id !in w.logouts then w
    else
      w.(client := LogoutAnswered(w.client, ok), logouts := w.logouts - {id},
         log := w.log + if ok then [ClearedByLogout(w.logouts[id], w.client)] else [])
  }

  function Next(w: World, step: Step): World {
    match step
    case Cancel => w.(client := CancelRequests(w.client))
    case Clear(notice) => w.(client := ClearSession(w.client, notice), log := w.log + [ClearedFromOutside])
    case CallSelect(id) => if id in w.selects then w else w.(selects := w.selects[id := AskNow(w)])
    case AnswerSelect(id, reply) => StepSelect(w, id, reply)
    case CallRefresh => StartRefresh(w)
    case GrantLock(id) => StepLock(w, id)
    case AnswerRefresh(id, reply) => StepRefresh(w, id, reply)
    case SettleRefresh(id) => StepSettle(w, id)
    case CallLogout(id) => if id in w.logouts then w
        else w.(logouts := w.logouts[id := LogoutCall(w.client.sessionKey, |w.log|)])
    case AnswerLogout(id, ok) => StepLogout(w, id, ok)
    case CallRequest(id, callerAborted) => StepCall(w, id, callerAborted)
    case AbortCaller(id) => if id !in w.requests then w else WithRequest(w, id, w.requests[id].(callerAborted := true))
    case AnswerRequest(id, status) =>
      if id !in w.requests || w.requests[id].phase != AwaitingResponse then w
      else Apply(w, id, w.requests[id], ResponseArrived(w.client, w.requests[id].controller,
          w.requests[id].callerAborted, status))
    case FailRequest(id) =>
      if id !in w.requests || w.requests[id].phase !in {AwaitingResponse, AwaitingBody} then w
      else Apply(w, id, w.requests[id], Throw(Aborted))
    case AnswerBody(id, expired) => StepBody(w, id, expired)
    case ResumeRequest(id) => StepResume(w, id)
  }

  function Run(w: World, steps: seq<Step>): World
    decreases |steps|
  {
    if steps == [] then w else Run(Next(w, steps[0]), steps[1..])
  }

  // ----- reading the record

  /** The session was cleared, or a tenant was selected. */
  predicate Turnover(e: Entry) {
    e.Selected? || Cleared(e)
  }

  predicate Cleared(e: Entry) {
    e.ClearedByRequest? || e.ClearedByRefresh? || e.ClearedByLogout? || e.ClearedFromOutside?
  }

  /** Somebody may have been logged in. */
  predicate Installs(e: Entry) {
    e.Selected? || e.Refreshed?
  }

  predicate NoInstall(log: Record, since: nat, upto: nat)
    requires upto <= |log|
  {
    forall j | since <= j < upto :: !Installs(log[j])
  }

  /** Whoever was logged in before is not, or is logged in anew. */
  predicate EndsSession(e: Entry) {
    Turnover(e) || (e.Refreshed? && e.before.identity != e.identity)
  }

  predicate NoTurnover(log: Record, since: nat, upto: nat)
    requires upto <= |log|
  {
    forall j | since <= j < upto :: !Turnover(log[j])
  }

  predicate SameSession(log: Record, since: nat, upto: nat)
    requires upto <= |log|
  {
    forall j | since <= j < upto :: !EndsSession(log[j])
  }

  function Endings(log: Record): nat {
    if log == [] then 0 else Endings(log[..|log| - 1]) + (if EndsSession(log[|log| - 1]) then 1 else 0)
  }

  function Sends(log: Record, id: nat): nat {
    if log == [] then 0
    else
      var last := log[|log| - 1];
      Sends(log[..|log| - 1], id) + (if last.SentWith? && last.request == id then 1 else 0)
  }

  /** Nothing crossed from one session, or one epoch, into another: a token is sent in the
      session its request started in, a session is installed with no clearing and no
      selection since it was asked for, and a 401 clears the session it belongs to. A logout clears
      the session it was sent under exactly if that has not ended; if it has, and no other has been
      installed, there is nothing left to clear. */
  predicate Proper(log: Record, i: nat)
    requires i < |log|
  {
    match log[i]
    case SentWith(_, since, token, current) => SameSession(log, since, i) && current.accessToken == Some(token)
    case Selected(ask) => NoTurnover(log, ask.since, i)
    case Refreshed(ask, _, _) => NoTurnover(log, ask.since, i)
    case ClearedByRequest(_, since) => SameSession(log, since, i)
    case ClearedByRefresh(ask) => NoTurnover(log, ask.since, i)
    case ClearedByLogout(call, before) =>
      && (before.sessionKey == call.session <==> SameSession(log, call.since, i))
      && (NoInstall(log, call.since, i) ==> SameSession(log, call.since, i) || before.accessToken.None?)
    case ClearedFromOutside => true
  }

  // ----- what every run keeps

  /** The shared promise names the one refresh that is not settled yet. */
  predicate SharedRefresh(w: World) {
    && (forall id | 0 <= id < |w.refreshes| && !w.refreshes[id].Settled? :: w.client.refreshing == Some(id))
    && (w.client.refreshing.Some? ==>
         w.client.refreshing.value < |w.refreshes| && !w.refreshes[w.client.refreshing.value].Settled?)
  }

  /** An ask whose epoch is still current has seen no turnover. */
  predicate Honoured(c: Client, log: Record, ask: Ask) {
    ask.since <= |log| && ask.epoch <= c.epoch && (ask.epoch == c.epoch ==> NoTurnover(log, ask.since, |log|))
  }

  /** A pending logout knows the key of the session it was sent under; once that has ended, nobody
      is logged in before a session is installed. */
  predicate Remembers(c: Client, log: Record, call: LogoutCall) {
    && call.since <= |log| && call.session == Endings(log[..call.since])
    && (NoInstall(log, call.since, |log|) ==> SameSession(log, call.since, |log|) || c.accessToken.None?)
  }

  predicate Pending(call: RefreshCall) {
    call.WaitingForLock? || call.InFlight?
  }

  /** As long as its signal has not fired, a request still lives in the session it started in. */
  predicate Bound(c: Client, log: Record, r: RequestCall, refreshes: nat) {
    && r.since <= |log| && r.controller <= c.controller && r.sent <= 2
    && (r.phase != Over ==> r.sent >= 1)
    && (r.phase.AwaitingRefresh? ==> r.sent == 1 && r.phase.refresh < refreshes)
    && (r.phase != Over && r.controller == c.controller ==> SameSession(log, r.since, |log|) && c.accessToken.Some?)
  }

  ghost predicate Invariant(w: World) {
    && Coherent(w.client)
    && SharedRefresh(w)
    && (forall id | id in w.selects :: Honoured(w.client, w.log, w.selects[id]))
    && (forall id | 0 <= id < |w.refreshes| && Pending(w.refreshes[id]) ::
         Honoured(w.client, w.log, w.refreshes[id].ask))
    && (forall id | id in w.logouts :: Remembers(w.client, w.log, w.logouts[id]))
    && (forall id | id in w.requests :: Bound(w.client, w.log, w.requests[id], |w.refreshes|))
    && (forall id: nat :: Sends(w.log, id) == if id in w.requests then w.requests[id].sent else 0)
    && (forall i | 0 <= i < |w.log| :: Proper(w.log, i))
    && w.client.sessionKey == Endings(w.log)
  }

  /** The client may change under all pending calls if it fires their signals whenever the
      session ends, and takes a new epoch whenever it is turned over. */
  ghost predicate Moves(c: Client, d: Client, entries: Record) {
    && Coherent(d) && d.refreshing == c.refreshing && c.controller <= d.controller && c.epoch <= d.epoch
    && |entries| <= 1
    && (d.controller == c.controller ==>
         (forall e | e in entries :: !EndsSession(e)) && (c.accessToken.Some? ==> d.accessToken.Some?))
    && (d.epoch == c.epoch ==> forall e | e in entries :: !Turnover(e))
    && d.sessionKey == c.sessionKey + Endings(entries)
    && (forall e | e in entries :: Cleared(e) ==> d.accessToken.None?)
    && ((forall e | e in entries :: !Installs(e)) && c.accessToken.None? ==> d.accessToken.None?)
  }

  lemma {:induction false} AppendOne(log: Record, e: Entry)
    ensures Endings(log + [e]) == Endings(log) + Endings([e])
    ensures forall id :: Sends(log + [e], id) == Sends(log, id) + (if e.SentWith? && e.request == id then 1 else 0)
  {
    assert (log + [e])[..|log|] == log;
    assert [e][..0] == [];
  }

  /** A longer record says the same about its beginning. */
  lemma {:induction false} ProperStays(log: Record, more: Record, i: nat)
    requires i < |log| && Proper(log, i)
    ensures Proper(log + more, i)
  {
    assert forall j | 0 <= j < |log| :: (log + more)[j] == log[j];
  }

  lemma {:induction false} MovesRemember(c: Client, d: Client, log: Record, entries: Record, call: LogoutCall)
    requires Remembers(c, log, call) && Moves(c, d, entries)
    ensures Remembers(d, log + entries, call)
  {
    var more := log + entries;
    assert more[..call.since] == log[..call.since];
    assert forall j | 0 <= j < |log| :: more[j] == log[j];
    if entries != [] {
      assert more[|log|] == entries[0] && entries[0] in entries;
    }
  }

  /** One block of a login, a refresh, a logout or a failed request, seen by all pending calls. */
  lemma {:induction false} ClientMoves(w: World, d: Client, entries: Record)
    requires Invariant(w) && Moves(w.client, d, entries)
    requires forall e | e in entries :: !e.SentWith? && Proper(w.log + [e], |w.log|)
    ensures Invariant(w.(client := d, log := w.log + entries))
  {
    var v := w.(client := d, log := w.log + entries);
    forall id | id in w.logouts
      ensures Remembers(d, v.log, w.logouts[id])
    {
      MovesRemember(w.client, d, w.log, entries, w.logouts[id]);
    }
    if entries == [] {
      assert v.log == w.log;
    } else {
      assert v.log == w.log + [entries[0]] && entries == [entries[0]];
      AppendOne(w.log, entries[0]);
      forall i | 0 <= i < |v.log|
        ensures Proper(v.log, i)
      {
        if i < |w.log| {
          ProperStays(w.log, entries, i);
        }
      }
    }
  }

  lemma {:induction false} StayMoves(c: Client)
    requires Coherent(c)
    ensures Moves(c, c, [])
  {
  }

  lemma {:induction false} CancelMoves(c: Client)
    requires Coherent(c)
    ensures Moves(c, CancelRequests(c), [])
  {
  }

  lemma {:induction false} ClearMoves(c: Client, message: string, entry: Entry)
    requires Coherent(c) && Cleared(entry)
    ensures Moves(c, ClearSession(c, message), [entry])
  {
    assert [entry][..0] == [];
  }

  lemma {:induction false} SelectMoves(c: Client, ask: Ask, reply: Reply)
    requires Coherent(c)
    ensures Moves(c, SelectAnswered(c, ask.epoch, reply).0, SelectEntries(c, ask, reply))
  {
    var entries := SelectEntries(c, ask, reply);
    if entries != [] {
      assert entries[..0] == [] && entries[0] in entries && EndsSession(entries[0]);
    }
  }

  lemma {:induction false} RefreshMoves(c: Client, ask: Ask, reply: Reply)
    requires Coherent(c)
    ensures Moves(c, RefreshAnswered(c, ask.epoch, reply).0, RefreshEntries(c, ask, reply))
  {
    var entries := RefreshEntries(c, ask, reply);
    if entries != [] {
      assert entries[..0] == [] && entries[0] in entries;
    }
  }

  /** A request changes its state without sending. */
  lemma {:induction false} RequestKeeps(w: World, id: nat, r: RequestCall)
    requires Invariant(w) && Sends(w.log, id) == r.sent && Bound(w.client, w.log, r, |w.refreshes|)
    ensures Invariant(WithRequest(w, id, r))
  {
    forall other: nat
      ensures Sends(w.log, other) == if other in w.requests[id := r] then w.requests[id := r][other].sent else 0
    {
      assert Sends(w.log, other) == if other in w.requests then w.requests[other].sent else 0;
    }
  }

  lemma {:induction false} SentRemember(w: World, e: Entry)
    requires Invariant(w) && e.SentWith?
    ensures forall id | id in w.logouts :: Remembers(w.client, w.log + [e], w.logouts[id])
  {
    assert [e][..0] == [] && Endings([e]) == 0;
    forall id | id in w.logouts
      ensures Remembers(w.client, w.log + [e], w.logouts[id])
    {
      MovesRemember(w.client, w.client, w.log, [e], w.logouts[id]);
    }
  }

  /** A request sends the current token in the session it started in. */
  lemma {:induction false} SendKeeps(w: World, id: nat, r: RequestCall, token: string)
    requires Invariant(w) && Sends(w.log, id) == r.sent <= 1
    requires r.since <= |w.log| && r.controller == w.client.controller
    requires SameSession(w.log, r.since, |w.log|) && w.client.accessToken == Some(token)
    ensures Invariant(Apply(w, id, r, Send(token)))
  {
    var e := SentWith(id, r.since, token, w.client);
    SentIsProper(w, e);
    SentRemember(w, e);
    SentCounts(w, id, r, token);
    SentHonours(w, e);
    SentStaysBound(w, id, r, token);
  }

  lemma {:induction false} SentHonours(w: World, e: Entry)
    requires Invariant(w) && e.SentWith?
    ensures forall id | id in w.selects :: Honoured(w.client, w.log + [e], w.selects[id])
    ensures forall id | 0 <= id < |w.refreshes| && Pending(w.refreshes[id]) ::
              Honoured(w.client, w.log + [e], w.refreshes[id].ask)
  {
  }

  lemma {:induction false} SentStaysBound(w: World, id: nat, r: RequestCall, token: string)
    requires Invariant(w) && r.sent <= 1 && r.since <= |w.log| && r.controller == w.client.controller
    requires SameSession(w.log, r.since, |w.log|) && w.client.accessToken == Some(token)
    ensures var v := Apply(w, id, r, Send(token));
            forall other | other in v.requests :: Bound(v.client, v.log, v.requests[other], |v.refreshes|)
  {
    var v := Apply(w, id, r, Send(token));
    forall other | other in v.requests
      ensures Bound(v.client, v.log, v.requests[other], |v.refreshes|)
    {
      if other != id {
        assert Bound(w.client, w.log, w.requests[other], |w.refreshes|);
      }
    }
  }

  lemma {:induction false} SentIsProper(w: World, e: Entry)
    requires Invariant(w) && e.SentWith? && e.since <= |w.log| && SameSession(w.log, e.since, |w.log|)
    requires e.current.accessToken == Some(e.token)
    ensures var log := w.log + [e];
            (forall i | 0 <= i < |log| :: Proper(log, i)) && Endings(log) == Endings(w.log)
  {
    var log := w.log + [e];
    AppendOne(w.log, e);
    assert [e][..0] == [] && Endings([e]) == 0;
    forall i | 0 <= i < |log|
      ensures Proper(log, i)
    {
      if i < |w.log| {
        ProperStays(w.log, [e], i);
      }
    }
  }

  lemma {:induction false} SentCounts(w: World, id: nat, r: RequestCall, token: string)
    requires Invariant(w) && Sends(w.log, id) == r.sent
    ensures var v := Apply(w, id, r, Send(token));
            forall other: nat :: Sends(v.log, other) == if other in v.requests then v.requests[other].sent else 0
  {
    var v := Apply(w, id, r, Send(token));
    AppendOne(w.log, SentWith(id, r.since, token, w.client));
    forall other: nat
      ensures Sends(v.log, other) == if other in v.requests then v.requests[other].sent else 0
    {
      assert Sends(w.log, other) == if other in w.requests then w.requests[other].sent else 0;
    }
  }

  lemma {:induction false} StartRefreshKeeps(w: World)
    requires Invariant(w)
    ensures Invariant(StartRefresh(w)) && StartRefresh(w).client.refreshing.Some?
  {
  }

  /** What a pending request may do next. */
  lemma {:induction false} ApplyKeeps(w: World, id: nat, r: RequestCall, move: RequestMove)
    requires Invariant(w) && Sends(w.log, id) == r.sent && Bound(w.client, w.log, r, |w.refreshes|)
    requires move.Send? || move.AwaitBody? || move.AwaitRefresh? ==>
             r.phase != Over && r.controller == w.client.controller
    requires move.Send? ==> r.sent <= 1 && w.client.accessToken == Some(move.token)
    requires move.AwaitRefresh? ==> r.sent == 1
    ensures Invariant(Apply(w, id, r, move))
  {
    match move
    case Send(token) => SendKeeps(w, id, r, token);
    case AwaitRefresh =>
      StartRefreshKeeps(w);
      var joined := StartRefresh(w);
      RequestKeeps(joined, id, r.(phase := AwaitingRefresh(joined.client.refreshing.value)));
    case AwaitBody => RequestKeeps(w, id, r.(phase := AwaitingBody));
    case _ => RequestKeeps(w, id, r.(phase := Over));
  }

  /** A refresh moves on without settling, or settles and leaves the promise. */
  lemma {:induction false} RefreshKeeps(w: World, id: nat, call: RefreshCall)
    requires Invariant(w) && id < |w.refreshes| && !w.refreshes[id].Settled?
    requires Pending(call) ==> Honoured(w.client, w.log, call.ask)
    ensures !call.Settled? ==> Invariant(w.(refreshes := w.refreshes[id := call]))
    ensures call.Settled? ==>
            Invariant(w.(client := RefreshSettled(w.client, id), refreshes := w.refreshes[id := call]))
  {
  }

  lemma {:induction false} RefreshIsProper(w: World, ask: Ask, reply: Reply)
    requires Honoured(w.client, w.log, ask)
    ensures forall e | e in RefreshEntries(w.client, ask, reply) :: !e.SentWith? && Proper(w.log + [e], |w.log|)
  {
  }

  lemma {:induction false} StepRefreshKeeps(w: World, id: nat, reply: Reply)
    requires Invariant(w)
    ensures Invariant(StepRefresh(w, id, reply))
  {
    if id < |w.refreshes| && w.refreshes[id].InFlight? {
      var ask := w.refreshes[id].ask;
      var (client, ending) := RefreshAnswered(w.client, ask.epoch, reply);
      var entries := RefreshEntries(w.client, ask, reply);
      RefreshMoves(w.client, ask, reply);
      RefreshIsProper(w, ask, reply);
      ClientMoves(w, client, entries);
      RefreshKeeps(w.(client := client, log := w.log + entries), id, Settling(ending));
    }
  }

  lemma {:induction false} StepSelectKeeps(w: World, id: nat, reply: Reply)
    requires Invariant(w)
    ensures Invariant(StepSelect(w, id, reply))
  {
    if id in w.selects {
      var ask := w.selects[id];
      var (client, ending) := SelectAnswered(w.client, ask.epoch, reply);
      SelectMoves(w.client, ask, reply);
      assert Honoured(w.client, w.log, ask);
      ClientMoves(w, client, SelectEntries(w.client, ask, reply));
    }
  }

  lemma {:induction false} StepBodyKeeps(w: World, id: nat, expired: bool)
    requires Invariant(w)
    ensures Invariant(StepBody(w, id, expired))
  {
    if id in w.requests && w.requests[id].phase == AwaitingBody {
      var r := w.requests[id];
      var (client, move) := BodyArrived(w.client, r.controller, r.callerAborted, r.token, r.sent - 1, expired);
      var entry := ClearedByRequest(id, r.since);
      var entries := if client != w.client then [entry] else [];
      assert Bound(w.client, w.log, r, |w.refreshes|);
      ClearMoves(w.client, EXPIRED_NOTICE, entry);
      StayMoves(w.client);
      assert w.log + [] == w.log;
      ClientMoves(w, client, entries);
      var v := w.(client := client, log := w.log + entries);
      assert Bound(v.client, v.log, v.requests[id], |v.refreshes|);
      ApplyKeeps(v, id, r, move);
    }
  }

  lemma {:induction false} StepResumeKeeps(w: World, id: nat)
    requires Invariant(w)
    ensures Invariant(StepResume(w, id))
  {
    if id in w.requests && w.requests[id].phase.AwaitingRefresh? {
      var r := w.requests[id];
      assert Bound(w.client, w.log, r, |w.refreshes|);
      if r.phase.refresh < |w.refreshes| && w.refreshes[r.phase.refresh].Settled? {
        var ending := w.refreshes[r.phase.refresh].ending;
        ApplyKeeps(w, id, r, if ending != Fulfilled then Throw(ending)
            else Retry(w.client, r.controller, r.callerAborted));
      }
    }
  }

  lemma {:induction false} StepCallKeeps(w: World, id: nat, callerAborted: bool)
    requires Invariant(w)
    ensures Invariant(StepCall(w, id, callerAborted))
  {
    if id !in w.requests {
      var r := RequestCall(w.client.controller, |w.log|, "", 0, callerAborted, Over);
      assert Sends(w.log, id) == 0;
      match RequestStarted(w.client, callerAborted)
      case Send(token) => SendKeeps(w, id, r, token);
      case _ => RequestKeeps(w, id, r);
    }
  }

  lemma {:induction false} StepRequestKeeps(w: World, step: Step)
    requires Invariant(w) && (step.AbortCaller? || step.AnswerRequest? || step.FailRequest?)
    ensures Invariant(Next(w, step))
  {
    if step.id in w.requests {
      var r := w.requests[step.id];
      assert Bound(w.client, w.log, r, |w.refreshes|) && Sends(w.log, step.id) == r.sent;
      if step.AbortCaller? {
        RequestKeeps(w, step.id, r.(callerAborted := true));
      } else if step.AnswerRequest? {
        AnswerKeeps(w, step.id, r, step.status);
      } else {
        ApplyKeeps(w, step.id, r, Throw(Aborted));
      }
    }
  }

  lemma {:induction false} AnswerKeeps(w: World, id: nat, r: RequestCall, status: int)
    requires Invariant(w) && id in w.requests && w.requests[id] == r
    requires Bound(w.client, w.log, r, |w.refreshes|) && Sends(w.log, id) == r.sent
    ensures Invariant(Next(w, AnswerRequest(id, status)))
  {
    if r.phase == AwaitingResponse {
      ApplyKeeps(w, id, r, ResponseArrived(w.client, r.controller, r.callerAborted, status));
    }
  }

  lemma {:induction false} StepCallLogoutKeeps(w: World, step: Step)
    requires Invariant(w) && step.CallLogout?
    ensures Invariant(Next(w, step))
  {
    assert w.log[..|w.log|] == w.log;
  }

  /** The record has as many endings as its beginning exactly if no session ended since. */
  lemma {:induction false} EndingsSince(log: Record, since: nat)
    requires since <= |log|
    ensures Endings(log) >= Endings(log[..since])
    ensures Endings(log) == Endings(log[..since]) <==> SameSession(log, since, |log|)
  {
    if since < |log| {
      var before := log[..|log| - 1];
      EndingsSince(before, since);
      assert before[..since] == log[..since];
    } else {
      assert log[..since] == log;
    }
  }

  lemma {:induction false} StepLogoutKeeps(w: World, id: nat, ok: bool)
    requires Invariant(w)
    ensures Invariant(StepLogout(w, id, ok))
  {
    if id in w.logouts {
      var call := w.logouts[id];
      var v := w.(logouts := w.logouts - {id});
      assert Remembers(w.client, w.log, call);
      if ok {
        var entry := ClearedByLogout(call, w.client);
        EndingsSince(w.log, call.since);
        LogoutIsProper(w.log, call, w.client);
        ClearMoves(w.client, LOGOUT_NOTICE, entry);
        ClientMoves(v, ClearSession(w.client, LOGOUT_NOTICE), [entry]);
      } else {
        assert w.log + [] == w.log;
      }
    }
  }

  lemma {:induction false} LogoutIsProper(log: Record, call: LogoutCall, c: Client)
    requires Remembers(c, log, call) && c.sessionKey == Endings(log)
    ensures Proper(log + [ClearedByLogout(call, c)], |log|)
  {
    EndingsSince(log, call.since);
    var more := log + [ClearedByLogout(call, c)];
    assert forall j | 0 <= j < |log| :: more[j] == log[j];
  }

  lemma {:induction false} EndKeeps(w: World, step: Step)
    requires Invariant(w) && (step.Cancel? || step.Clear?)
    ensures Invariant(Next(w, step))
  {
    if step.Cancel? {
      CancelMoves(w.client);
      assert w.log + [] == w.log;
      ClientMoves(w, CancelRequests(w.client), []);
    } else {
      ClearMoves(w.client, step.notice, ClearedFromOutside);
      ClientMoves(w, ClearSession(w.client, step.notice), [ClearedFromOutside]);
    }
  }

  lemma {:induction false} StepLockKeeps(w: World, id: nat)
    requires Invariant(w)
    ensures Invariant(StepLock(w, id))
  {
    if id < |w.refreshes| && w.refreshes[id].WaitingForLock? {
      var ask := w.refreshes[id].ask;
      assert Honoured(w.client, w.log, ask);
      RefreshKeeps(w, id, if ask.epoch == w.client.epoch then InFlight(ask) else Settling(Aborted));
    }
  }

  lemma {:induction false} StepSettleKeeps(w: World, id: nat)
    requires Invariant(w)
    ensures Invariant(StepSettle(w, id))
  {
    if id < |w.refreshes| && w.refreshes[id].Settling? {
      RefreshKeeps(w, id, Settled(w.refreshes[id].ending));
    }
  }

  lemma {:induction false} StepCallSelectKeeps(w: World, step: Step)
    requires Invariant(w) && step.CallSelect?
    ensures Invariant(Next(w, step))
  {
  }

  lemma {:induction false} NextKeeps(w: World, step: Step)
    requires Invariant(w)
    ensures Invariant(Next(w, step))
  {
    match step
    case Cancel => EndKeeps(w, step);
    case Clear(_) => EndKeeps(w, step);
    case CallSelect(_) => StepCallSelectKeeps(w, step);
    case AnswerSelect(id, reply) => StepSelectKeeps(w, id, reply);
    case CallRefresh => StartRefreshKeeps(w);
    case GrantLock(id) => StepLockKeeps(w, id);
    case AnswerRefresh(id, reply) => StepRefreshKeeps(w, id, reply);
    case SettleRefresh(id) => StepSettleKeeps(w, id);
    case CallLogout(_) => StepCallLogoutKeeps(w, step);
    case AnswerLogout(id, ok) => StepLogoutKeeps(w, id, ok);
    case CallRequest(id, callerAborted) => StepCallKeeps(w, id, callerAborted);
    case AnswerBody(id, expired) => StepBodyKeeps(w, id, expired);
    case ResumeRequest(id) => StepResumeKeeps(w, id);
    case _ => StepRequestKeeps(w, step);
  }

  lemma {:induction false} RunKeeps(w: World, steps: seq<Step>)
    requires Invariant(w)
    ensures Invariant(Run(w, steps))
    decreases |steps|
  {
    if steps != [] {
      NextKeeps(w, steps[0]);
      RunKeeps(Next(w, steps[0]), steps[1..]);
    }
  }

  // ----- what that means for every run

  /** Whatever the order of events: token and identity are both present or both absent, at
      most one refresh is under way, no request sends more than twice, nothing on record
      crosses sessions or epochs, and the session key counts the sessions that ended. */
  lemma {:induction false} EveryRunIsSafe(steps: seq<Step>)
    ensures var w := Run(START, steps);
            && (w.client.accessToken.Some? <==> w.client.identity.Some?)
            && (forall a, b | 0 <= a < |w.refreshes| && 0 <= b < |w.refreshes| && !w.refreshes[a].Settled?
                 && !w.refreshes[b].Settled? :: a == b)
            && (forall id: nat :: Sends(w.log, id) <= 2)
            && (forall i | 0 <= i < |w.log| :: Proper(w.log, i))
            && w.client.sessionKey == Endings(w.log)
  {
    RunKeeps(START, steps);
    var w := Run(START, steps);
    forall id: nat
      ensures Sends(w.log, id) <= 2
    {
      if id in w.requests {
        assert Bound(w.client, w.log, w.requests[id], |w.refreshes|);
      }
    }
  }

  /** A request that may go on after a refresh always finds a token: the login-required
      exit at the end of the loop is never taken. */
  lemma {:induction false} RetryFindsToken(steps: seq<Step>, id: nat)
    requires var w := Run(START, steps); id in w.requests && w.requests[id].phase != Over
    ensures var w := Run(START, steps);
            var move := Retry(w.client, w.requests[id].controller, w.requests[id].callerAborted);
            move == Throw(Aborted) || move.Send?
  {
    RunKeeps(START, steps);
    var w := Run(START, steps);
    assert Bound(w.client, w.log, w.requests[id], |w.refreshes|);
  }

  // ----- what cancelling and clearing end

  lemma {:induction false} SendsOfOthers(log: Record, e: Entry, id: nat)
    requires !e.SentWith? || e.request != id
    ensures Sends(log + [e], id) == Sends(log, id)
  {
    AppendOne(log, e);
  }

  predicate Extends(log: Record, more: Record) {
    |log| <= |more| && more[..|log|] == log
  }

  /** The request's signal has fired. */
  predicate Stale(w: World, id: nat) {
    id in w.requests && w.requests[id].controller in w.client.aborted
  }

  /** A step records at most one entry, and sends nothing for such a request. */
  lemma {:induction false} NextExtends(w: World, step: Step)
    ensures var (log, more) := (w.log, Next(w, step).log);
            && Extends(log, more) && |more| <= |log| + 1
            && (|more| > |log| && more[|log|].SentWith? ==> !Stale(w, more[|log|].request))
  {
    match step
    case AnswerBody(id, expired) => BodyExtends(w, id, expired);
    case _ =>
  }

  lemma {:induction false} BodyExtends(w: World, id: nat, expired: bool)
    ensures var (log, more) := (w.log, StepBody(w, id, expired).log);
            && Extends(log, more) && |more| <= |log| + 1
            && (|more| > |log| && more[|log|].SentWith? ==> !Stale(w, more[|log|].request))
  {
    assert w.log + [] == w.log;
  }

  predicate SameSignals(w: World, v: World) {
    forall id | id in w.requests :: id in v.requests && v.requests[id].controller == w.requests[id].controller
  }

  lemma {:induction false} ApplyStays(w: World, id: nat, r: RequestCall, move: RequestMove)
    requires id in w.requests ==> r.controller == w.requests[id].controller
    ensures SameSignals(w, Apply(w, id, r, move))
  {
  }

  /** No request changes the signal it listens to. */
  lemma {:induction false} SignalsStay(w: World, step: Step)
    ensures SameSignals(w, Next(w, step))
  {
    match step
    case AnswerRequest(_, _) => AnswerStays(w, step);
    case FailRequest(_) => AnswerStays(w, step);
    case AnswerBody(id, expired) => BodyStays(w, id, expired);
    case ResumeRequest(id) => ResumeStays(w, id);
    case _ =>
  }

  lemma {:induction false} AnswerStays(w: World, step: Step)
    requires step.AnswerRequest? || step.FailRequest?
    ensures SameSignals(w, Next(w, step))
  {
    if step.id in w.requests {
      var r := w.requests[step.id];
      var move := if step.FailRequest? then Throw(Aborted)
                  else ResponseArrived(w.client, r.controller, r.callerAborted, step.status);
      ApplyStays(w, step.id, r, move);
    }
  }

  lemma {:induction false} BodyStays(w: World, id: nat, expired: bool)
    ensures SameSignals(w, StepBody(w, id, expired))
  {
  }

  lemma {:induction false} ResumeStays(w: World, id: nat)
    ensures SameSignals(w, StepResume(w, id))
  {
  }

  lemma {:induction false} FiredStays(w: World, step: Step)
    ensures w.client.aborted <= Next(w, step).client.aborted
  {
  }

  lemma {:induction false} StaleStays(w: World, step: Step, id: nat)
    requires Stale(w, id)
    ensures Stale(Next(w, step), id)
  {
    SignalsStay(w, step);
    FiredStays(w, step);
  }

  lemma {:induction false} StaleSendsNothing(w: World, step: Step, id: nat)
    requires Stale(w, id)
    ensures Sends(Next(w, step).log, id) == Sends(w.log, id)
  {
    var more := Next(w, step).log;
    NextExtends(w, step);
    if |more| > |w.log| {
      assert more == w.log + [more[|w.log|]];
      SendsOfOthers(w.log, more[|w.log|], id);
    } else {
      assert more == w.log;
    }
  }

  lemma {:induction false} StaleForGood(w: World, steps: seq<Step>, id: nat)
    requires Stale(w, id)
    ensures Sends(Run(w, steps).log, id) == Sends(w.log, id)
    decreases |steps|
  {
    if steps != [] {
      StaleStays(w, steps[0], id);
      StaleSendsNothing(w, steps[0], id);
      StaleForGood(Next(w, steps[0]), steps[1..], id);
    }
  }

  /** Whatever happens before and after: once requests are cancelled or the session is cleared, no
      request that had started is ever sent again. */
  lemma {:induction false} CancelledNeverSends(steps: seq<Step>, step: Step, more: seq<Step>, id: nat)
    requires (step.Cancel? || step.Clear?) && id in Run(START, steps).requests
    ensures var w := Run(START, steps);
            Sends(Run(Next(w, step), more).log, id) == Sends(w.log, id)
  {
    RunKeeps(START, steps);
    var w := Run(START, steps);
    assert Bound(w.client, w.log, w.requests[id], |w.refreshes|);
    var v := Next(w, step);
    assert Stale(v, id);
    if step.Clear? {
      SendsOfOthers(w.log, ClearedFromOutside, id);
    }
    StaleForGood(v, more, id);
  }

  lemma {:induction false} RunExtends(w: World, steps: seq<Step>)
    ensures Extends(w.log, Run(w, steps).log)
    decreases |steps|
  {
    if steps != [] {
      var v := Next(w, steps[0]);
      NextExtends(w, steps[0]);
      RunExtends(v, steps[1..]);
      assert Run(w, steps).log[..|v.log|][..|w.log|] == w.log;
    }
  }

  /** Whatever happens before and after: once the session is cleared, nobody is logged in, and no
      login or refresh that was asked for before is ever installed. */
  lemma {:induction false} ClearedNeverReturns(steps: seq<Step>, notice: string, more: seq<Step>)
    ensures var w := Run(START, steps);
            var v := Next(w, Clear(notice));
            var log := Run(v, more).log;
            && v.client.accessToken.None? && v.client.identity.None? && |v.log| == |w.log| + 1 <= |log|
            && forall i | |v.log| <= i < |log| && (log[i].Selected? || log[i].Refreshed?) :: log[i].ask.since > |w.log|
  {
    RunKeeps(START, steps);
    var w := Run(START, steps);
    var v := Next(w, Clear(notice));
    NextKeeps(w, Clear(notice));
    RunKeeps(v, more);
    RunExtends(v, more);
    var log := Run(v, more).log;
    assert log[|w.log|] == v.log[|w.log|] == ClearedFromOutside;
    forall i | |v.log| <= i < |log| && (log[i].Selected? || log[i].Refreshed?)
      ensures log[i].ask.since > |w.log|
    {
      assert Proper(log, i);
    }
  }

  // ----- logouts and the cookie lock

  /** Nobody else holds the lock: no refresh is in flight, no logout under way. A login holds it until
      it is answered, and goes on before the lock is handed on. */
  predicate LockFree(w: World) {
    w.logouts == map[] && forall id | 0 <= id < |w.refreshes| :: !w.refreshes[id].InFlight?
  }

  /** The step is one that an exclusive lock lets happen. */
  predicate Obeys(w: World, step: Step) {
    step.GrantLock? || step.CallLogout? || step.AnswerSelect? ==> LockFree(w)
  }

  predicate AllObey(w: World, steps: seq<Step>)
    decreases |steps|
  {
    steps != [] ==> Obeys(w, steps[0]) && AllObey(Next(w, steps[0]), steps[1..])
  }

  /** A logout cleared the session it was sent under, or there was none. */
  predicate ClearsItsOwn(e: Entry) {
    e.ClearedByLogout? ==> e.before.sessionKey == e.call.session || e.before.accessToken.None?
  }

  /** While a logout is under way nothing is installed. */
  predicate Locked(w: World) {
    && (w.logouts != map[] ==> forall id | 0 <= id < |w.refreshes| :: !w.refreshes[id].InFlight?)
    && (forall id | id in w.logouts :: w.logouts[id].since <= |w.log| && NoInstall(w.log, w.logouts[id].since, |w.log|))
    && forall e | e in w.log :: ClearsItsOwn(e)
  }

  /** The step may add entries that install nothing. */
  predicate AddsQuietly(w: World, v: World) {
    && v.logouts == w.logouts && Extends(w.log, v.log)
    && (forall id | 0 <= id < |v.refreshes| && v.refreshes[id].InFlight? ::
          id < |w.refreshes| && w.refreshes[id].InFlight?)
    && forall j | |w.log| <= j < |v.log| :: !v.log[j].ClearedByLogout? && (w.logouts != map[] ==> !Installs(v.log[j]))
  }

  lemma {:induction false} QuietStaysLocked(w: World, v: World)
    requires Locked(w) && AddsQuietly(w, v)
    ensures Locked(v)
  {
    forall e | e in v.log
      ensures ClearsItsOwn(e)
    {
      var j :| 0 <= j < |v.log| && v.log[j] == e;
      if j < |w.log| {
        assert v.log[..|w.log|][j] == w.log[j] && w.log[j] in w.log;
      }
    }
    forall id | id in v.logouts
      ensures NoInstall(v.log, v.logouts[id].since, |v.log|)
    {
      assert forall j | 0 <= j < |w.log| :: v.log[..|w.log|][j] == v.log[j];
    }
  }

  /** All steps but those that take or end a logout, or hand out the lock. */
  lemma {:induction false} StepAddsQuietly(w: World, step: Step)
    requires Locked(w) && Obeys(w, step) && !step.CallLogout? && !step.AnswerLogout? && !step.GrantLock?
    ensures AddsQuietly(w, Next(w, step))
  {
    match step
    case AnswerRefresh(id, reply) => RefreshAddsQuietly(w, id, reply);
    case AnswerBody(id, expired) => BodyAddsQuietly(w, id, expired);
    case AnswerRequest(_, _) => AnswerAddsQuietly(w, step);
    case FailRequest(_) => AnswerAddsQuietly(w, step);
    case ResumeRequest(id) => ResumeAddsQuietly(w, id);
    case CallRequest(id, callerAborted) => CallAddsQuietly(w, id, callerAborted);
    case _ => OtherAddsQuietly(w, step);
  }

  lemma {:induction false} CallAddsQuietly(w: World, id: nat, callerAborted: bool)
    ensures AddsQuietly(w, StepCall(w, id, callerAborted))
  {
  }

  lemma {:induction false} OtherAddsQuietly(w: World, step: Step)
    requires Obeys(w, step)
    requires step.Cancel? || step.Clear? || step.CallSelect? || step.AnswerSelect? || step.CallRefresh?
             || step.SettleRefresh? || step.AbortCaller?
    ensures AddsQuietly(w, Next(w, step))
  {
  }

  lemma {:induction false} RefreshAddsQuietly(w: World, id: nat, reply: Reply)
    requires Locked(w)
    ensures AddsQuietly(w, StepRefresh(w, id, reply))
  {
    assert w.log + [] == w.log;
  }

  lemma {:induction false} BodyAddsQuietly(w: World, id: nat, expired: bool)
    ensures AddsQuietly(w, StepBody(w, id, expired))
  {
    assert w.log + [] == w.log;
  }

  lemma {:induction false} AnswerAddsQuietly(w: World, step: Step)
    requires step.AnswerRequest? || step.FailRequest?
    ensures AddsQuietly(w, Next(w, step))
  {
  }

  lemma {:induction false} ResumeAddsQuietly(w: World, id: nat)
    ensures AddsQuietly(w, StepResume(w, id))
  {
  }

  lemma {:induction false} LogoutStaysLocked(w: World, step: Step)
    requires Invariant(w) && Locked(w) && Obeys(w, step) && (step.CallLogout? || step.AnswerLogout? || step.GrantLock?)
    ensures Locked(Next(w, step))
  {
    if step.AnswerLogout? && step.id in w.logouts {
      var call := w.logouts[step.id];
      assert Remembers(w.client, w.log, call);
      EndingsSince(w.log, call.since);
      assert ClearsItsOwn(ClearedByLogout(call, w.client));
      assert w.log + [] == w.log;
    }
  }

  lemma {:induction false} LockStays(w: World, steps: seq<Step>)
    requires Invariant(w) && Locked(w) && AllObey(w, steps)
    ensures Locked(Run(w, steps))
    decreases |steps|
  {
    if steps != [] {
      var step := steps[0];
      NextKeeps(w, step);
      if step.CallLogout? || step.AnswerLogout? || step.GrantLock? {
        LogoutStaysLocked(w, step);
      } else {
        StepAddsQuietly(w, step);
        QuietStaysLocked(w, Next(w, step));
      }
      LockStays(Next(w, step), steps[1..]);
    }
  }

  /** Under an exclusive lock a logout clears the session it was sent under, or none. */
  lemma {:induction false} LockedLogoutClearsItsOwn(steps: seq<Step>)
    requires AllObey(START, steps)
    ensures forall e | e in Run(START, steps).log :: ClearsItsOwn(e)
  {
    LockStays(START, steps);
  }

  const SESSION := Session("token", "user", "tenant")

  const LATE_LOGOUT: seq<Step> :=
      [CallLogout(0), CallSelect(0), AnswerSelect(0, Accepted(SESSION)), AnswerLogout(0, true)]

  /** With a lock that lets everybody through it may clear a session that was installed after it was
      sent. */
  lemma {:induction false} LateLogoutClearsAnother()
    ensures var log := Run(START, LATE_LOGOUT).log;
            && |log| == 2 && log[1].ClearedByLogout?
            && log[1].before.accessToken == Some("token") && log[1].before.sessionKey != log[1].call.session
    ensures !AllObey(START, LATE_LOGOUT)
  {
    var a := Next(START, LATE_LOGOUT[0]);
    var b := Next(a, LATE_LOGOUT[1]);
    var c := Next(b, LATE_LOGOUT[2]);
    var d := Next(c, LATE_LOGOUT[3]);
    assert c.log == [Selected(Ask(0, 0))];
    assert LATE_LOGOUT[1..][1..] == LATE_LOGOUT[2..] && LATE_LOGOUT[2..][1..] == LATE_LOGOUT[3..]
        && LATE_LOGOUT[3..][1..] == [];
    assert Run(d, []) == d && Run(c, LATE_LOGOUT[3..]) == d && Run(b, LATE_LOGOUT[2..]) == d
        && Run(a, LATE_LOGOUT[1..]) == d;
    assert d.log[1] in d.log && !ClearsItsOwn(d.log[1]);
    if AllObey(START, LATE_LOGOUT) {
      LockedLogoutClearsItsOwn(LATE_LOGOUT);
      assert false;
    }
  }
}
