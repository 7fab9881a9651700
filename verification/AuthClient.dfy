/** The browser's login state (`frontend/src/services/auth-client.ts`): tokens in memory,
    epochs, abort controllers and one shared refresh. An `await` splits a method into
    blocks that run without interruption. `Client` is the value of the fields between two
    blocks, and each block is a function of it. */
module AuthState {
  import opened Text

  datatype Identity = Identity(user: string, tenant: string)

  /** What the server answers to a login or a refresh; any part may be missing. */
  datatype Session = Session(token: string, user: string, tenant: string) {
    predicate Complete() {
      token != "" && user != "" && tenant != ""
    }
  }

  datatype Reply = Accepted(session: Session) | Failed(status: int)

  /** The fields of the class. Controllers are numbered in order of creation; `aborted`
      holds those whose signal has fired. `refreshing` names the shared promise. */
  datatype Client = Client(
    accessToken: Option<string>,
    identity: Option<Identity>,
    sessionKey: nat,
    notice: string,
    epoch: nat,
    controller: nat,
    aborted: set<nat>,
    refreshing: Option<nat>)

  /** Token and identity come and go together; exactly the past controllers have fired. */
  ghost predicate Coherent(c: Client) {
    && (c.accessToken.Some? <==> c.identity.Some?)
    && forall k: nat :: k in c.aborted <==> k < c.controller
  }

  const NEW_CLIENT := Client(None, None, 0, "", 0, 0, {}, None)

  const EXPIRED_NOTICE := "登录已失效，请重新登录"
  const LOGOUT_NOTICE := "已退出所有设备"

  // ----- the blocks as functions of the fields

  function CancelRequests(c: Client): Client {
    c.(aborted := c.aborted + {c.controller}, controller := c.controller + 1)
  }

  function ClearSession(c: Client, notice: string): Client {
    CancelRequests(c).(epoch := c.epoch + 1, accessToken := None, identity := None, sessionKey :=
        c.sessionKey + 1, notice := notice)
  }

  /** None when the response is incomplete and the method throws. */
  function SetSession(c: Client, session: Session, newSession: bool): Option<Client> {
    if !session.Complete() then None
    else
      var identity := Identity(session.user, session.tenant);
      var base := if newSession || c.identity != Some(identity) then CancelRequests(c).(sessionKey :=
          c.sessionKey + 1) else c;
      Some(base.(accessToken := Some(session.token), identity := Some(identity), notice := ""))
  }

  datatype Ending = Fulfilled | Rejected(status: int) | Aborted

  /** `selectTenant` once the server has answered. */
  function SelectAnswered(c: Client, epoch: nat, reply: Reply): (Client, Ending) {
    match reply
    case Failed(status) => (c, Rejected(status))
    case Accepted(session) =>
      if epoch != c.epoch then (c, Aborted)
      else
        var bumped := c.(epoch := c.epoch + 1);
        match SetSession(bumped, session, true)
        case None => (bumped, Rejected(502))
        case Some(next) => (next, Fulfilled)
  }

  /** `refresh` once the server has answered: only a 401 of the same epoch clears the session. */
  function RefreshAnswered(c: Client, epoch: nat, reply: Reply): (Client, Ending) {
    match reply
    case Failed(status) => (if epoch == c.epoch && status == 401 then ClearSession(c, EXPIRED_NOTICE)
        else c, Rejected(status))
    case Accepted(session) =>
      if epoch != c.epoch then (c, Aborted)
      else
        match SetSession(c, session, false)
        case None => (c, Rejected(502))
        case Some(next) => (next, Fulfilled)
  }

  /** What a request does next, between two waits. */
  datatype RequestMove =
    | Send(token: string)
    | AwaitBody
    | AwaitRefresh
    | Return
    | Throw(ending: Ending)

  predicate SignalFired(c: Client, controller: nat, callerAborted: bool) {
    callerAborted || controller in c.aborted
  }

  /** The start of `authorizedRequest`. */
  function RequestStarted(c: Client, callerAborted: bool): RequestMove {
    if SignalFired(c, c.controller, callerAborted) then Throw(Aborted)
    else
      match c.accessToken
      case None => Throw(Rejected(401))
      case Some(token) => Send(token)
  }

  /** After `send`. */
  function ResponseArrived(c: Client, controller: nat, callerAborted: bool, status: int): RequestMove {
    if SignalFired(c, controller, callerAborted) then Throw(Aborted)
    else if status != 401 then Return
    else AwaitBody
  }

  /** After `readError`: give up and clear the session, refresh, or go on with a newer token. */
  function BodyArrived(c: Client, controller: nat, callerAborted: bool, token: string, attempt: int,
                       expired: bool): (Client, RequestMove) {
    if SignalFired(c, controller, callerAborted) then (c, Throw(Aborted))
    else if !expired || attempt == 1 then (ClearSession(c, EXPIRED_NOTICE), Throw(Rejected(401)))
    else if c.accessToken == Some(token) then (c, AwaitRefresh)
    else (c, Retry(c, controller, callerAborted))
  }

  /** The end of one turn of the loop and the start of the next. */
  function Retry(c: Client, controller: nat, callerAborted: bool): RequestMove {
    if SignalFired(c, controller, callerAborted) then Throw(Aborted)
    else
      match c.accessToken
      case None => Throw(Rejected(401))
      case Some(token) => Send(token)
  }

  /** `refresh()`: join the shared promise, or make a new one under the given number. */
  function RefreshCalled(c: Client, id: nat): Client {
    if c.refreshing.Some? then c else c.(refreshing := Some(id))
  }

  /** The `finally` of the shared promise. */
  function RefreshSettled(c: Client, id: nat): Client {
    if c.refreshing == Some(id) then c.(refreshing := None) else c
  }

  function LogoutAnswered(c: Client, ok: bool): Client {
    if ok then ClearSession(c, LOGOUT_NOTICE) else c
  }
}

/** The class itself, block by block, proved against `AuthState`. */
module AuthClient {
  import opened Text
  import S = AuthState

  class AuthClient {
    var accessToken: Option<string>
    var identity: Option<S.Identity>
    var sessionKey: nat
    var notice: string
    var epoch: nat
    var controller: nat
    var aborted: set<nat>
    var refreshPromise: Option<nat>

    function View(): S.Client
      reads this
    {
      S.Client(accessToken, identity, sessionKey, notice, epoch, controller, aborted, refreshPromise)
    }

    ghost predicate Valid()
      reads this
    {
      S.Coherent(View())
    }

    constructor ()
      ensures Valid() && View() == S.NEW_CLIENT
    {
      accessToken, identity, sessionKey, notice := None, None, 0, "";
      epoch, controller, aborted, refreshPromise := 0, 0, {}, None;
    }

    /** All signals handed out so far have fired, and the new one has not. */
    method CancelRequests()
      requires Valid()
      modifies this
      ensures Valid() && View() == S.CancelRequests(old(View()))
      ensures forall k: nat :: S.SignalFired(View(), k, false) <==> k <= old(controller)
    {
      aborted := aborted + {controller};
      controller := controller + 1;
    }

    /** Nobody is logged in, all signals handed out so far have fired, and no answer to a login or a
        refresh that was asked for before can change anything. */
    method ClearSession(message: string)
      requires Valid()
      modifies this
      ensures Valid() && View() == S.ClearSession(old(View()), message)
      ensures accessToken.None? && identity.None?
      ensures forall k: nat :: S.SignalFired(View(), k, false) <==> k <= old(controller)
      ensures forall asked: nat, reply | asked <= old(epoch) ::
        S.SelectAnswered(View(), asked, reply).0 == View() == S.RefreshAnswered(View(), asked, reply).0
    {
      epoch := epoch + 1;
      CancelRequests();
      accessToken := None;
      identity := None;
      sessionKey := sessionKey + 1;
      notice := message;
    }

    /** Returns false where the source throws. */
    method SetSession(session: S.Session, newSession: bool) returns (ok: bool)
      requires Valid()
      modifies this
      ensures Valid()
      ensures ok <==> S.SetSession(old(View()), session, newSession).Some?
      ensures View() == S.SetSession(old(View()), session, newSession).GetOr(old(View()))
    {
      if session.token == "" || session.user == "" || session.tenant == "" {
        return false;
      }
      var changed := newSession || identity.None? || identity.value.user != session.user
          || identity.value.tenant != session.tenant;
      if changed {
        aborted := aborted + {controller};
        controller := controller + 1;
        sessionKey := sessionKey + 1;
      }
      accessToken := Some(session.token);
      identity := Some(S.Identity(session.user, session.tenant));
      notice := "";
      return true;
    }

    method SelectAnswered(asked: nat, reply: S.Reply) returns (ending: S.Ending)
      requires Valid()
      modifies this
      ensures Valid()
      ensures (View(), ending) == S.SelectAnswered(old(View()), asked, reply)
    {
      if reply.Failed? {
        return S.Rejected(reply.status);
      }
      if asked != epoch {
        return S.Aborted;
      }
      epoch := epoch + 1;
      var ok := SetSession(reply.session, true);
      return if ok then S.Fulfilled else S.Rejected(502);
    }

    method RefreshCalled(id: nat) returns (shared: nat)
      requires Valid()
      modifies this
      ensures Valid()
      ensures View() == S.RefreshCalled(old(View()), id) && View().refreshing == Some(shared)
    {
      if refreshPromise.Some? {
        return refreshPromise.value;
      }
      refreshPromise := Some(id);
      return id;
    }

    method RefreshAnswered(asked: nat, reply: S.Reply) returns (ending: S.Ending)
      requires Valid()
      modifies this
      ensures Valid()
      ensures (View(), ending) == S.RefreshAnswered(old(View()), asked, reply)
    {
      match reply {
        case Accepted(session) =>
          if asked != epoch {
            return S.Aborted;
          }
          var ok := SetSession(session, false);
          return if ok then S.Fulfilled else S.Rejected(502);
        case Failed(status) =>
          if asked == epoch && status == 401 {
            ClearSession(S.EXPIRED_NOTICE);
          }
          return S.Rejected(status);
      }
    }

    method RefreshSettled(id: nat)
      requires Valid()
      modifies this
      ensures Valid()
      ensures View() == S.RefreshSettled(old(View()), id)
    {
      if refreshPromise == Some(id) {
        refreshPromise := None;
      }
    }

    method LogoutAnswered(ok: bool)
      requires Valid()
      modifies this
      ensures Valid()
      ensures View() == S.LogoutAnswered(old(View()), ok)
    {
      if ok {
        ClearSession(S.LOGOUT_NOTICE);
      }
    }

    /** The block of `authorizedRequest` after the error body has been read. */
    method BodyArrived(signal: nat, callerAborted: bool, token: string, attempt: int, expired: bool)
        returns (move: S.RequestMove)
      requires Valid()
      modifies this
      ensures Valid()
      ensures (View(), move) == S.BodyArrived(old(View()), signal, callerAborted, token, attempt, expired)
    {
      if callerAborted || signal in aborted {
        return S.Throw(S.Aborted);
      }
      if !expired || attempt == 1 {
        ClearSession(S.EXPIRED_NOTICE);
        return S.Throw(S.Rejected(401));
      }
      if accessToken == Some(token) {
        return S.AwaitRefresh;
      }
      if accessToken.None? {
        return S.Throw(S.Rejected(401));
      }
      return S.Send(accessToken.value);
    }
  }
}
