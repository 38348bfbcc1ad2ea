/**
 Server, connection and session as objects that call each other, each method shown to take the machine
 of `Lifecycle` through the step of its event.
 */
module LifecycleObjects {
  import opened RouterTable
  import opened Lifecycle

  class ServerImpl {
    const requestsCount: nat

    var activeConnectionCount: uint32
    var activeSessionCount: uint32
    var connectionCounter: uint32
    var sessionCounter: uint32

    constructor (requestsCount: nat)
      ensures this.requestsCount == requestsCount && Counted() == NewServer(requestsCount).n
    {
      this.requestsCount := requestsCount;
      activeConnectionCount, activeSessionCount, connectionCounter, sessionCounter := 0, 0, 0, 0;
    }

    function Counted(): Counters
      reads this
    {
      Counters(activeConnectionCount, activeSessionCount, connectionCounter, sessionCounter)
    }

    method StartSession() returns (num: uint32)
      modifies this
      ensures num == Inc(old(sessionCounter))
      ensures Counted() == old(Counted()).(sessionCounter := num, activeSessions := Inc(old(activeSessionCount)))
    {
      sessionCounter := Inc(sessionCounter);
      activeSessionCount := Inc(activeSessionCount);
      num := sessionCounter;
    }

    method SessionFinished()
      modifies this
      ensures Counted() == old(Counted()).(activeSessions := Dec(old(activeSessionCount)))
    {
      activeSessionCount := Dec(activeSessionCount);
    }

    method ConnectionClosed()
      modifies this
      ensures Counted() == old(Counted()).(activeConnections := Dec(old(activeConnectionCount)))
    {
      activeConnectionCount := Dec(activeConnectionCount);
    }

    /** The continuation of `accept`. */
    method AcceptConnection() returns (connection: Connection)
      modifies this
      ensures fresh(connection) && connection.Valid() && connection.ctx == this
      ensures connection.Now() ==
              OpenConnection(old(Counted()).(activeConnections := Inc(old(activeConnectionCount)),
                                             connectionCounter := Inc(old(connectionCounter))), requestsCount)
    {
      activeConnectionCount := Inc(activeConnectionCount);
      connectionCounter := Inc(connectionCounter);
      NewConnectionKeeps(Counted(), requestsCount);
      connection := new Connection(this);
      connection.StartSession();
    }
  }

  class Connection {
    const ctx: ServerImpl

    var leftRequests: nat
    var haveActiveSession: bool

    // Children of the connection's context, and the state of that context.
    var session: Session?
    var closing: bool

    ghost var open: bool
    ghost var timedOut: bool
    ghost var closingSoon: bool
    ghost const budget: nat
    // The sessions that are gone.
    ghost var past: seq<SessionState>

    constructor (ctx: ServerImpl)
      ensures this.ctx == ctx && session == null
      ensures State() == ConnState(Budget(ctx.requestsCount), false, true, false, false, Budget(ctx.requestsCount), [])
      ensures !closing
    {
      this.ctx := ctx;
      leftRequests := if ctx.requestsCount > 0 then ctx.requestsCount else 1;
      haveActiveSession, session, closing := false, null, false;
      open, timedOut, closingSoon, budget, past := true, false, false, Budget(ctx.requestsCount), [];
    }

    ghost function State(): ConnState
      reads this, session
    {
      ConnState(leftRequests, haveActiveSession, open, timedOut, closingSoon, budget,
                past + if session == null then [] else [session.State()])
    }

    ghost function Now(): World
      reads this, session, ctx
    {
      World(State(), ctx.Counted())
    }

    /** Now, but for the current session, which is in another state. */
    ghost function With(s: SessionState): World
      requires session != null
      reads this, session, ctx
    {
      World(WithSession(State(), |past|, s), ctx.Counted())
    }

    /** Between two callbacks the session there is belongs to the connection, and open says what the context is. */
    ghost predicate Steady()
      reads this, session
    {
      session != null && session.ctx == this && session.Consistent() && (closing <==> !open)
    }

    ghost predicate Valid()
      reads this, session
    {
      Steady() && ConnInv(State())
    }

    method ProcessTimeout()
      requires Valid() && ConnExpects(State(), Timeout)
      modifies this
      ensures Valid() && Now() == ConnStep(old(Now()), Timeout)
    {
      timedOut := true;
      leftRequests := 0;
      if haveActiveSession {
        return;
      }
      closingSoon := true;
    }

    method SessionReceivedRequest()
      modifies this`haveActiveSession
      ensures haveActiveSession
    {
      haveActiveSession := true;
    }

    method SessionNeedClose() returns (needClose: bool)
      ensures needClose <==> leftRequests == 0
    {
      needClose := leftRequests == 0;
    }

    method StartSession()
      requires leftRequests > 0 && (session != null ==> session.ctx == this)
      modifies this`leftRequests, this`session, this`past, ctx
      ensures Now() == Lifecycle.StartSession(old(Now()))
      ensures fresh(session) && session.ctx == this && session.Consistent()
    {
      leftRequests := leftRequests - 1;
      var num := ctx.StartSession();
      past := past + if session == null then [] else [session.State()];
      session := new Session(num, this);
    }

    method SessionFinished(keepAlive: bool)
      requires session != null && session.ctx == this && session.finished && (closing ==> !keepAlive)
      requires !closing ==> session.Consistent() && open
      modifies this, ctx
      ensures !old(closing) ==> Now() == Lifecycle.SessionFinished(old(Now()), keepAlive) && Steady()
      ensures !old(closing) ==> session == old(session) || fresh(session)
      ensures old(closing) ==> Now() == Reported(old(Now())) && closing && session == old(session)
      decreases (if closing then 0 else 1) + (if session != null && session.finished then 0 else 2), 1
    {
      haveActiveSession := false;
      ctx.SessionFinished();
      if !keepAlive {
        leftRequests := 0;
      }
      if leftRequests > 0 {
        StartSession();
      } else {
        CloseContext();
      }
    }

    /** Closing the connection's context closes the context of its session first, and then calls the close handler. */
    method CloseContext()
      requires session != null && session.ctx == this && (closing || (session.Consistent() && open))
      modifies this, ctx, if session == null || session.finished then {} else {session}
      ensures closing && session == old(session) && (old(closing) ==> Now() == old(Now()))
      ensures !old(closing) ==> Steady() && !open
      ensures !old(closing) ==> Now() == Lifecycle.Closed(if old(session.finished) then old(Now()) else
                                                Reported(old(With(Cancelled(session.State())))))
      decreases (if closing then 0 else 1) + (if session != null && session.finished then 0 else 2), 0
    {
      if closing {
        return;
      }
      closing := true;
      if !session.finished {
        session.CloseContext();
      }
      AoContextClose();
    }

    /** The context is closed from outside, or by the answer to the timeout. */
    method Cancel()
      requires Valid() && open
      modifies this, ctx, session
      ensures Valid() && Now() == CloseConnection(old(Now()))
    {
      hide SessionInv;
      CloseConnectionKeeps(Now());
      CancelSessionsIs(Now(), 0);
      CloseContext();
    }

    method AoContextClose()
      modifies this`open, ctx
      ensures Now() == Lifecycle.Closed(old(Now())) && !open
    {
      ctx.ConnectionClosed();
      open := false;
    }
  }

  class Session {
    const num: uint32
    const ctx: Connection

    var finished: bool
    var middlewares: seq<Middleware>
    // What the session asks of the headers of the request and of the response.
    var upgrade: Upgrade
    var requestCloses: bool
    var responseCloses: bool
    var webSocket: bool
    // The state of the session's context.
    var closing: bool

    ghost var phase: Phase
    ghost var chain: seq<Middleware>
    ghost var ran: seq<Middleware>
    ghost var handlerCalls: nat
    ghost var answers: seq<Answer>
    ghost var finishCalls: nat
    ghost var refused: bool
    ghost var failed: bool
    ghost var deleted: bool

    constructor (num: uint32, ctx: Connection)
      ensures this.ctx == ctx && State() == NewSession(num) && Consistent() && !finished
    {
      closing, deleted := false, false;
      this.num, this.ctx := num, ctx;
      finished, middlewares, upgrade, requestCloses, responseCloses, webSocket := false, [], Plain, false, false, false;
      phase, chain, ran, handlerCalls, answers := Receiving, [], [], 0, [];
      finishCalls, refused, failed := 0, false, false;
    }

    ghost function State(): SessionState
      reads this
    {
      SessionState(num, phase, middlewares, upgrade, webSocket, requestCloses, responseCloses,
                   chain, ran, handlerCalls, answers, finishCalls, refused, failed)
    }

    /** Between two callbacks a session is either alive or gone. */
    ghost predicate Consistent()
      reads this
    {
      (finished <==> phase == Phase.Finished) && (finished <==> closing) && (finished <==> deleted)
    }

    /** The one live session of its connection, at a callback. */
    ghost predicate Live()
      reads this, ctx, ctx.session
    {
      ctx.Steady() && ctx.session == this && !finished && ctx.open
    }

    // ----- sending the response -----

    method NeedClose() returns (needClose: bool)
      ensures needClose <==> ctx.leftRequests == 0 || requestCloses
    {
      needClose := ctx.SessionNeedClose();
      if needClose {
        return;
      }
      needClose := requestCloses;
    }

    /** Sends the response, or none on a web socket; `finished` is called when it is sent. */
    method SendResponse()
      requires Live()
      modifies this, ctx, ctx.ctx
      ensures ctx.Steady() && ctx.Now() == Told(old(ctx.Now()), |old(ctx.past)|,
                                                Lifecycle.SendResponse(old(State()), old(ctx.leftRequests) == 0))
    {
      if webSocket {
        Finished(false);
        return;
      }
      var needAddClose := NeedClose();
      if needAddClose {
        responseCloses := true;
      }
      phase, answers := Sending(!needAddClose), answers + [Answer(responseCloses, !needAddClose)];
    }

    /** Calls the front middleware, or what comes after the last. */
    method DoMiddlewares()
      requires Live()
      modifies this, ctx, ctx.ctx
      ensures ctx.Steady() && ctx.Now() == Told(old(ctx.Now()), |old(ctx.past)|,
                                                Lifecycle.DoMiddlewares(old(State()), old(ctx.leftRequests) == 0))
    {
      if middlewares == [] {
        ProcessUpgrade();
        return;
      }
      phase, ran := Filtering, ran + [middlewares[0]];
    }

    /** After the middlewares: the web socket handshake if the request asks for it, or the handler. */
    method ProcessUpgrade()
      requires Live() && middlewares == []
      modifies this, ctx, ctx.ctx
      ensures ctx.Steady() && ctx.Now() == Told(old(ctx.Now()), |old(ctx.past)|,
                                                Lifecycle.DoMiddlewares(old(State()), old(ctx.leftRequests) == 0))
    {
      if upgrade == Rejected {
        MakeResponseFromError();
        SendResponse();
      } else if upgrade == WebSocket {
        phase := Upgrading;
      } else {
        CallHandler();
      }
    }

    method CallHandler()
      modifies this`phase, this`handlerCalls
      ensures State() == Lifecycle.CallHandler(old(State()))
    {
      phase, handlerCalls := Handling, handlerCalls + 1;
    }

    method MakeResponseFromError()
      modifies this`responseCloses, this`failed
      ensures State() == Lifecycle.MakeResponseFromError(old(State()))
    {
      responseCloses, failed := false, true;
    }

    lemma StepKeeps(e: SessionEvent)
      requires ctx.Valid() && Live() && Expects(phase, e)
      ensures ConnExpects(ctx.State(), OfSession(|ctx.past|, e)) && |ctx.past| == |ctx.State().sessions| - 1
      ensures e.MiddlewareReturned? ==> middlewares != []
      ensures ConnInv(ConnStep(ctx.Now(), OfSession(|ctx.past|, e)).c)
    {
      hide SessionInv;
      LastInv(ctx.State());
      SessionStepKeeps(State(), e, ctx.leftRequests == 0);
      ConnStepKeeps(ctx.Now(), OfSession(|ctx.past|, e));
    }

    /** What is told does not depend on the state the session was in. */
    lemma Retold(w: World)
      requires ctx.session == this && |w.c.sessions| == |ctx.past| + 1 && w == ctx.With(w.c.sessions[|ctx.past|])
      ensures forall o: Outcome :: Told(w, |ctx.past|, o) == Told(ctx.Now(), |ctx.past|, o)
    {
      var w1, i := ctx.Now(), |ctx.past|;
      forall s: SessionState
        ensures WithSession(w.c, i, s) == WithSession(w1.c, i, s)
      {
        assert WithSession(w.c, i, s).sessions == WithSession(w1.c, i, s).sessions;
      }
    }

    // ----- the callbacks -----

    method RequestReceived(route: RouteResult, upgrade: Upgrade, requestCloses: bool)
      requires ctx.Valid() && Live() && Expects(phase, Received(route, upgrade, requestCloses))
      modifies this, ctx, ctx.ctx
      ensures ctx.Valid()
      ensures ctx.Now() == ConnStep(old(ctx.Now()), OfSession(|old(ctx.past)|, Received(route, upgrade, requestCloses)))
    {
      hide SessionInv, ConnInv, ConnStep, Told, Lifecycle.DoMiddlewares;
      StepKeeps(Received(route, upgrade, requestCloses));
      ReceivedIs(ctx.Now(), |ctx.past|, Received(route, upgrade, requestCloses));
      ctx.SessionReceivedRequest();
      ghost var w := ctx.Now();
      chain, middlewares := MiddlewaresOf(route), MiddlewaresOf(route);
      this.upgrade, this.requestCloses := upgrade, requestCloses;
      Retold(w);
      DoMiddlewares();
    }

    method RequestFailed()
      requires ctx.Valid() && Live() && Expects(phase, ReceiveFailed)
      modifies this, ctx, ctx.ctx
      ensures ctx.Valid() && ctx.Now() == ConnStep(old(ctx.Now()), OfSession(|old(ctx.past)|, ReceiveFailed))
    {
      hide SessionInv, ConnInv;
      StepKeeps(ReceiveFailed);
      ghost var w := ctx.Now();
      MakeResponseFromError();
      Retold(w);
      SendResponse();
    }

    method MiddlewareDone(doNext: bool, closes: bool)
      requires ctx.Valid() && Live() && Expects(phase, MiddlewareReturned(doNext, closes))
      modifies this, ctx, ctx.ctx
      ensures ctx.Valid()
      ensures ctx.Now() == ConnStep(old(ctx.Now()), OfSession(|old(ctx.past)|, MiddlewareReturned(doNext, closes)))
    {
      hide SessionInv, ConnInv, ConnStep, Told, Lifecycle.DoMiddlewares, Lifecycle.SendResponse;
      StepKeeps(MiddlewareReturned(doNext, closes));
      MiddlewareIs(ctx.Now(), |ctx.past|, MiddlewareReturned(doNext, closes));
      ghost var w := ctx.Now();
      responseCloses := closes;
      middlewares := middlewares[1..];
      if doNext {
        Retold(w);
        DoMiddlewares();
      } else {
        refused := true;
        Retold(w);
        SendResponse();
      }
    }

    method MiddlewareThrew()
      requires ctx.Valid() && Live() && Expects(phase, MiddlewareFailed)
      modifies this, ctx, ctx.ctx
      ensures ctx.Valid() && ctx.Now() == ConnStep(old(ctx.Now()), OfSession(|old(ctx.past)|, MiddlewareFailed))
    {
      hide SessionInv, ConnInv;
      StepKeeps(MiddlewareFailed);
      ghost var w := ctx.Now();
      MakeResponseFromError();
      Retold(w);
      SendResponse();
    }

    method HandshakeDone()
      requires ctx.Valid() && Live() && Expects(phase, HandshakeWritten)
      modifies this, ctx, ctx.ctx
      ensures ctx.Valid() && ctx.Now() == ConnStep(old(ctx.Now()), OfSession(|old(ctx.past)|, HandshakeWritten))
    {
      hide SessionInv, ConnInv;
      StepKeeps(HandshakeWritten);
      ghost var w := ctx.Now();
      webSocket := true;
      CallHandler();
      Retold(w);
      assert ctx.Now() == Told(ctx.Now(), |ctx.past|, Going(State())) by {
        assert ctx.State().sessions[|ctx.past| := State()] == ctx.State().sessions;
      }
    }

    method HandshakeThrew()
      requires ctx.Valid() && Live() && Expects(phase, HandshakeFailed)
      modifies this, ctx, ctx.ctx
      ensures ctx.Valid() && ctx.Now() == ConnStep(old(ctx.Now()), OfSession(|old(ctx.past)|, HandshakeFailed))
    {
      hide SessionInv, ConnInv;
      StepKeeps(HandshakeFailed);
      ghost var w := ctx.Now();
      MakeResponseFromError();
      Retold(w);
      SendResponse();
    }

    method HandlerDone(closes: bool)
      requires ctx.Valid() && Live() && Expects(phase, HandlerReturned(closes))
      modifies this, ctx, ctx.ctx
      ensures ctx.Valid() && ctx.Now() == ConnStep(old(ctx.Now()), OfSession(|old(ctx.past)|, HandlerReturned(closes)))
    {
      hide SessionInv, ConnInv;
      StepKeeps(HandlerReturned(closes));
      ghost var w := ctx.Now();
      responseCloses := closes;
      Retold(w);
      SendResponse();
    }

    method HandlerThrew()
      requires ctx.Valid() && Live() && Expects(phase, HandlerFailed)
      modifies this, ctx, ctx.ctx
      ensures ctx.Valid() && ctx.Now() == ConnStep(old(ctx.Now()), OfSession(|old(ctx.past)|, HandlerFailed))
    {
      hide SessionInv, ConnInv;
      StepKeeps(HandlerFailed);
      ghost var w := ctx.Now();
      MakeResponseFromError();
      Retold(w);
      SendResponse();
    }

    /** The continuation has captured what to report. */
    method ResponseSent(keepAlive: bool)
      requires ctx.Valid() && Live() && phase == Sending(keepAlive)
      modifies this, ctx, ctx.ctx
      ensures ctx.Valid() && ctx.Now() == ConnStep(old(ctx.Now()), OfSession(|old(ctx.past)|, Sent))
    {
      hide SessionInv, ConnInv;
      StepKeeps(Sent);
      Finished(keepAlive);
    }

    method ResponseLost()
      requires ctx.Valid() && Live() && Expects(phase, SendFailed)
      modifies this, ctx, ctx.ctx
      ensures ctx.Valid() && ctx.Now() == ConnStep(old(ctx.Now()), OfSession(|old(ctx.past)|, SendFailed))
    {
      hide SessionInv, ConnInv;
      StepKeeps(SendFailed);
      ghost var w := ctx.Now();
      failed := true;
      Retold(w);
      Finished(false);
    }

    // ----- the end -----

    method Finished(keepAlive: bool)
      requires !finished && phase != Phase.Finished && !deleted && ctx.session == this
      requires (closing <==> ctx.closing) && (if closing then !keepAlive else ctx.open)
      modifies this, ctx, ctx.ctx
      ensures State() == old(Finish(State())) && finished && closing && (deleted <==> !old(closing))
      ensures !old(closing) ==> ctx.Now() == SessionFinished(old(ctx.With(Finish(State()))), keepAlive)
      ensures !old(closing) ==> ctx.Steady() && (ctx.session == this || fresh(ctx.session))
      ensures old(closing) ==>
                ctx.Now() == Reported(old(ctx.With(Finish(State())))) && ctx.closing && ctx.session == this
      decreases (if ctx.closing then 0 else 1) + (if finished then 0 else 2), 2
    {
      hide Cancelled, Lifecycle.SessionFinished;
      ghost var w := ctx.With(Finish(State()));
      finished := true;
      phase, finishCalls := Phase.Finished, finishCalls + 1;
      CloseContext();
      assert ctx.Now() == w by {
        assert ctx.State().sessions == w.c.sessions;
      }
      ctx.SessionFinished(keepAlive);
    }

    /** Closing the session's context calls its close handler, once. */
    method CloseContext()
      requires ctx.session == this && !deleted && (finished <==> phase == Phase.Finished)
      requires !finished ==> !closing && ctx.closing
      modifies this, ctx, ctx.ctx
      ensures old(finished) ==> State() == old(State()) && finished && closing && (deleted <==> !old(closing))
      ensures old(finished) ==> ctx.Now() == old(ctx.Now()) && ctx.closing == old(ctx.closing) && ctx.session == this
      ensures !old(finished) ==> State() == old(Cancelled(State())) && Consistent() && finished
      ensures !old(finished) ==> ctx.Now() == Reported(old(ctx.With(Cancelled(State()))))
      ensures !old(finished) ==> ctx.closing && ctx.session == this
      decreases (if ctx.closing then 0 else 1) + (if finished then 0 else 2), 4
    {
      if closing {
        return;
      }
      closing := true;
      AoContextClose();
    }

    method AoContextClose()
      requires ctx.session == this && !deleted && closing && (finished <==> phase == Phase.Finished)
      requires !finished ==> ctx.closing
      modifies this, ctx, ctx.ctx
      ensures Consistent() && finished && ctx.closing == old(ctx.closing) && ctx.session == this
      ensures State() == old(Cancelled(State()))
      ensures ctx.Now() == if old(finished) then old(ctx.Now()) else Reported(old(ctx.With(Cancelled(State()))))
      decreases (if ctx.closing then 0 else 1) + (if finished then 0 else 2), 3
    {
      if !finished {
        failed := true;
        Finished(false);
      }
      Delete();
    }

    /** The destructor, with what it asserts. */
    method Delete()
      requires finished && !deleted
      modifies this`deleted
      ensures deleted
    {
      deleted := true;
    }
  }
}
