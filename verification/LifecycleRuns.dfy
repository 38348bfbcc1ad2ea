/** What the keep-alive timeout, the budget and the upgrade do to a connection and its session. */
module LifecycleRuns {
  import opened Lifecycle
  import opened RouterTable

  // ----- the timeout -----

  lemma TimeoutSteps(w: World, e: ConnEvent)
    requires ConnInv(w.c) && ConnExpects(w.c, e) && w.c.closingSoon
    ensures ConnStep(w, e).c.open ==> ConnStep(w, e).c.closingSoon
  {
    hide SessionInv, SessionStep, CancelSessions;
  }

  lemma {:induction false} ClosingSoonRun(w: World, events: seq<ConnEvent>)
    requires ConnInv(w.c) && w.c.closingSoon
    ensures ConnInv(ConnRun(w, events).c) && (ConnRun(w, events).c.open ==> ConnRun(w, events).c.closingSoon)
  {
    if events != [] {
      var w1, e := ConnRun(w, events[..|events| - 1]), events[|events| - 1];
      ClosingSoonRun(w, events[..|events| - 1]);
      if ConnExpects(w1.c, e) {
        ExpectsOpen(w1.c, e);
        TimeoutSteps(w1, e);
        ConnStepKeeps(w1, e);
      }
    }
  }

  /**
   The timeout of a connection that waits for a request is answered, whatever else happens meanwhile, and the answer
   closes the connection.
   */
  lemma IdleTimeoutCloses(w: World, events: seq<ConnEvent>)
    requires ConnInv(w.c) && ConnExpects(w.c, Timeout) && LastSession(w.c).phase == Receiving
    ensures var w2 := ConnRun(ConnStep(w, Timeout), events);
            w2.c.open ==> ConnExpects(w2.c, TimeoutAnswered) && !ConnStep(w2, TimeoutAnswered).c.open
  {
    hide SessionInv, CloseConnection;
    var w1 := ConnStep(w, Timeout);
    ConnStepKeeps(w, Timeout);
    assert w1.c.closingSoon;
    ClosingSoonRun(w1, events);
    var w2 := ConnRun(w1, events);
    if w2.c.open {
      CloseConnectionKeeps(w2);
    }
  }

  /** The same of any run of a server. */
  lemma IdleTimeoutInRuns(requestsCount: nat, events: seq<ServerEvent>, i: nat)
    requires var s := Run(NewServer(requestsCount), events);
             i < |s.conns| && s.conns[i].open && !s.conns[i].timedOut && s.conns[i].sessions != []
             && LastSession(s.conns[i]).phase == Receiving
    ensures var s2 := ServerStep(Run(NewServer(requestsCount), events), OfConnection(i, Timeout));
            && i < |s2.conns| && ConnExpects(s2.conns[i], TimeoutAnswered)
            && !ServerStep(s2, OfConnection(i, TimeoutAnswered)).conns[i].open
  {
    hide Run, SessionInv, CloseConnection;
    RunKeeps(requestsCount, events);
    var s := Run(NewServer(requestsCount), events);
    var w := World(s.conns[i], s.n);
    assert ConnInv(w.c);
    IdleTimeoutCloses(w, []);
    assert ConnRun(ConnStep(w, Timeout), []) == ConnStep(w, Timeout);
    ConnStepKeeps(w, Timeout);
    CloseConnectionKeeps(ConnStep(w, Timeout));
  }

  /** The `n`-th session got its request: until it ends no timeout is answered, and it ends only by its own answer. */
  ghost predicate Spared(c: ConnState, n: nat) {
    && ConnInv(c) && 0 < n <= |c.sessions|
    && (|c.sessions| == n && c.open ==> c.haveActiveSession && !c.closingSoon)
    && (c.sessions[n - 1].phase == Finished ==> |c.sessions[n - 1].answers| == 1 || c.sessions[n - 1].webSocket)
  }

  lemma SparedStep(w: World, e: ConnEvent, n: nat)
    requires Spared(w.c, n) && ConnExpects(w.c, e) && !e.Cancel?
    ensures Spared(ConnStep(w, e).c, n)
  {
    hide SessionInv, SessionStep, ConnInv, CloseConnection;
    ConnStepKeeps(w, e);
    match e
    case OfSession(i, event) =>
      OnlyLast(w.c, e);
      EndsAnswered(w.c, event);
      GoingUnfinished(w.c, event);
      SparedLast(w.c, n);
    case Timeout =>
    case TimeoutAnswered => SparedClosed(w, n);
    case Cancel =>
  }

  /** Only the last session can be unfinished. */
  lemma SparedLast(c: ConnState, n: nat)
    requires ConnInv(c) && 0 < n <= |c.sessions|
    ensures 0 < |c.sessions| && (n < |c.sessions| ==> c.sessions[n - 1].phase == Finished)
  {
    hide SessionInv;
    if n < |c.sessions| {
      assert FollowedBy(c.sessions[n - 1]);
    }
  }

  lemma EndsAnswered(c: ConnState, event: SessionEvent)
    requires ConnInv(c) && ConnExpects(c, OfSession(|c.sessions| - 1, event))
    ensures var o := SessionStep(LastSession(c), event, c.leftRequests == 0);
            o.Over? ==> |Finish(o.s).answers| == 1 || Finish(o.s).webSocket
  {
    hide SessionInv, SessionStep, Ends;
    LastInv(c);
    OverAnswered(LastSession(c), event, c.leftRequests == 0);
  }

  lemma OverAnswered(s: SessionState, e: SessionEvent, needClose: bool)
    requires SessionInv(s) && Expects(s.phase, e) && (e.MiddlewareReturned? ==> s.middlewares != [])
    ensures var o := SessionStep(s, e, needClose);
            o.Over? ==> |o.s.answers| == 1 || o.s.webSocket
  {
    hide SendResponse, DoMiddlewares, SessionInv;
    OutcomeIs(s, e, needClose);
    if e.Sent? || e.SendFailed? {
      SendingOne(s);
    } else if s.webSocket && (e.HandlerReturned? || e.HandlerFailed?) {
      FailureAnswered(s, e, needClose);
    }
  }

  lemma SendingOne(s: SessionState)
    requires SessionInv(s) && s.phase.Sending?
    ensures |s.answers| == 1
  {
  }

  lemma GoingUnfinished(c: ConnState, event: SessionEvent)
    requires ConnInv(c) && ConnExpects(c, OfSession(|c.sessions| - 1, event))
    ensures var o := SessionStep(LastSession(c), event, c.leftRequests == 0);
            o.Going? ==> o.s.phase != Finished && o.s.phase != Receiving
  {
    LastInv(c);
    hide SessionInv;
    SessionStepKeeps(LastSession(c), event, c.leftRequests == 0);
    KeptMeans(SessionStep(LastSession(c), event, c.leftRequests == 0));
  }

  lemma SparedClosed(w: World, n: nat)
    requires Spared(w.c, n) && ConnExpects(w.c, TimeoutAnswered)
    ensures Spared(CloseConnection(w).c, n)
  {
    hide SessionInv;
    SparedLast(w.c, n);
    CloseConnectionKeeps(w);
    CancelSessionsIs(w, 0);
  }

  lemma {:induction false} SparedRun(w: World, events: seq<ConnEvent>, n: nat)
    requires Spared(w.c, n) && Cancel !in events
    ensures Spared(ConnRun(w, events).c, n)
  {
    hide Spared;
    if events != [] {
      var w1, e := ConnRun(w, events[..|events| - 1]), events[|events| - 1];
      SparedRun(w, events[..|events| - 1], n);
      if ConnExpects(w1.c, e) {
        SparedStep(w1, e, n);
      }
    }
  }

  /**
   A session whose request was received before the timeout is served: until it ends no answer to a timeout closes
   the connection, and unless the connection is cancelled from outside it ends with its own answer, or as a web socket.
   */
  lemma ServedInSpite(w: World, request: SessionEvent, events: seq<ConnEvent>)
    requires ConnInv(w.c) && !w.c.closingSoon && request.Received?
    requires ConnExpects(w.c, OfSession(|w.c.sessions| - 1, request)) && Cancel !in events
    ensures var n, c := |w.c.sessions|, ConnRun(ConnStep(w, OfSession(|w.c.sessions| - 1, request)), events).c;
            && n <= |c.sessions|
            && (|c.sessions| == n && c.open ==> !ConnExpects(c, TimeoutAnswered))
            && (c.sessions[n - 1].phase == Finished ==> |c.sessions[n - 1].answers| == 1 || c.sessions[n - 1].webSocket)
  {
    hide ConnInv, ConnStep, ConnRun, Spared, Expects;
    LastInv(w.c);
    var e := OfSession(|w.c.sessions| - 1, request);
    ReceivedSpared(w, request);
    SparedRun(ConnStep(w, e), events, |w.c.sessions|);
    SparedMeans(ConnRun(ConnStep(w, e), events).c, |w.c.sessions|);
  }

  lemma SparedMeans(c: ConnState, n: nat)
    requires Spared(c, n)
    ensures 0 < n <= |c.sessions|
    ensures |c.sessions| == n && c.open ==> !ConnExpects(c, TimeoutAnswered)
    ensures c.sessions[n - 1].phase == Finished ==> |c.sessions[n - 1].answers| == 1 || c.sessions[n - 1].webSocket
  {
    hide ConnInv;
  }

  lemma ReceivedSpared(w: World, request: SessionEvent)
    requires ConnInv(w.c) && !w.c.closingSoon && request.Received?
    requires ConnExpects(w.c, OfSession(|w.c.sessions| - 1, request))
    ensures Spared(ConnStep(w, OfSession(|w.c.sessions| - 1, request)).c, |w.c.sessions|)
  {
    hide SessionInv, SessionStep;
    LastInv(w.c);
    ConnStepKeeps(w, OfSession(|w.c.sessions| - 1, request));
    OverLater(LastSession(w.c), request, w.c.leftRequests == 0);
    GoingUnfinished(w.c, request);
  }

  // ----- one session after another -----

  /** The event ends the session: its answer went out or was lost, or its web socket is done. */
  predicate Ends(s: SessionState, e: SessionEvent) {
    e.Sent? || e.SendFailed? || (s.webSocket && (e.HandlerReturned? || e.HandlerFailed?))
  }

  /**
   A session is followed by another exactly when its answer was sent, had promised to keep the connection, and
   requests are left; a session that ends otherwise closes the connection, and nothing else does.
   */
  lemma NextSessionIff(w: World, e: SessionEvent)
    requires ConnInv(w.c) && ConnExpects(w.c, OfSession(|w.c.sessions| - 1, e))
    ensures var s, c := LastSession(w.c), ConnStep(w, OfSession(|w.c.sessions| - 1, e)).c;
            var next := e.Sent? && s.answers != [] && s.answers[0].keepAlive && w.c.leftRequests > 0;
            && |c.sessions| == |w.c.sessions| + (if next then 1 else 0)
            && c.leftRequests == (if next then w.c.leftRequests - 1 else if c.open then w.c.leftRequests else 0)
            && (c.open <==> next || !Ends(s, e))
            && (next ==> LastSession(c).phase == Receiving && !c.haveActiveSession)
  {
    hide SessionInv, SessionStep;
    LastInv(w.c);
    OutcomeIs(LastSession(w.c), e, w.c.leftRequests == 0);
  }

  lemma OutcomeIs(s: SessionState, e: SessionEvent, needClose: bool)
    requires SessionInv(s) && Expects(s.phase, e) && (e.MiddlewareReturned? ==> s.middlewares != [])
    ensures var o := SessionStep(s, e, needClose);
            && (o.Over? <==> Ends(s, e))
            && (o.Over? && o.keepAlive <==> e.Sent? && s.answers != [] && s.answers[0].keepAlive)
  {
  }

  // ----- the answer -----

  /**
   What an answer says of the connection: close if the budget is spent or the request said so, or if the handler or
   the refusing middleware put the header; an error response carries no header of theirs.
   */
  lemma AnswerSays(s: SessionState, e: SessionEvent, needClose: bool)
    requires SessionInv(s) && Expects(s.phase, e) && (e.MiddlewareReturned? ==> s.middlewares != [])
    ensures var o := SessionStep(s, e, needClose);
            var close := needClose || (if e.Received? then e.requestCloses else s.requestCloses);
            o.Going? && o.s.phase.Sending? ==>
              && |o.s.answers| == 1 && o.s.answers[0].keepAlive == !close
              && (e.ReceiveFailed? || e.MiddlewareFailed? || e.HandshakeFailed? || e.HandlerFailed? ==>
                    o.s.answers[0].saysClose == close)
              && (e.HandlerReturned? ==> o.s.answers[0].saysClose == (close || e.closes))
              && (e.MiddlewareReturned? && !e.doNext ==> o.s.answers[0].saysClose == (close || e.closes))
  {
    hide SendResponse, DoMiddlewares, SessionInv;
    NoAnswerYet(s);
    if e.Received? {
      var chain := MiddlewaresOf(e.route);
      RefusedSays(
        s.(chain := chain, middlewares := chain, upgrade := e.upgrade, requestCloses := e.requestCloses), needClose);
    } else if e.MiddlewareReturned? {
      var s1 := s.(middlewares := s.middlewares[1..], responseCloses := e.closes);
      RefusedSays(s1, needClose);
      SendSays(s1.(refused := true), needClose);
    } else if e.HandlerReturned? {
      SendSays(s.(responseCloses := e.closes), needClose);
    } else if !e.Sent? && !e.SendFailed? && !e.HandshakeWritten? {
      SendSays(MakeResponseFromError(s), needClose);
    }
  }

  lemma SendSays(s: SessionState, needClose: bool)
    requires s.answers == []
    ensures var close := needClose || s.requestCloses;
            var o := SendResponse(s, needClose);
            o.Going? ==> o.s.answers == [Answer(close || s.responseCloses, !close)]
  {
  }

  lemma RefusedSays(s: SessionState, needClose: bool)
    requires s.answers == []
    ensures var close := needClose || s.requestCloses;
            var o := DoMiddlewares(s, needClose);
            o.Going? && o.s.phase.Sending? ==> o.s.answers == [Answer(close, !close)]
  {
    hide SendResponse;
    SendSays(MakeResponseFromError(s), needClose);
  }

  /** Every failure before the answer is answered, and so is a refusal; a web socket gets no answer. */
  lemma FailureAnswered(s: SessionState, e: SessionEvent, needClose: bool)
    requires Expects(s.phase, e) && (e.MiddlewareReturned? ==> s.middlewares != [])
    requires e.ReceiveFailed? || e.MiddlewareFailed? || e.HandshakeFailed? || e.HandlerFailed? || e.HandlerReturned?
             || (e.MiddlewareReturned? && !e.doNext)
    ensures var o := SessionStep(s, e, needClose);
            if s.webSocket then o == Over(o.s, false) && o.s.answers == s.answers && o.s.webSocket
            else o.Going? && o.s.phase.Sending? && o.s.handlerCalls == s.handlerCalls
  {
  }

  // ----- the upgrade -----

  /** Past the last middleware: the handler, the handshake or the refusal of the upgrade. */
  lemma UpgradeDecides(num: uint32, e: SessionEvent, closes: seq<bool>, needClose: bool)
    requires e.Received? && |closes| == |MiddlewaresOf(e.route)|
    ensures var chain, o := MiddlewaresOf(e.route), Passed(num, e, closes, needClose);
            && o.Going? && o.s.ran == chain && !o.s.webSocket
            && match e.upgrade
               case Plain => o.s.phase == Handling && o.s.handlerCalls == 1
               case WebSocket => o.s.phase == Upgrading && o.s.handlerCalls == 0
               case Rejected => o.s.phase.Sending? && o.s.handlerCalls == 0 && o.s.failed
  {
    hide SessionStep;
    var chain, k := MiddlewaresOf(e.route), |closes|;
    if k == 0 {
      FirstUpgrade(num, e, needClose);
    } else {
      MiddlewaresRun(num, e, closes[..k - 1], needClose);
      LastUpgrade(Passed(num, e, closes[..k - 1], needClose).s, closes[k - 1], needClose);
      assert chain[k - 1..][1..] == [] && chain[..k] == chain;
    }
  }

  lemma FirstUpgrade(num: uint32, e: SessionEvent, needClose: bool)
    requires e.Received? && MiddlewaresOf(e.route) == []
    ensures var o := SessionStep(NewSession(num), e, needClose);
            && o.Going? && o.s.ran == [] && !o.s.webSocket
            && match e.upgrade
               case Plain => o.s.phase == Handling && o.s.handlerCalls == 1
               case WebSocket => o.s.phase == Upgrading && o.s.handlerCalls == 0
               case Rejected => o.s.phase.Sending? && o.s.handlerCalls == 0 && o.s.failed
  {
  }

  lemma LastUpgrade(s: SessionState, closes: bool, needClose: bool)
    requires s.phase == Filtering && s.middlewares != [] && s.middlewares[1..] == []
    requires !s.webSocket && s.handlerCalls == 0
    ensures var o := SessionStep(s, MiddlewareReturned(true, closes), needClose);
            && o.Going? && o.s.ran == s.ran && !o.s.webSocket
            && match s.upgrade
               case Plain => o.s.phase == Handling && o.s.handlerCalls == 1
               case WebSocket => o.s.phase == Upgrading && o.s.handlerCalls == 0
               case Rejected => o.s.phase.Sending? && o.s.handlerCalls == 0 && o.s.failed
  {
  }

  /** While middlewares are left the upgrade does not matter. */
  lemma {:induction false} MiddlewaresRun(num: uint32, e: SessionEvent, closes: seq<bool>, needClose: bool)
    requires e.Received? && |closes| < |MiddlewaresOf(e.route)|
    ensures var chain, k, o := MiddlewaresOf(e.route), |closes|, Passed(num, e, closes, needClose);
            && o.Going? && o.s.phase == Filtering && o.s.upgrade == e.upgrade && !o.s.webSocket && o.s.handlerCalls == 0
            && o.s.ran == chain[..k + 1] && o.s.middlewares == chain[k..]
    decreases |closes|
  {
    hide SessionStep;
    var chain, k := MiddlewaresOf(e.route), |closes|;
    if k == 0 {
      FirstOfMany(num, e, needClose);
      assert chain[0..] == chain && chain[..1] == [chain[0]];
    } else {
      MiddlewaresRun(num, e, closes[..k - 1], needClose);
      OneOfMany(Passed(num, e, closes[..k - 1], needClose).s, closes[k - 1], needClose);
      NextOfChain(chain, k);
    }
  }

  lemma FirstOfMany(num: uint32, e: SessionEvent, needClose: bool)
    requires e.Received? && MiddlewaresOf(e.route) != []
    ensures var chain, o := MiddlewaresOf(e.route), SessionStep(NewSession(num), e, needClose);
            && o.Going? && o.s.phase == Filtering && o.s.upgrade == e.upgrade && !o.s.webSocket && o.s.handlerCalls == 0
            && o.s.ran == [chain[0]] && o.s.middlewares == chain
  {
  }

  lemma OneOfMany(s: SessionState, closes: bool, needClose: bool)
    requires s.phase == Filtering && |s.middlewares| > 1
    ensures SessionStep(s, MiddlewareReturned(true, closes), needClose) ==
            Going(s.(middlewares := s.middlewares[1..], responseCloses := closes, ran := s.ran + [s.middlewares[1]]))
  {
  }

  /** The handshake opens a web socket for the handler; when that is done the session ends without an answer. */
  lemma WebSocketRun(s: SessionState, e: SessionEvent, needClose: bool)
    requires SessionInv(s) && s.phase == Upgrading && (e.HandlerReturned? || e.HandlerFailed?)
    ensures var o := SessionStep(s, HandshakeWritten, needClose);
            && o.Going? && o.s.phase == Handling && o.s.handlerCalls == 1
            && var o2 := SessionStep(o.s, e, needClose);
               o2.Over? && !o2.keepAlive && o2.s.answers == [] && o2.s.handlerCalls == 1
  {
  }
}
