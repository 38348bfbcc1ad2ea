/**
 Server, connections and sessions as a machine over events, and what holds after every run of it.

 An event that its receiver does not expect changes nothing: the callbacks of one context are serialized,
 and none is called after the context is closed. Closing a context closes its children first.
 */
module Lifecycle {
  import opened RouterPath
  import opened RouterSearch
  import opened RouterTable

  const UINT32: nat := 0x1_0000_0000

  type uint32 = n: nat | n < UINT32

  function Inc(n: uint32): uint32 {
    (n + 1) % UINT32
  }

  function Dec(n: uint32): uint32 {
    (n + UINT32 - 1) % UINT32
  }

  // ----- sessions -----

  /** What a session waits for. */
  datatype Phase =
    | Receiving                  // the request
    | Filtering                  // the front middleware
    | Upgrading                  // the handshake being written
    | Handling                   // the handler
    | Sending(keepAlive: bool)   // the response being written
    | Finished

  /** What `isWebSocketRequest` makes of the request; it rejects by throwing. */
  datatype Upgrade = Plain | WebSocket | Rejected

  /** A response on its way: whether its headers say `Connection: close`, and what the session reports after it. */
  datatype Answer = Answer(saysClose: bool, keepAlive: bool)

  datatype SessionState = SessionState(
    num: uint32,
    phase: Phase,
    middlewares: seq<Middleware>,
    upgrade: Upgrade,
    webSocket: bool,
    requestCloses: bool,
    responseCloses: bool,
    // the history of the session
    chain: seq<Middleware>,
    ran: seq<Middleware>,
    handlerCalls: nat,
    answers: seq<Answer>,
    finishCalls: nat,
    refused: bool,
    failed: bool)

  function NewSession(num: uint32): SessionState {
    SessionState(num, Receiving, [], Plain, false, false, false, [], [], 0, [], 0, false, false)
  }

  /** A flag `closes` says whether the response now carries `Connection: close`. */
  datatype SessionEvent =
    | Received(route: RouteResult, upgrade: Upgrade, requestCloses: bool)
    | ReceiveFailed
    | MiddlewareReturned(doNext: bool, closes: bool)
    | MiddlewareFailed
    | HandshakeWritten
    | HandshakeFailed
    | HandlerReturned(closes: bool)
    | HandlerFailed
    | Sent
    | SendFailed

  predicate Expects(phase: Phase, e: SessionEvent) {
    match e
    case Received(_, _, _) => phase == Receiving
    case ReceiveFailed => phase == Receiving
    case MiddlewareReturned(_, _) => phase == Filtering
    case MiddlewareFailed => phase == Filtering
    case HandshakeWritten => phase == Upgrading
    case HandshakeFailed => phase == Upgrading
    case HandlerReturned(_) => phase == Handling
    case HandlerFailed => phase == Handling
    case Sent => phase.Sending?
    case SendFailed => phase.Sending?
  }

  /** After an event a session goes on or calls `finished`. */
  datatype Outcome = Going(s: SessionState) | Over(s: SessionState, keepAlive: bool)

  function SendResponse(s: SessionState, needClose: bool): Outcome {
    if s.webSocket then Over(s, false)
    else
      var close := needClose || s.requestCloses;
      var says := close || s.responseCloses;
      Going(s.(phase := Sending(!close), responseCloses := says, answers := s.answers + [Answer(says, !close)]))
  }

  /** The response becomes the one made from the error. */
  function MakeResponseFromError(s: SessionState): SessionState {
    s.(responseCloses := false, failed := true)
  }

  function CallHandler(s: SessionState): SessionState {
    s.(phase := Handling, handlerCalls := s.handlerCalls + 1)
  }

  function DoMiddlewares(s: SessionState, needClose: bool): Outcome {
    if s.middlewares != [] then Going(s.(phase := Filtering, ran := s.ran + [s.middlewares[0]]))
    else if s.upgrade == Rejected then SendResponse(MakeResponseFromError(s), needClose)
    else if s.upgrade == WebSocket then Going(s.(phase := Upgrading))
    else Going(CallHandler(s))
  }

  function MiddlewaresOf(route: RouteResult): seq<Middleware> {
    if route.Routed? then route.middlewares else []
  }

  function SessionStep(s: SessionState, e: SessionEvent, needClose: bool): Outcome
    requires Expects(s.phase, e)
    requires e.MiddlewareReturned? ==> s.middlewares != []
  {
    match e
    case Received(route, upgrade, requestCloses) =>
      var chain := MiddlewaresOf(route);
      DoMiddlewares(
        s.(chain := chain, middlewares := chain, upgrade := upgrade, requestCloses := requestCloses), needClose)
    case MiddlewareReturned(doNext, closes) =>
      var s1 := s.(middlewares := s.middlewares[1..], responseCloses := closes);
      if doNext then DoMiddlewares(s1, needClose) else SendResponse(s1.(refused := true), needClose)
    case HandshakeWritten => Going(CallHandler(s.(webSocket := true)))
    case HandlerReturned(closes) => SendResponse(s.(responseCloses := closes), needClose)
    case Sent => Over(s, s.phase.keepAlive)
    case SendFailed => Over(s.(failed := true), false)
    case ReceiveFailed => SendResponse(MakeResponseFromError(s), needClose)
    case MiddlewareFailed => SendResponse(MakeResponseFromError(s), needClose)
    case HandshakeFailed => SendResponse(MakeResponseFromError(s), needClose)
    case HandlerFailed => SendResponse(MakeResponseFromError(s), needClose)
  }

  function Finish(s: SessionState): SessionState {
    s.(phase := Finished, finishCalls := s.finishCalls + 1)
  }

  /** `Session::aoContextClose` */
  function Cancelled(s: SessionState): SessionState {
    if s.phase == Finished then s else Finish(s.(failed := true))
  }

  ghost predicate SessionInv(s: SessionState) {
    // the middlewares run are a prefix of the chain; those not yet done are its rest
    && s.ran <= s.chain
    && (s.phase == Receiving ==> s.chain == s.middlewares == [])
    && (s.phase == Filtering ==> s.ran != [] && s.middlewares == s.chain[|s.ran| - 1..])
    // the handler runs at most once, after the whole chain let the request pass
    && s.handlerCalls <= 1
    && (s.handlerCalls == 1 ==> s.ran == s.chain && !s.refused && s.upgrade != Rejected)
    && (s.phase in {Receiving, Filtering, Upgrading} ==> s.handlerCalls == 0 && !s.webSocket && !s.refused && !s.failed)
    && (s.phase == Upgrading ==> s.ran == s.chain && s.upgrade == WebSocket)
    && (s.phase == Handling ==> s.handlerCalls == 1 && !s.failed)
    // and it does run unless a middleware refused, something failed or the session was cancelled
    && (s.phase.Sending? || s.phase == Finished ==> s.handlerCalls == 1 || s.refused || s.failed)
    // at most one response, none on a web socket
    && |s.answers| <= 1
    && (s.phase.Sending? <==> |s.answers| == 1 && s.phase != Finished)
    && (s.phase.Sending? ==> s.phase.keepAlive == s.answers[0].keepAlive)
    && (s.webSocket ==> s.answers == [])
    && (|s.answers| == 1 && s.answers[0].keepAlive ==> !s.requestCloses && s.answers[0].saysClose == s.responseCloses)
    // `sessionFinished` is called once, at the end
    && s.finishCalls == (if s.phase == Finished then 1 else 0)
  }

  /** A session about to answer: the invariant but for the phase. */
  ghost predicate Answering(s: SessionState) {
    && s.ran <= s.chain && s.handlerCalls <= 1
    && (s.handlerCalls == 1 ==> s.ran == s.chain && !s.refused && s.upgrade != Rejected)
    && (s.handlerCalls == 1 || s.refused || s.failed)
    && s.answers == [] && s.finishCalls == 0 && s.phase != Finished
  }

  /** The invariant after a step: what `finished` is called on is finished by it. */
  ghost predicate Kept(o: Outcome) {
    if o.Going? then SessionInv(o.s) && o.s.phase != Finished && o.s.phase != Receiving else SessionInv(Finish(o.s))
  }

  lemma SendResponseKeeps(s: SessionState, needClose: bool)
    requires Answering(s)
    ensures Kept(SendResponse(s, needClose))
  {
  }

  /** A session between two middlewares, or after the last. */
  ghost predicate Passing(s: SessionState) {
    && s.ran <= s.chain && s.middlewares == s.chain[|s.ran|..]
    && s.handlerCalls == 0 && !s.webSocket && !s.refused && !s.failed
    && s.answers == [] && s.finishCalls == 0 && s.phase != Finished
  }

  lemma DoMiddlewaresKeeps(s: SessionState, needClose: bool)
    requires Passing(s)
    ensures Kept(DoMiddlewares(s, needClose))
  {
    hide SendResponse, Kept;
    if s.middlewares != [] {
      FilteringKeeps(s, needClose);
    } else {
      assert s.ran == s.chain;
      if s.upgrade == Rejected {
        SendResponseKeeps(MakeResponseFromError(s), needClose);
      } else {
        AdmittedKeeps(s, needClose);
      }
    }
  }

  lemma FilteringKeeps(s: SessionState, needClose: bool)
    requires Passing(s) && s.middlewares != []
    ensures Kept(DoMiddlewares(s, needClose))
  {
    assert s.ran + [s.middlewares[0]] == s.chain[..|s.ran| + 1];
  }

  lemma AdmittedKeeps(s: SessionState, needClose: bool)
    requires Passing(s) && s.middlewares == [] && s.ran == s.chain && s.upgrade != Rejected
    ensures Kept(DoMiddlewares(s, needClose))
  {
  }

  lemma MiddlewareFront(s: SessionState)
    requires SessionInv(s) && s.phase == Filtering
    ensures s.middlewares != [] && s.middlewares[1..] == s.chain[|s.ran|..]
  {
  }

  lemma SessionStepKeeps(s: SessionState, e: SessionEvent, needClose: bool)
    requires SessionInv(s) && Expects(s.phase, e)
    ensures e.MiddlewareReturned? ==> s.middlewares != []
    ensures Kept(SessionStep(s, e, needClose))
  {
    if e.Received? {
      PassingFirst(s, e, needClose);
    } else if e.MiddlewareReturned? {
      MiddlewareStepKeeps(s, e, needClose);
    } else if e.Sent? || e.SendFailed? {
    } else if e.HandshakeWritten? {
    } else {
      AnswerStepKeeps(s, e, needClose);
    }
  }

  lemma PassingFirst(s: SessionState, e: SessionEvent, needClose: bool)
    requires SessionInv(s) && s.phase == Receiving && e.Received?
    ensures Kept(SessionStep(s, e, needClose))
  {
    hide Kept, DoMiddlewares;
    var chain := MiddlewaresOf(e.route);
    assert chain[0..] == chain;
    var s1 := s.(chain := chain, middlewares := chain, upgrade := e.upgrade, requestCloses := e.requestCloses);
    DoMiddlewaresKeeps(s1, needClose);
  }

  lemma MiddlewareStepKeeps(s: SessionState, e: SessionEvent, needClose: bool)
    requires SessionInv(s) && s.phase == Filtering && e.MiddlewareReturned?
    ensures s.middlewares != [] && Kept(SessionStep(s, e, needClose))
  {
    MiddlewareFront(s);
    hide Kept, DoMiddlewares, SendResponse;
    var s1 := s.(middlewares := s.middlewares[1..], responseCloses := e.closes);
    if e.doNext {
      DoMiddlewaresKeeps(s1, needClose);
    } else {
      SendResponseKeeps(s1.(refused := true), needClose);
    }
  }

  lemma AnswerStepKeeps(s: SessionState, e: SessionEvent, needClose: bool)
    requires SessionInv(s) && Expects(s.phase, e)
    requires e.ReceiveFailed? || e.MiddlewareFailed? || e.HandshakeFailed? || e.HandlerFailed? || e.HandlerReturned?
    ensures Kept(SessionStep(s, e, needClose))
  {
    hide Kept, SendResponse;
    if e.HandlerReturned? {
      SendResponseKeeps(s.(responseCloses := e.closes), needClose);
    } else {
      SendResponseKeeps(MakeResponseFromError(s), needClose);
    }
  }

  lemma CancelledKeeps(s: SessionState)
    requires SessionInv(s)
    ensures SessionInv(Cancelled(s)) && Cancelled(s).phase == Finished
  {
  }

  /** The session after its first middlewares, as many as there are flags, have let the request pass. */
  function Passed(num: uint32, e: SessionEvent, closes: seq<bool>, needClose: bool): Outcome
    requires e.Received?
  {
    if closes == [] then SessionStep(NewSession(num), e, needClose)
    else
      var o := Passed(num, e, closes[..|closes| - 1], needClose);
      if o.Going? && o.s.phase == Filtering && o.s.middlewares != []
      then SessionStep(o.s, MiddlewareReturned(true, closes[|closes| - 1]), needClose) else o
  }

  /** While middlewares are left, the next one runs; after the last comes the handler of a plain request. */
  lemma {:induction false} ChainRun(num: uint32, e: SessionEvent, closes: seq<bool>, needClose: bool)
    requires e.Received? && e.upgrade == Plain && |closes| <= |MiddlewaresOf(e.route)|
    ensures var chain, k, o := MiddlewaresOf(e.route), |closes|, Passed(num, e, closes, needClose);
            && o.Going? && o.s.chain == chain && o.s.upgrade == Plain && !o.s.webSocket
            && o.s.handlerCalls == (if k < |chain| then 0 else 1) && !o.s.refused && !o.s.failed
            && if k < |chain|
               then o.s.phase == Filtering && o.s.ran == chain[..k + 1] && o.s.middlewares == chain[k..]
               else o.s.phase == Handling && o.s.ran == chain
    decreases |closes|
  {
    var chain, k := MiddlewaresOf(e.route), |closes|;
    hide SessionStep;
    if k == 0 {
      FirstMiddleware(num, e, needClose);
      assert chain[0..] == chain && (chain != [] ==> chain[..1] == [chain[0]]);
    } else {
      ChainRun(num, e, closes[..k - 1], needClose);
      NextMiddleware(Passed(num, e, closes[..k - 1], needClose).s, closes[k - 1], needClose);
      NextOfChain(chain, k);
    }
  }

  lemma NextOfChain(chain: seq<Middleware>, k: nat)
    requires 0 < k <= |chain|
    ensures chain[k - 1..][1..] == chain[k..]
    ensures k < |chain| ==> chain[..k] + [chain[k..][0]] == chain[..k + 1]
    ensures k == |chain| ==> chain[..k] == chain && chain[k..] == []
  {
  }

  lemma FirstMiddleware(num: uint32, e: SessionEvent, needClose: bool)
    requires e.Received? && e.upgrade == Plain
    ensures var chain := MiddlewaresOf(e.route);
            var s1 := NewSession(num).(chain := chain, middlewares := chain, requestCloses := e.requestCloses);
            SessionStep(NewSession(num), e, needClose) ==
            Going(if chain == [] then CallHandler(s1) else s1.(phase := Filtering, ran := [chain[0]]))
  {
  }

  /** One middleware has let a plain request pass. */
  lemma NextMiddleware(s: SessionState, closes: bool, needClose: bool)
    requires s.phase == Filtering && s.middlewares != [] && s.upgrade == Plain
    ensures var s1 := s.(middlewares := s.middlewares[1..], responseCloses := closes);
            SessionStep(s, MiddlewareReturned(true, closes), needClose) ==
            Going(if s1.middlewares == [] then CallHandler(s1)
                  else s1.(phase := Filtering, ran := s.ran + [s1.middlewares[0]]))
  {
  }

  /** A middleware that refuses ends the chain with itself: the answer goes out without the handler. */
  lemma RefusalRun(num: uint32, e: SessionEvent, closes: seq<bool>, last: bool, needClose: bool)
    requires e.Received? && e.upgrade == Plain && |closes| < |MiddlewaresOf(e.route)|
    ensures var o := Passed(num, e, closes, needClose);
            && o.Going? && o.s.phase == Filtering && o.s.middlewares != []
            && var o2 := SessionStep(o.s, MiddlewareReturned(false, last), needClose);
               && o2.Going? && o2.s.phase.Sending? && o2.s.handlerCalls == 0
               && o2.s.ran == MiddlewaresOf(e.route)[..|closes| + 1]
  {
    ChainRun(num, e, closes, needClose);
  }

  /** What a session knows of its request. */
  predicate SameRequest(s: SessionState, s2: SessionState) {
    s2.chain == s.chain && s2.requestCloses == s.requestCloses
  }

  lemma SendResponseRequest(s: SessionState, needClose: bool)
    ensures SameRequest(s, SendResponse(s, needClose).s)
  {
  }

  lemma DoMiddlewaresRequest(s: SessionState, needClose: bool)
    ensures SameRequest(s, DoMiddlewares(s, needClose).s)
  {
    hide SendResponse;
    SendResponseRequest(MakeResponseFromError(s), needClose);
  }

  /** The request being answered says `Connection: close`. */
  predicate AsksToClose(s: SessionState, e: SessionEvent) {
    if e.Received? then e.requestCloses else s.requestCloses
  }

  function ChainAfter(s: SessionState, e: SessionEvent): seq<Middleware> {
    if e.Received? then MiddlewaresOf(e.route) else s.chain
  }

  /** A session gets its request, and with it its chain, by the event that brings it. */
  lemma RequestKept(s: SessionState, e: SessionEvent, needClose: bool)
    requires Expects(s.phase, e) && (e.MiddlewareReturned? ==> s.middlewares != [])
    ensures SessionStep(s, e, needClose).s.requestCloses == AsksToClose(s, e)
    ensures SessionStep(s, e, needClose).s.chain == ChainAfter(s, e)
  {
    hide SendResponse, DoMiddlewares;
    if e.Received? {
      var chain := MiddlewaresOf(e.route);
      DoMiddlewaresRequest(
        s.(chain := chain, middlewares := chain, upgrade := e.upgrade, requestCloses := e.requestCloses), needClose);
    } else if e.MiddlewareReturned? {
      var s1 := s.(middlewares := s.middlewares[1..], responseCloses := e.closes);
      DoMiddlewaresRequest(s1, needClose);
      SendResponseRequest(s1.(refused := true), needClose);
    } else if e.HandlerReturned? {
      SendResponseRequest(s.(responseCloses := e.closes), needClose);
    } else {
      SendResponseRequest(MakeResponseFromError(s), needClose);
    }
  }

  // ----- connections -----

  /** `budget` and `sessions`, all sessions ever started, are history. */
  datatype ConnState = ConnState(
    leftRequests: nat,
    haveActiveSession: bool,
    open: bool,
    timedOut: bool,
    // answering the timeout: the response 408 and a timer of two seconds are both on their way to close
    closingSoon: bool,
    budget: nat,
    sessions: seq<SessionState>)

  /** The server's four counters. */
  datatype Counters = Counters(
    activeConnections: uint32, activeSessions: uint32, connectionCounter: uint32, sessionCounter: uint32)

  datatype ConnEvent =
    | OfSession(index: nat, event: SessionEvent)
    | Timeout
    | TimeoutAnswered
    | Cancel

  /** A connection and the server's counters; the connection's methods change both. */
  datatype World = World(c: ConnState, n: Counters)

  function StartSession(w: World): World
    requires w.c.leftRequests > 0
  {
    var num := Inc(w.n.sessionCounter);
    World(w.c.(leftRequests := w.c.leftRequests - 1, sessions := w.c.sessions + [NewSession(num)]),
          w.n.(sessionCounter := num, activeSessions := Inc(w.n.activeSessions)))
  }

  function Closed(w: World): World {
    World(w.c.(open := false), w.n.(activeConnections := Dec(w.n.activeConnections)))
  }

  /** `Connection::sessionFinished`, when its context is not closing */
  function SessionFinished(w: World, keepAlive: bool): World {
    var left := if keepAlive then w.c.leftRequests else 0;
    var w1 := World(
      w.c.(haveActiveSession := false, leftRequests := left), w.n.(activeSessions := Dec(w.n.activeSessions)));
    if left > 0 then StartSession(w1) else Closed(w1)
  }

  /** The report of a session that its connection's closing has ended. */
  function Reported(w: World): World {
    World(w.c.(haveActiveSession := false, leftRequests := 0), w.n.(activeSessions := Dec(w.n.activeSessions)))
  }

  function WithSession(c: ConnState, i: nat, s: SessionState): ConnState
    requires i < |c.sessions|
  {
    c.(sessions := c.sessions[i := s])
  }

  /** Closing a context: its sessions are cancelled, and each reports it. */
  function CancelSessions(w: World, i: nat): World
    requires i <= |w.c.sessions|
    decreases |w.c.sessions| - i
  {
    if i == |w.c.sessions| then w
    else if w.c.sessions[i].phase == Finished then CancelSessions(w, i + 1)
    else
      CancelSessions(Reported(World(WithSession(w.c, i, Cancelled(w.c.sessions[i])), w.n)), i + 1)
  }

  function CloseConnection(w: World): World {
    Closed(CancelSessions(w, 0))
  }

  /** A session's outcome, told to its connection. */
  function Told(w: World, i: nat, o: Outcome): World
    requires i < |w.c.sessions|
  {
    if o.Going? then World(WithSession(w.c, i, o.s), w.n)
    else SessionFinished(World(WithSession(w.c, i, Finish(o.s)), w.n), o.keepAlive)
  }

  /** What a connection does on an event it expects. */
  function ConnStep(w: World, e: ConnEvent): World
    requires ConnExpects(w.c, e)
  {
    match e
    case OfSession(i, event) =>
      var o := SessionStep(w.c.sessions[i], event, w.c.leftRequests == 0);
      var c := if event.Received? then w.c.(haveActiveSession := true) else w.c;
      Told(World(c, w.n), i, o)
    case Timeout =>
      World(w.c.(leftRequests := 0, timedOut := true, closingSoon := w.c.closingSoon || !w.c.haveActiveSession), w.n)
    case TimeoutAnswered => CloseConnection(w)
    case Cancel => CloseConnection(w)
  }

  lemma ReceivedIs(w: World, i: nat, e: SessionEvent)
    requires ConnExpects(w.c, OfSession(i, e)) && e.Received?
    ensures var chain := MiddlewaresOf(e.route);
            var s := w.c.sessions[i].(
              chain := chain, middlewares := chain, upgrade := e.upgrade, requestCloses := e.requestCloses);
            ConnStep(w, OfSession(i, e)) ==
            Told(World(w.c.(haveActiveSession := true), w.n), i, DoMiddlewares(s, w.c.leftRequests == 0))
  {
    hide DoMiddlewares, Told;
  }

  lemma MiddlewareIs(w: World, i: nat, e: SessionEvent)
    requires ConnExpects(w.c, OfSession(i, e)) && e.MiddlewareReturned?
    ensures var s := w.c.sessions[i];
            var s1 := s.(middlewares := s.middlewares[1..], responseCloses := e.closes);
            var needClose := w.c.leftRequests == 0;
            ConnStep(w, OfSession(i, e)) ==
            Told(w, i, if e.doNext then DoMiddlewares(s1, needClose) else SendResponse(s1.(refused := true), needClose))
  {
    hide DoMiddlewares, SendResponse, Told;
  }

  predicate ConnExpects(c: ConnState, e: ConnEvent) {
    c.open &&
    match e
    case OfSession(i, event) =>
      && i < |c.sessions| && Expects(c.sessions[i].phase, event)
      && (event.MiddlewareReturned? ==> c.sessions[i].middlewares != [])
    case Timeout => !c.timedOut
    case TimeoutAnswered => c.closingSoon
    case Cancel => true
  }

  ghost predicate ConnInv(c: ConnState) {
    && 0 < |c.sessions| && |c.sessions| + c.leftRequests <= c.budget
    && (forall i | 0 <= i < |c.sessions| :: SessionInv(c.sessions[i]))
    && (forall i | 0 <= i < |c.sessions| - 1 :: FollowedBy(c.sessions[i]))
    && (c.open <==> LastSession(c).phase != Finished)
    // a session that has its request counts as active until it ends
    && (c.haveActiveSession ==> c.open && LastSession(c).phase != Receiving)
    && (Busy(LastSession(c)) ==> c.haveActiveSession)
    && (c.closingSoon ==> c.timedOut) && (c.timedOut ==> c.leftRequests == 0)
    && (c.open && !c.timedOut ==> |c.sessions| + c.leftRequests == c.budget)
  }

  /** The session is at work on its request. */
  predicate Busy(s: SessionState) {
    s.phase == Filtering || s.phase == Upgrading || s.phase == Handling
  }

  function LastSession(c: ConnState): SessionState
    requires 0 < |c.sessions|
  {
    c.sessions[|c.sessions| - 1]
  }

  /** A session that another one follows: it is finished, and its one answer promised to keep the connection. */
  predicate FollowedBy(s: SessionState) {
    s.phase == Finished && |s.answers| == 1 && s.answers[0].keepAlive
  }

  /** How one connection's step moves the server's counters. */
  ghost predicate Moves(w: World, w2: World) {
    && w2.c.budget == w.c.budget && |w.c.sessions| <= |w2.c.sessions| <= |w.c.sessions| + 1
    && w2.n.connectionCounter == w.n.connectionCounter
    && w2.n.sessionCounter ==
       (if |w2.c.sessions| == |w.c.sessions| then w.n.sessionCounter else Inc(w.n.sessionCounter))
    && (|w2.c.sessions| > |w.c.sessions| ==> LastSession(w2.c).num == w2.n.sessionCounter)
    && w2.n.activeSessions == (if w2.c.open then w.n.activeSessions else Dec(w.n.activeSessions))
    && w2.n.activeConnections == (if w2.c.open then w.n.activeConnections else Dec(w.n.activeConnections))
  }

  /** The only session that can expect anything is the last. */
  lemma OnlyLast(c: ConnState, e: ConnEvent)
    requires ConnInv(c) && ConnExpects(c, e) && e.OfSession?
    ensures e.index == |c.sessions| - 1
  {
    hide SessionInv;
  }

  lemma WithSessionKeeps(c: ConnState, s: SessionState)
    requires ConnInv(c) && c.open && SessionInv(s) && s.phase != Finished && s.phase != Receiving
    ensures (Busy(s) ==> c.haveActiveSession) ==> ConnInv(WithSession(c, |c.sessions| - 1, s))
    ensures ConnInv(WithSession(c, |c.sessions| - 1, s).(haveActiveSession := true))
  {
  }

  lemma FinishedKeeps(w: World, s: SessionState, keepAlive: bool)
    requires ConnInv(w.c) && w.c.open && SessionInv(s) && s.phase == Finished
    requires keepAlive ==> |s.answers| == 1 && s.answers[0].keepAlive
    ensures var w2 := SessionFinished(World(WithSession(w.c, |w.c.sessions| - 1, s), w.n), keepAlive);
            ConnInv(w2.c) && Moves(w, w2) && (w2.c.open <==> keepAlive && w.c.leftRequests > 0)
  {
    hide SessionInv, Inc, Dec;
    NewSessionInv(Inc(w.n.sessionCounter));
    IncDec(w.n.activeSessions);
  }

  lemma NewSessionInv(num: uint32)
    ensures SessionInv(NewSession(num)) && NewSession(num).phase == Receiving
  {
  }

  lemma IncDec(n: uint32)
    ensures Inc(Dec(n)) == n
  {
  }

  lemma {:induction false} CancelSessionsIs(w: World, i: nat)
    requires ConnInv(w.c) && w.c.open && i < |w.c.sessions|
    ensures CancelSessions(w, i) ==
            Reported(World(WithSession(w.c, |w.c.sessions| - 1, Cancelled(LastSession(w.c))), w.n))
    decreases |w.c.sessions| - i
  {
    if i < |w.c.sessions| - 1 {
      assert FollowedBy(w.c.sessions[i]);
      CancelSessionsIs(w, i + 1);
    }
  }

  lemma CloseConnectionKeeps(w: World)
    requires ConnInv(w.c) && w.c.open
    ensures var w2 := CloseConnection(w);
            ConnInv(w2.c) && Moves(w, w2) && !w2.c.open && |w2.c.sessions| == |w.c.sessions|
  {
    CancelledKeeps(LastSession(w.c));
    CancelSessionsIs(w, 0);
    hide SessionInv, Cancelled, CancelSessions;
  }

  lemma SessionEventKeeps(w: World, i: nat, event: SessionEvent)
    requires ConnInv(w.c) && ConnExpects(w.c, OfSession(i, event))
    ensures ConnInv(ConnStep(w, OfSession(i, event)).c) && Moves(w, ConnStep(w, OfSession(i, event)))
  {
    hide ConnInv, SessionInv, Kept, SessionStep, SessionFinished, Moves, Finish;
    OnlyLast(w.c, OfSession(i, event));
    LastInv(w.c);
    var s := LastSession(w.c);
    SessionStepKeeps(s, event, w.c.leftRequests == 0);
    var o := SessionStep(s, event, w.c.leftRequests == 0);
    KeptMeans(o);
    OverLater(s, event, w.c.leftRequests == 0);
    if o.Going? {
      BusyStays(s, event, w.c.leftRequests == 0);
      BusyActive(w.c);
      WithSessionKeeps(w.c, o.s);
      SameCounters(w, o.s);
    } else {
      FinishedKeeps(w, Finish(o.s), o.keepAlive);
    }
  }

  /** Only a request makes a session busy. */
  lemma BusyStays(s: SessionState, e: SessionEvent, needClose: bool)
    requires Expects(s.phase, e) && (e.MiddlewareReturned? ==> s.middlewares != [])
    ensures Busy(SessionStep(s, e, needClose).s) && SessionStep(s, e, needClose).Going? ==> e.Received? || Busy(s)
  {
  }

  lemma BusyActive(c: ConnState)
    requires ConnInv(c)
    ensures 0 < |c.sessions| && (Busy(LastSession(c)) ==> c.haveActiveSession)
  {
  }

  lemma LastInv(c: ConnState)
    requires ConnInv(c)
    ensures 0 < |c.sessions| && SessionInv(LastSession(c))
  {
  }

  lemma KeptMeans(o: Outcome)
    requires Kept(o)
    ensures o.Going? ==> SessionInv(o.s) && o.s.phase != Finished && o.s.phase != Receiving
    ensures o.Over? ==> SessionInv(Finish(o.s)) && Finish(o.s).phase == Finished && Finish(o.s).answers == o.s.answers
  {
  }

  lemma SameCounters(w: World, s: SessionState)
    requires 0 < |w.c.sessions| && w.c.open
    ensures var c := WithSession(w.c, |w.c.sessions| - 1, s);
            Moves(w, World(c, w.n)) && Moves(w, World(c.(haveActiveSession := true), w.n))
  {
  }

  lemma ConnStepKeeps(w: World, e: ConnEvent)
    requires ConnInv(w.c) && ConnExpects(w.c, e)
    ensures ConnInv(ConnStep(w, e).c) && Moves(w, ConnStep(w, e))
  {
    hide SessionInv;
    match e
    case OfSession(i, event) => SessionEventKeeps(w, i, event);
    case Timeout =>
    case TimeoutAnswered => CloseConnectionKeeps(w);
    case Cancel => CloseConnectionKeeps(w);
  }

  lemma OverLater(s: SessionState, e: SessionEvent, needClose: bool)
    requires SessionInv(s) && Expects(s.phase, e) && (e.MiddlewareReturned? ==> s.middlewares != [])
    ensures var o := SessionStep(s, e, needClose);
            && (e.Received? ==> o.Going?)
            && (o.Over? && o.keepAlive ==> |o.s.answers| == 1 && o.s.answers[0].keepAlive)
  {
  }

  // ----- the server -----

  datatype ServerState = ServerState(conns: seq<ConnState>, n: Counters, open: bool, requestsCount: nat)

  datatype ServerEvent = Accept | OfConnection(index: nat, event: ConnEvent) | Shutdown

  function NewServer(requestsCount: nat): ServerState {
    ServerState([], Counters(0, 0, 0, 0), true, requestsCount)
  }

  function Budget(requestsCount: nat): nat {
    if requestsCount > 0 then requestsCount else 1
  }

  /** A connection is opened with its first session. */
  function OpenConnection(n: Counters, requestsCount: nat): World {
    StartSession(World(ConnState(Budget(requestsCount), false, true, false, false, Budget(requestsCount), []), n))
  }

  function AcceptConnection(s: ServerState): ServerState {
    var n := s.n.(activeConnections := Inc(s.n.activeConnections), connectionCounter := Inc(s.n.connectionCounter));
    var w := OpenConnection(n, s.requestsCount);
    s.(conns := s.conns + [w.c], n := w.n)
  }

  function WithWorld(s: ServerState, i: nat, w: World): ServerState
    requires i < |s.conns|
  {
    s.(conns := s.conns[i := w.c], n := w.n)
  }

  /** The connections from the `i`-th on are closed. */
  function CloseAll(s: ServerState, i: nat): ServerState
    requires i <= |s.conns|
    decreases |s.conns| - i
  {
    if i == |s.conns| then s
    else if !s.conns[i].open then CloseAll(s, i + 1)
    else CloseAll(WithWorld(s, i, CloseConnection(World(s.conns[i], s.n))), i + 1)
  }

  function ServerStep(s: ServerState, e: ServerEvent): ServerState {
    match e
    case Accept => if s.open then AcceptConnection(s) else s
    case OfConnection(i, event) =>
      if i < |s.conns| && ConnExpects(s.conns[i], event)
      then WithWorld(s, i, ConnStep(World(s.conns[i], s.n), event)) else s
    case Shutdown => CloseAll(s.(open := false), 0)
  }

  function Run(s: ServerState, events: seq<ServerEvent>): ServerState {
    if events == [] then s else ServerStep(Run(s, events[..|events| - 1]), events[|events| - 1])
  }

  // ----- counting -----

  function Unfinished(sessions: seq<SessionState>): nat {
    if sessions == [] then 0
    else Unfinished(sessions[..|sessions| - 1]) + (if sessions[|sessions| - 1].phase == Finished then 0 else 1)
  }

  datatype Quantity = OpenConnections | UnfinishedSessions | AllSessions

  function Measure(c: ConnState, q: Quantity): nat {
    match q
    case OpenConnections => if c.open then 1 else 0
    case UnfinishedSessions => Unfinished(c.sessions)
    case AllSessions => |c.sessions|
  }

  function Total(conns: seq<ConnState>, q: Quantity): nat {
    if conns == [] then 0 else Total(conns[..|conns| - 1], q) + Measure(conns[|conns| - 1], q)
  }

  lemma TotalAppend(conns: seq<ConnState>, c: ConnState, q: Quantity)
    ensures Total(conns + [c], q) == Total(conns, q) + Measure(c, q)
  {
    assert (conns + [c])[..|conns|] == conns;
  }

  lemma {:induction false} TotalUpdate(conns: seq<ConnState>, i: nat, c: ConnState, q: Quantity)
    requires i < |conns|
    ensures Total(conns[i := c], q) + Measure(conns[i], q) == Total(conns, q) + Measure(c, q)
  {
    var n := |conns| - 1;
    if i < n {
      TotalUpdate(conns[..n], i, c, q);
      assert conns[i := c][..n] == conns[..n][i := c];
    } else {
      assert conns[i := c][..n] == conns[..n];
    }
  }

  lemma {:induction false} NoneUnfinished(sessions: seq<SessionState>)
    requires forall i | 0 <= i < |sessions| :: sessions[i].phase == Finished
    ensures Unfinished(sessions) == 0
  {
    if sessions != [] {
      NoneUnfinished(sessions[..|sessions| - 1]);
    }
  }

  /** An open connection has exactly one unfinished session, a closed one has none. */
  lemma OneUnfinished(c: ConnState)
    requires ConnInv(c)
    ensures Unfinished(c.sessions) == if c.open then 1 else 0
  {
    var before := c.sessions[..|c.sessions| - 1];
    forall i | 0 <= i < |before|
      ensures before[i].phase == Finished
    {
      assert FollowedBy(c.sessions[i]);
    }
    NoneUnfinished(before);
  }

  ghost predicate ServerInv(s: ServerState) {
    && (forall i | 0 <= i < |s.conns| :: ConnInv(s.conns[i]) && s.conns[i].budget == Budget(s.requestsCount))
    && s.n.activeConnections == Total(s.conns, OpenConnections) % UINT32
    && s.n.activeSessions == Total(s.conns, UnfinishedSessions) % UINT32
    && s.n.connectionCounter == |s.conns| % UINT32
    && s.n.sessionCounter == Total(s.conns, AllSessions) % UINT32
    && (!s.open ==> forall i | 0 <= i < |s.conns| :: !s.conns[i].open)
  }

  lemma IncIs(n: nat)
    ensures Inc(n % UINT32) == (n + 1) % UINT32
  {
  }

  lemma DecIs(n: nat)
    requires n > 0
    ensures Dec(n % UINT32) == (n - 1) % UINT32
  {
  }

  lemma NewConnectionKeeps(n: Counters, requestsCount: nat)
    ensures var w := OpenConnection(n, requestsCount);
            && ConnInv(w.c) && w.c.open && w.c.budget == Budget(requestsCount) && |w.c.sessions| == 1
            && w.n == n.(sessionCounter := Inc(n.sessionCounter), activeSessions := Inc(n.activeSessions))
  {
  }

  lemma AcceptKeeps(s: ServerState)
    requires ServerInv(s) && s.open
    ensures ServerInv(AcceptConnection(s))
  {
    var n := s.n.(activeConnections := Inc(s.n.activeConnections), connectionCounter := Inc(s.n.connectionCounter));
    NewConnectionKeeps(n, s.requestsCount);
    hide ConnInv, OpenConnection, Inc;
    var w := OpenConnection(n, s.requestsCount);
    OneUnfinished(w.c);
    forall q: Quantity
      ensures Total(s.conns + [w.c], q) == Total(s.conns, q) + 1
    {
      TotalAppend(s.conns, w.c, q);
    }
    IncIs(Total(s.conns, OpenConnections));
    IncIs(Total(s.conns, UnfinishedSessions));
    IncIs(Total(s.conns, AllSessions));
    IncIs(|s.conns|);
  }

  /** A connection that moves keeps the totals in step with the counters. */
  lemma MoveKeeps(s: ServerState, i: nat, w: World)
    requires ServerInv(s) && i < |s.conns| && s.conns[i].open
    requires ConnInv(w.c) && Moves(World(s.conns[i], s.n), w)
    ensures ServerInv(WithWorld(s, i, w))
  {
    hide ConnInv, Inc, Dec, Total, Unfinished;
    OneUnfinished(s.conns[i]);
    OneUnfinished(w.c);
    TotalUpdate(s.conns, i, w.c, OpenConnections);
    TotalUpdate(s.conns, i, w.c, UnfinishedSessions);
    TotalUpdate(s.conns, i, w.c, AllSessions);
    IncIs(Total(s.conns, AllSessions));
    if !w.c.open {
      DecIs(Total(s.conns, OpenConnections));
      DecIs(Total(s.conns, UnfinishedSessions));
    }
  }

  lemma {:induction false} CloseAllKeeps(s: ServerState, i: nat)
    requires ServerInv(s.(open := true)) && i <= |s.conns|
    requires forall j | 0 <= j < i :: !s.conns[j].open
    ensures var s2 := CloseAll(s, i);
            && ServerInv(s2.(open := true)) && s2.open == s.open && s2.requestsCount == s.requestsCount
            && forall j | 0 <= j < |s2.conns| :: !s2.conns[j].open
    decreases |s.conns| - i
  {
    hide ConnInv, Moves, CloseConnection;
    if i < |s.conns| {
      if !s.conns[i].open {
        CloseAllKeeps(s, i + 1);
      } else {
        var w := World(s.conns[i], s.n);
        assert ConnInv(s.conns[i]);
        CloseConnectionKeeps(w);
        MoveKeeps(s.(open := true), i, CloseConnection(w));
        CloseAllKeeps(WithWorld(s, i, CloseConnection(w)), i + 1);
      }
    }
  }

  lemma ServerStepKeeps(s: ServerState, e: ServerEvent)
    requires ServerInv(s)
    ensures ServerInv(ServerStep(s, e)) && ServerStep(s, e).requestsCount == s.requestsCount
  {
    hide ConnInv, Moves, ConnExpects, ConnStep;
    match e
    case Accept =>
      if s.open {
        AcceptKeeps(s);
      }
    case OfConnection(i, event) =>
      if i < |s.conns| && ConnExpects(s.conns[i], event) {
        ExpectsOpen(s.conns[i], event);
        assert ConnInv(s.conns[i]);
        ConnStepKeeps(World(s.conns[i], s.n), event);
        MoveKeeps(s, i, ConnStep(World(s.conns[i], s.n), event));
      }
    case Shutdown =>
      CloseAllKeeps(s.(open := false), 0);
  }

  lemma ExpectsOpen(c: ConnState, e: ConnEvent)
    requires ConnExpects(c, e)
    ensures c.open
  {
  }

  /** The invariant holds after every run of a server. */
  lemma {:induction false} RunKeeps(requestsCount: nat, events: seq<ServerEvent>)
    ensures ServerInv(Run(NewServer(requestsCount), events))
    ensures Run(NewServer(requestsCount), events).requestsCount == requestsCount
  {
    if events != [] {
      RunKeeps(requestsCount, events[..|events| - 1]);
      ServerStepKeeps(Run(NewServer(requestsCount), events[..|events| - 1]), events[|events| - 1]);
    }
  }

  // ----- what the runs promise -----

  /** The two active counters count, modulo their width, the open connections and the unfinished sessions. */
  lemma CountersExact(requestsCount: nat, events: seq<ServerEvent>)
    ensures var s := Run(NewServer(requestsCount), events);
            && s.n.activeConnections == Total(s.conns, OpenConnections) % UINT32
            && s.n.activeSessions == Total(s.conns, UnfinishedSessions) % UINT32
            && Total(s.conns, OpenConnections) == Total(s.conns, UnfinishedSessions)
  {
    RunKeeps(requestsCount, events);
    var s := Run(NewServer(requestsCount), events);
    OneEach(s.conns);
  }

  lemma {:induction false} OneEach(conns: seq<ConnState>)
    requires forall i | 0 <= i < |conns| :: ConnInv(conns[i])
    ensures Total(conns, OpenConnections) == Total(conns, UnfinishedSessions)
  {
    if conns != [] {
      OneEach(conns[..|conns| - 1]);
      OneUnfinished(conns[|conns| - 1]);
    }
  }

  /** One session at a time and no more than the budget allows; a session follows only one that kept the connection. */
  lemma OneAtATime(requestsCount: nat, events: seq<ServerEvent>, i: nat)
    requires i < |Run(NewServer(requestsCount), events).conns|
    ensures var c := Run(NewServer(requestsCount), events).conns[i];
            && 1 <= |c.sessions| <= (if requestsCount > 0 then requestsCount else 1)
            && (c.open && !c.timedOut ==>
                  |c.sessions| + c.leftRequests == if requestsCount > 0 then requestsCount else 1)
            && (forall j, k | 0 <= j < |c.sessions| && 0 <= k < |c.sessions| ::
                  c.sessions[j].phase != Finished && c.sessions[k].phase != Finished ==> j == k)
            && (forall j | 0 <= j < |c.sessions| - 1 ::
                  |c.sessions[j].answers| == 1 && c.sessions[j].answers[0].keepAlive)
            && (forall j | 0 <= j < |c.sessions| ::
                  c.sessions[j].finishCalls == if c.open && j == |c.sessions| - 1 then 0 else 1)
  {
    hide Run, SessionInv;
    RunKeeps(requestsCount, events);
    var c := Run(NewServer(requestsCount), events).conns[i];
    forall j | 0 <= j < |c.sessions|
      ensures c.sessions[j].finishCalls == if c.sessions[j].phase == Finished then 1 else 0
      ensures j < |c.sessions| - 1 ==> FollowedBy(c.sessions[j])
    {
      FinishedOnce(c.sessions[j]);
    }
  }

  lemma FinishedOnce(s: SessionState)
    requires SessionInv(s)
    ensures s.finishCalls == if s.phase == Finished then 1 else 0
  {
  }

  /**
   Of the chain a session has run a prefix, and its handler only after the whole chain; and a session that
   was answered or finished did run its handler, unless a middleware refused, something failed or it was cancelled.
   */
  lemma ChainThenHandler(requestsCount: nat, events: seq<ServerEvent>, i: nat, j: nat)
    requires i < |Run(NewServer(requestsCount), events).conns|
    requires j < |Run(NewServer(requestsCount), events).conns[i].sessions|
    ensures var s := Run(NewServer(requestsCount), events).conns[i].sessions[j];
            && s.ran <= s.chain && s.handlerCalls <= 1 && |s.answers| <= 1
            && (s.handlerCalls == 1 ==> s.ran == s.chain && !s.refused)
            && (s.phase.Sending? || s.phase == Finished ==> s.handlerCalls == 1 || s.refused || s.failed)
  {
    RunKeeps(requestsCount, events);
    var c := Run(NewServer(requestsCount), events).conns[i];
    assert ConnInv(c) && SessionInv(c.sessions[j]);
  }

  /** After a shutdown every connection is closed, every session has reported its end, and nothing is counted active. */
  lemma ShutdownEmpties(requestsCount: nat, events: seq<ServerEvent>)
    ensures var s := Run(NewServer(requestsCount), events + [Shutdown]);
            && s.n.activeConnections == 0 && s.n.activeSessions == 0
            && forall i, j | 0 <= i < |s.conns| && 0 <= j < |s.conns[i].sessions| ::
                 s.conns[i].sessions[j].finishCalls == 1
  {
    hide ConnInv;
    var before := Run(NewServer(requestsCount), events);
    var s := Run(NewServer(requestsCount), events + [Shutdown]);
    assert (events + [Shutdown])[..|events|] == events;
    assert s == CloseAll(before.(open := false), 0);
    RunKeeps(requestsCount, events);
    RunKeeps(requestsCount, events + [Shutdown]);
    CloseAllKeeps(before.(open := false), 0);
    NoneOpen(s.conns);
    OneEach(s.conns);
    forall i, j | 0 <= i < |s.conns| && 0 <= j < |s.conns[i].sessions|
      ensures s.conns[i].sessions[j].finishCalls == 1
    {
      assert ConnInv(s.conns[i]);
      AllFinished(s.conns[i]);
    }
  }

  lemma AllFinished(c: ConnState)
    requires ConnInv(c) && !c.open
    ensures forall j | 0 <= j < |c.sessions| :: c.sessions[j].finishCalls == 1
  {
    forall j | 0 <= j < |c.sessions|
      ensures c.sessions[j].finishCalls == 1
    {
      assert SessionInv(c.sessions[j]) && (j < |c.sessions| - 1 ==> FollowedBy(c.sessions[j]));
    }
  }

  lemma {:induction false} NoneOpen(conns: seq<ConnState>)
    requires forall i | 0 <= i < |conns| :: !conns[i].open
    ensures Total(conns, OpenConnections) == 0
  {
    if conns != [] {
      NoneOpen(conns[..|conns| - 1]);
    }
  }

  // ----- the router's chain -----

  /** The chains of the sessions are all among these. */
  ghost predicate ChainsIn(sessions: seq<SessionState>, chains: iset<seq<Middleware>>) {
    forall j | 0 <= j < |sessions| :: sessions[j].chain in chains
  }

  ghost predicate AllChainsIn(s: ServerState, chains: iset<seq<Middleware>>) {
    forall i | 0 <= i < |s.conns| :: ChainsIn(s.conns[i].sessions, chains)
  }

  lemma {:induction false} CancelChains(w: World, i: nat, chains: iset<seq<Middleware>>)
    requires ChainsIn(w.c.sessions, chains) && i <= |w.c.sessions|
    ensures ChainsIn(CancelSessions(w, i).c.sessions, chains)
    decreases |w.c.sessions| - i
  {
    if i == |w.c.sessions| {
    } else if w.c.sessions[i].phase == Finished {
      CancelChains(w, i + 1, chains);
    } else {
      CancelChains(Reported(World(WithSession(w.c, i, Cancelled(w.c.sessions[i])), w.n)), i + 1, chains);
    }
  }

  lemma FinishedChains(w: World, keepAlive: bool, chains: iset<seq<Middleware>>)
    requires ChainsIn(w.c.sessions, chains) && [] in chains
    ensures ChainsIn(SessionFinished(w, keepAlive).c.sessions, chains)
  {
  }

  lemma ConnChains(w: World, e: ConnEvent, chains: iset<seq<Middleware>>)
    requires ConnExpects(w.c, e) && ChainsIn(w.c.sessions, chains) && [] in chains
    requires e.OfSession? && e.event.Received? ==> MiddlewaresOf(e.event.route) in chains
    ensures ChainsIn(ConnStep(w, e).c.sessions, chains)
  {
    match e
    case OfSession(i, event) =>
      hide SessionStep, SessionFinished, ChainsIn;
      var s, needClose := w.c.sessions[i], w.c.leftRequests == 0;
      RequestKept(s, event, needClose);
      var o := SessionStep(s, event, needClose);
      OneChain(w.c, i, if o.Going? then o.s else Finish(o.s), chains);
      var c := if event.Received? then w.c.(haveActiveSession := true) else w.c;
      if o.Over? {
        FinishedChains(World(WithSession(c, i, Finish(o.s)), w.n), o.keepAlive, chains);
      }
    case Timeout =>
    case TimeoutAnswered => CancelChains(w, 0, chains);
    case Cancel => CancelChains(w, 0, chains);
  }

  lemma OneChain(c: ConnState, i: nat, s: SessionState, chains: iset<seq<Middleware>>)
    requires i < |c.sessions| && ChainsIn(c.sessions, chains) && s.chain in chains
    ensures ChainsIn(c.sessions[i := s], chains)
  {
  }

  lemma {:induction false} CloseAllChains(s: ServerState, i: nat, chains: iset<seq<Middleware>>)
    requires AllChainsIn(s, chains) && i <= |s.conns|
    ensures AllChainsIn(CloseAll(s, i), chains)
    decreases |s.conns| - i
  {
    hide ChainsIn, CloseConnection;
    if i < |s.conns| {
      if !s.conns[i].open {
        CloseAllChains(s, i + 1, chains);
      } else {
        var w := World(s.conns[i], s.n);
        assert ChainsIn(CloseConnection(w).c.sessions, chains) by { ClosedChains(w, chains); }
        CloseAllChains(WithWorld(s, i, CloseConnection(w)), i + 1, chains);
      }
    }
  }

  lemma ClosedChains(w: World, chains: iset<seq<Middleware>>)
    requires ChainsIn(w.c.sessions, chains)
    ensures ChainsIn(CloseConnection(w).c.sessions, chains)
  {
    CancelChains(w, 0, chains);
  }

  /** The chain that an event brings to a session is one of these. */
  ghost predicate Brings(e: ServerEvent, chains: iset<seq<Middleware>>) {
    e.OfConnection? && e.event.OfSession? && e.event.event.Received? ==> MiddlewaresOf(e.event.event.route) in chains
  }

  lemma ServerChains(s: ServerState, e: ServerEvent, chains: iset<seq<Middleware>>)
    requires AllChainsIn(s, chains) && [] in chains && Brings(e, chains)
    ensures AllChainsIn(ServerStep(s, e), chains)
  {
    match e
    case Accept =>
    case OfConnection(i, event) =>
      hide ChainsIn, ConnStep;
      if i < |s.conns| && ConnExpects(s.conns[i], event) {
        ConnChains(World(s.conns[i], s.n), event, chains);
      }
    case Shutdown =>
      CloseAllChains(s.(open := false), 0, chains);
  }

  lemma {:induction false} RunChains(requestsCount: nat, events: seq<ServerEvent>, chains: iset<seq<Middleware>>)
    requires [] in chains && forall k | 0 <= k < |events| :: Brings(events[k], chains)
    ensures AllChainsIn(Run(NewServer(requestsCount), events), chains)
  {
    if events != [] {
      var n := |events| - 1;
      forall k | 0 <= k < n
        ensures Brings(events[..n][k], chains)
      {
        assert Brings(events[k], chains);
      }
      RunChains(requestsCount, events[..n], chains);
      ServerChains(Run(NewServer(requestsCount), events[..n]), events[n], chains);
    }
  }

  /** The router with this table and this search answered the request that the event brings. */
  ghost predicate RoutedBy(t: Table, s: Shape, e: ServerEvent)
    requires Valid(s) && Rooted(t) && t.Keys == s.dom
  {
    e.OfConnection? && e.event.OfSession? && e.event.event.Received? ==>
      exists path: Pattern, verb: string :: e.event.event.route == RouteAt(t, BestNode(s, path), path, verb)
  }

  /** The middlewares of the nodes from the root to the one that a path is routed to. */
  ghost predicate IsRoutedChain(t: Table, s: Shape, chain: seq<Middleware>)
    requires Valid(s) && Rooted(t) && t.Keys == s.dom
  {
    exists path: Pattern, verb: string ::
      RouteAt(t, BestNode(s, path), path, verb).Routed? && chain == Chain(t, BestNode(s, path))
  }

  /**
   While a router answers the requests, the middlewares that a session has run are a prefix of those of the
   nodes from the root to the node matched by a path; a request that is not routed meets no middleware.
   */
  lemma ChainFromRouter(requestsCount: nat, events: seq<ServerEvent>, t: Table, s: Shape, i: nat, j: nat)
    requires Valid(s) && Rooted(t) && t.Keys == s.dom
    requires forall k | 0 <= k < |events| :: RoutedBy(t, s, events[k])
    requires i < |Run(NewServer(requestsCount), events).conns|
    requires j < |Run(NewServer(requestsCount), events).conns[i].sessions|
    ensures var session := Run(NewServer(requestsCount), events).conns[i].sessions[j];
            && session.ran <= session.chain
            && (session.handlerCalls == 1 ==> session.ran == session.chain)
            && (session.chain == [] || IsRoutedChain(t, s, session.chain))
  {
    hide IsRoutedChain, Valid, Rooted;
    var chains := iset chain | chain == [] || IsRoutedChain(t, s, chain);
    forall k | 0 <= k < |events|
      ensures Brings(events[k], chains)
    {
      assert RoutedBy(t, s, events[k]);
      RoutedBrings(t, s, events[k]);
    }
    RunChains(requestsCount, events, chains);
    ChainThenHandler(requestsCount, events, i, j);
    var state := Run(NewServer(requestsCount), events);
    assert ChainsIn(state.conns[i].sessions, chains);
  }

  lemma RoutedBrings(t: Table, s: Shape, e: ServerEvent)
    requires Valid(s) && Rooted(t) && t.Keys == s.dom && RoutedBy(t, s, e)
    ensures e.OfConnection? && e.event.OfSession? && e.event.event.Received? ==>
              var chain := MiddlewaresOf(e.event.event.route); chain == [] || IsRoutedChain(t, s, chain)
  {
    hide Valid, Rooted;
  }

  // ----- Connection: close -----

  function ConnRun(w: World, events: seq<ConnEvent>): World {
    if events == [] then w
    else
      var w1 := ConnRun(w, events[..|events| - 1]);
      if ConnExpects(w1.c, events[|events| - 1]) then ConnStep(w1, events[|events| - 1]) else w1
  }

  /** The last session will not be followed. */
  ghost predicate Ending(c: ConnState) {
    ConnInv(c) && (c.open ==> c.leftRequests == 0 || LastSession(c).phase == Sending(false))
  }

  lemma EndingStep(w: World, e: ConnEvent)
    requires Ending(w.c) && ConnExpects(w.c, e)
    ensures Ending(ConnStep(w, e).c) && |ConnStep(w, e).c.sessions| == |w.c.sessions|
  {
    hide SessionInv, CloseConnection;
    if e.OfSession? {
      EndingSessionStep(w, e);
    } else {
      ConnStepKeeps(w, e);
      if !e.Timeout? {
        CloseConnectionKeeps(w);
      }
    }
  }

  lemma EndingSessionStep(w: World, e: ConnEvent)
    requires Ending(w.c) && ConnExpects(w.c, e) && e.OfSession?
    ensures Ending(ConnStep(w, e).c) && |ConnStep(w, e).c.sessions| == |w.c.sessions|
  {
    hide SessionInv, ConnInv, SessionStep;
    ConnStepKeeps(w, e);
    OnlyLast(w.c, e);
    LastSent(w.c.sessions[e.index], e.event, w.c.leftRequests == 0);
  }

  lemma LastSent(s: SessionState, e: SessionEvent, needClose: bool)
    requires Expects(s.phase, e) && (e.MiddlewareReturned? ==> s.middlewares != [])
    ensures s.phase == Sending(false) ==> var o := SessionStep(s, e, needClose); o.Over? && !o.keepAlive
  {
  }

  lemma {:induction false} EndingRun(w: World, events: seq<ConnEvent>)
    requires Ending(w.c)
    ensures Ending(ConnRun(w, events).c) && |ConnRun(w, events).c.sessions| == |w.c.sessions|
  {
    if events != [] {
      EndingRun(w, events[..|events| - 1]);
      var w1 := ConnRun(w, events[..|events| - 1]);
      if ConnExpects(w1.c, events[|events| - 1]) {
        EndingStep(w1, events[|events| - 1]);
      }
    }
  }

  ghost predicate NoMoreSessions(w: World) {
    forall events :: |ConnRun(w, events).c.sessions| == |w.c.sessions|
  }

  /** On this event the last session begins to send an answer that says `Connection: close`. */
  predicate AnswersClose(c: ConnState, e: SessionEvent) {
    && c.sessions != [] && ConnExpects(c, OfSession(|c.sessions| - 1, e))
    && var o := SessionStep(LastSession(c), e, c.leftRequests == 0);
       o.Going? && o.s.answers != [] && o.s.answers[0].saysClose
  }

  /**
   `Connection: close` in a response ends the connection exactly when `needClose` asked for it: the budget
   was spent or the request said so. A handler that puts the header itself does not end the connection.
   */
  lemma CloseIsFinal(w: World, e: SessionEvent)
    requires ConnInv(w.c) && AnswersClose(w.c, e)
    ensures NoMoreSessions(ConnStep(w, OfSession(|w.c.sessions| - 1, e))) <==>
            w.c.leftRequests == 0 || AsksToClose(LastSession(w.c), e)
  {
    hide SessionInv, SessionStep;
    ConnStepKeeps(w, OfSession(|w.c.sessions| - 1, e));
    LastInv(w.c);
    var w2 := ConnStep(w, OfSession(|w.c.sessions| - 1, e));
    var s := LastSession(w2.c);
    SessionStepKeeps(LastSession(w.c), e, w.c.leftRequests == 0);
    AnswerIs(LastSession(w.c), e, w.c.leftRequests == 0);
    SendingNow(s);
    RequestKept(LastSession(w.c), e, w.c.leftRequests == 0);
    if w.c.leftRequests == 0 || s.requestCloses {
      forall events
        ensures |ConnRun(w2, events).c.sessions| == |w2.c.sessions|
      {
        EndingRun(w2, events);
      }
    } else {
      SentStartsNext(w2);
    }
  }

  lemma SendingNow(s: SessionState)
    requires SessionInv(s) && s.phase != Finished && s.answers != []
    ensures s.phase.Sending?
  {
  }

  ghost predicate AnsweredBy(o: Outcome, needClose: bool) {
    o.Going? && o.s.phase.Sending? ==>
      && o.s.phase.keepAlive == (!needClose && !o.s.requestCloses)
      && o.s.answers == [Answer(needClose || o.s.requestCloses || o.s.responseCloses, o.s.phase.keepAlive)]
  }

  lemma SendResponseAnswers(s: SessionState, needClose: bool)
    requires s.answers == []
    ensures AnsweredBy(SendResponse(s, needClose), needClose)
  {
  }

  lemma AnswerIs(s: SessionState, e: SessionEvent, needClose: bool)
    requires SessionInv(s) && Expects(s.phase, e) && (e.MiddlewareReturned? ==> s.middlewares != [])
    ensures AnsweredBy(SessionStep(s, e, needClose), needClose)
  {
    hide AnsweredBy, SendResponse, DoMiddlewares, SessionInv;
    NoAnswerYet(s);
    if e.Received? {
      var chain := MiddlewaresOf(e.route);
      DoMiddlewaresAnswers(
        s.(chain := chain, middlewares := chain, upgrade := e.upgrade, requestCloses := e.requestCloses), needClose);
    } else if e.MiddlewareReturned? {
      var s1 := s.(middlewares := s.middlewares[1..], responseCloses := e.closes);
      DoMiddlewaresAnswers(s1, needClose);
      SendResponseAnswers(s1.(refused := true), needClose);
    } else if e.HandlerReturned? {
      SendResponseAnswers(s.(responseCloses := e.closes), needClose);
    } else if e.Sent? || e.SendFailed? || e.HandshakeWritten? {
      NotAnswered(SessionStep(s, e, needClose), needClose);
    } else {
      SendResponseAnswers(MakeResponseFromError(s), needClose);
    }
  }

  lemma NoAnswerYet(s: SessionState)
    requires SessionInv(s)
    ensures !s.phase.Sending? && s.phase != Finished ==> s.answers == []
  {
  }

  lemma DoMiddlewaresAnswers(s: SessionState, needClose: bool)
    requires s.answers == []
    ensures AnsweredBy(DoMiddlewares(s, needClose), needClose)
  {
    hide AnsweredBy, SendResponse;
    SendResponseAnswers(MakeResponseFromError(s), needClose);
    NotAnswered(DoMiddlewares(s, needClose), needClose);
  }

  lemma NotAnswered(o: Outcome, needClose: bool)
    ensures !(o.Going? && o.s.phase.Sending?) ==> AnsweredBy(o, needClose)
  {
  }

  lemma SentStartsNext(w: World)
    requires ConnInv(w.c) && w.c.open && w.c.leftRequests > 0 && LastSession(w.c).phase == Sending(true)
    ensures !NoMoreSessions(w)
  {
    var e := OfSession(|w.c.sessions| - 1, Sent);
    assert [e][..0] == [];
    assert ConnRun(w, []) == w;
    assert |ConnRun(w, [e]).c.sessions| == |w.c.sessions| + 1;
  }

  /** Once the time of the connection is over no further session starts. */
  lemma TimeoutIsFinal(w: World)
    requires ConnInv(w.c) && ConnExpects(w.c, Timeout)
    ensures NoMoreSessions(ConnStep(w, Timeout))
  {
    hide SessionInv;
    ConnStepKeeps(w, Timeout);
    var w2 := ConnStep(w, Timeout);
    forall events
      ensures |ConnRun(w2, events).c.sessions| == |w2.c.sessions|
    {
      EndingRun(w2, events);
    }
  }

  /** A run in which a session follows one that answered `Connection: close`. */
  lemma CloseIgnored()
    ensures var route := Routed(Handler(0), [], []);
            var events := [Accept, OfConnection(0, OfSession(0, Received(route, Plain, false))),
                           OfConnection(0, OfSession(0, HandlerReturned(true))), OfConnection(0, OfSession(0, Sent))];
            var s := Run(NewServer(1000), events);
            && |s.conns| == 1 && |s.conns[0].sessions| == 2 && s.conns[0].open
            && s.conns[0].sessions[0].answers == [Answer(true, true)]
  {
    var route := Routed(Handler(0), [], []);
    var e1 := OfConnection(0, OfSession(0, Received(route, Plain, false)));
    var e2 := OfConnection(0, OfSession(0, HandlerReturned(true)));
    var e3 := OfConnection(0, OfSession(0, Sent));
    var s0 := NewServer(1000);
    var s1 := ServerStep(s0, Accept);
    RunFour(s0, Accept, e1, e2, e3);
    hide Run;
    assert s1.conns[0].sessions == [NewSession(1)];
    Handled(s1, route);
    var s3 := ServerStep(ServerStep(s1, e1), e2);
    hide ServerStep;
    SentKeeps(s3);
  }

  /** The first session is handled, and the handler puts the header. */
  lemma Handled(s: ServerState, route: RouteResult)
    requires |s.conns| == 1 && s.conns[0].open && s.conns[0].leftRequests == 999
    requires s.conns[0].sessions == [NewSession(1)] && route == Routed(Handler(0), [], [])
    ensures var e1 := OfConnection(0, OfSession(0, Received(route, Plain, false)));
            var s3 := ServerStep(ServerStep(s, e1), OfConnection(0, OfSession(0, HandlerReturned(true))));
            && |s3.conns| == 1 && s3.conns[0].open && s3.conns[0].leftRequests == 999 && |s3.conns[0].sessions| == 1
            && s3.conns[0].sessions[0].phase == Sending(true) && s3.conns[0].sessions[0].answers == [Answer(true, true)]
  {
    var s2 := ServerStep(s, OfConnection(0, OfSession(0, Received(route, Plain, false))));
    assert s2.conns[0].sessions == [NewSession(1).(phase := Handling, handlerCalls := 1)];
  }

  lemma SentKeeps(s: ServerState)
    requires |s.conns| == 1 && s.conns[0].open && s.conns[0].leftRequests == 999 && |s.conns[0].sessions| == 1
    requires s.conns[0].sessions[0].phase == Sending(true) && s.conns[0].sessions[0].answers == [Answer(true, true)]
    ensures var s2 := ServerStep(s, OfConnection(0, OfSession(0, Sent)));
            && |s2.conns| == 1 && |s2.conns[0].sessions| == 2 && s2.conns[0].open
            && s2.conns[0].sessions[0].answers == [Answer(true, true)]
  {
  }

  lemma RunFour(s: ServerState, e1: ServerEvent, e2: ServerEvent, e3: ServerEvent, e4: ServerEvent)
    ensures Run(s, [e1, e2, e3, e4]) == ServerStep(ServerStep(ServerStep(ServerStep(s, e1), e2), e3), e4)
  {
    hide ServerStep;
    assert [e1, e2, e3, e4][..3] == [e1, e2, e3];
    assert [e1, e2, e3][..2] == [e1, e2];
    assert [e1, e2][..1] == [e1];
    assert [e1][..0] == [];
    assert Run(s, [e1]) == ServerStep(s, e1);
    assert Run(s, [e1, e2]) == ServerStep(ServerStep(s, e1), e2);
  }
}
