/**
 Cutting the input anywhere: what a caller sees of a buffer does not depend on how it was cut into
 calls, except for the bytes of a header name that turns out to be invalid.
 */
module LlhttpSplit {
  import opened Octets
  import opened LlhttpName
  import opened LlhttpSpec

  /** What the callbacks report, byte by byte: the pieces of a span are joined. */
  datatype Event =
    | BodyByte(b: octet)
    | FieldByte(b: octet)
    | ChunkHeader
    | ChunkComplete
    | MessageComplete

  function SpanEvents(body: bool, bytes: octets): (es: seq<Event>)
    ensures |es| == |bytes|
  {
    seq(|bytes|, i requires 0 <= i < |bytes| => if body then BodyByte(bytes[i]) else FieldByte(bytes[i]))
  }

  function Events(c: Call): seq<Event> {
    match c
    case OnBody(bytes) => SpanEvents(true, bytes)
    case OnHeaderField(bytes) => SpanEvents(false, bytes)
    case OnChunkHeader => [ChunkHeader]
    case OnChunkComplete => [ChunkComplete]
    case OnMessageComplete => [MessageComplete]
  }

  function Trace(calls: seq<Call>): seq<Event> {
    if calls == [] then [] else Trace(calls[..|calls| - 1]) + Events(calls[|calls| - 1])
  }

  /** The two machines agree on everything but the span bytes held, the callbacks and the count. */
  predicate SameCore(m: Machine, n: Machine) {
    && m.current == n.current && m.index == n.index && m.contentLength == n.contentLength
    && m.headerState == n.headerState && m.flags == n.flags && m.error == n.error
  }

  lemma TraceAppend(calls: seq<Call>, c: Call)
    ensures Trace(calls + [c]) == Trace(calls) + Events(c)
  {
    assert (calls + [c])[..|calls|] == calls;
  }

  lemma RunAppend(m: Machine, a: octets, b: octets)
    ensures Run(m, a + b) == Run(Run(m, a), b)
    decreases |a|
  {
    hide Step, Settle;
    if a == [] {
      assert a + b == b;
      RunSettle(m, b);
    } else {
      assert (a + b)[1..] == a[1..] + b;
      RunAppend(Step(m, a[0]), a[1..], b);
    }
  }

  /** The machine with nothing held and nothing reported yet. */
  function Bare(m: Machine): Machine {
    m.(held := [], calls := [], used := 0)
  }

  function Prepend(held: octets, c: Call): Call {
    match c
    case OnBody(bytes) => OnBody(held + bytes)
    case OnHeaderField(bytes) => OnHeaderField(held + bytes)
    case _ => c
  }

  /** What happened to the bare machine, on top of what `m` already held and reported. */
  function Onto(m: Machine, d: Machine): Machine {
    d.(used := m.used + d.used,
       held := if d.calls == [] then m.held + d.held else d.held,
       calls := if d.calls == [] then m.calls else m.calls + [Prepend(m.held, d.calls[0])] + d.calls[1..])
  }

  /** Bytes are held only inside a span. */
  predicate Tidy(m: Machine) {
    m.error == HPE_OK && m.held != [] ==> InSpan(m.current)
  }

  /** A span ends with the callback it was opened for, and only such a callback ends it. */
  predicate Closes(m: Machine, d: Machine) {
    && Tidy(d)
    && (InBodySpan(m.current) && d.calls != [] ==> d.calls[0].OnBody?)
    && (InBodySpan(m.current) && m.error == HPE_OK && d.calls == [] ==> InBodySpan(d.current) && d.error == HPE_OK)
    && (InFieldSpan(m.current) && d.calls != [] ==>
          d.calls[0].OnHeaderField? && d.error == HPE_OK && Outside(d.current))
    && (InFieldSpan(m.current) && m.error == HPE_OK && d.calls == [] ==>
          if d.error == HPE_OK then InFieldSpan(d.current) else d.error == HPE_INVALID_HEADER_TOKEN)
  }

  /** `r` is what `m` becomes when the bare machine becomes `d`. */
  predicate Local(m: Machine, r: Machine, d: Machine) {
    r == Onto(m, d) && Closes(m, d)
  }

  lemma OneCall(m: Machine, d: Machine, c: Call)
    requires d.calls == [c]
    ensures Onto(m, d).calls == m.calls + [Prepend(m.held, c)]
  {
  }

  lemma SettleLocal(m: Machine)
    requires Tidy(m)
    ensures Local(m, Settle(m), Settle(Bare(m)))
  {
    var d := Settle(Bare(m));
    assert m.held + [] == m.held;
    if m.error == HPE_OK && InBodySpan(m.current) && m.contentLength == 0 {
      if m.current.ConsumeContentLength? {
        assert d.calls == [OnBody([])];
        OneCall(m, d, OnBody([]));
      } else {
        assert d.calls == [OnBody([]), OnMessageComplete];
        assert Onto(m, d).calls == m.calls + [OnBody(m.held)] + [OnMessageComplete];
      }
    }
  }

  lemma HoldLocal(m: Machine, b: octet, st: State)
    requires InBodySpan(m.current) ==> InBodySpan(st)
    requires InFieldSpan(m.current) ==> InFieldSpan(st)
    requires InSpan(st)
    ensures Local(m, Hold(m, b, st), Hold(Bare(m), b, st))
  {
    assert m.held + ([] + [b]) == m.held + [b];
  }

  lemma TakeLocal(m: Machine, st: State)
    requires !InSpan(m.current) && m.held == []
    ensures Local(m, Take(m, st), Take(Bare(m), st))
  {
  }

  lemma EmitLocal(m: Machine, st: State, c: Call)
    requires !InSpan(m.current) && m.held == []
    requires c in {OnChunkHeader, OnChunkComplete, OnBody([])}
    ensures Local(m, Emit(Take(m, st), c), Emit(Take(Bare(m), st), c))
  {
    assert m.held + [] == [];
    OneCall(m, Emit(Take(Bare(m), st), c), c);
  }

  lemma EndFieldLocal(m: Machine)
    requires m.error == HPE_OK && InFieldSpan(m.current)
    ensures Local(m, EndField(m), EndField(Bare(m)))
  {
    assert m.held + [] == m.held;
    OneCall(m, EndField(Bare(m)), OnHeaderField([]));
  }

  lemma NameLocal(m: Machine, b: octet)
    requires m.error == HPE_OK && InFieldSpan(m.current) && !IsMatcher(m.current)
    ensures Local(m, GeneralOtherwise(m, b), GeneralOtherwise(Bare(m), b))
    ensures Local(m, Mismatch(m, b), Mismatch(Bare(m), b))
    ensures Local(m, ReadName(m, b), ReadName(Bare(m), b))
  {
    hide IsToken, NameByte, Hold, EndField;
    var m0 := m.(headerState := 0);
    EndFieldLocal(m);
    EndFieldLocal(m0);
    HoldLocal(m0, b, HeaderFieldGeneral);
    if NameByte(m.current, b) != ErrorState {
      HoldLocal(m, b, NameByte(m.current, b));
    }
    assert m.held + [] == m.held;
  }

  lemma MatchLocal(m: Machine, b: octet)
    requires m.error == HPE_OK && IsMatcher(m.current)
    ensures Local(m, MatchByte(m, b), MatchByte(Bare(m), b))
  {
    hide ToLower, Blob, StoredState, IsToken, EndField, GeneralOtherwise;
    HoldLocal(m, b, m.current);
    var m0 := m.(index := 0, headerState := 0);
    HoldLocal(m0, b, HeaderFieldGeneral);
    MissLocal(m0, b);
  }

  lemma MissLocal(m: Machine, b: octet)
    requires m.error == HPE_OK && InFieldSpan(m.current)
    ensures Local(m, GeneralOtherwise(m, b), GeneralOtherwise(Bare(m), b))
  {
    hide EndField;
    EndFieldLocal(m);
    assert m.held + [] == m.held;
  }

  lemma BodyLocal(m: Machine, b: octet)
    requires m.error == HPE_OK && m.held == [] && (m.current.SpanStartBody? || m.current.SpanStartBody1?)
    ensures m.current.SpanStartBody? ==> Local(m, OpenBody(m, b), OpenBody(Bare(m), b))
    ensures m.current.SpanStartBody1? ==> Local(m, OpenBody1(m, b), OpenBody1(Bare(m), b))
  {
    hide Settle, Hold, Take, Emit;
    EmitLocal(m, ChunkDataAlmostDoneSkip, OnBody([]));
    HoldLocal(m, b, ConsumeContentLength);
    HoldLocal(m, b, ConsumeContentLength1);
    SettleLocal(m.(current := ConsumeContentLength1));
  }

  lemma SizeLocal(m: Machine, b: octet)
    requires m.error == HPE_OK && m.held == []
    requires m.current in {ChunkSizeDigit, ChunkSize, ChunkSizeOtherwise, ChunkParameters}
    ensures Local(m, React(m, b), React(Bare(m), b))
  {
    hide HexDigit, MulAdd, Take;
    TakeLocal(m, ChunkSize);
    TakeLocal(m, ChunkSizeAlmostDone);
    TakeLocal(m, ChunkParameters);
  }

  lemma ReactLocal(m: Machine, b: octet)
    requires Tidy(m) && !Stopped(m) && Settled(m)
    ensures Settled(Bare(m))
    ensures Local(m, React(m, b), React(Bare(m), b))
  {
    hide Local, Hold, Take, Emit, ReadName, GeneralOtherwise, OpenBody, OpenBody1, MatchByte, ReadBody, HeaderStart;
    if IsMatcher(m.current) {
      MatchLocal(m, b);
    } else if InFieldSpan(m.current) {
      NameLocal(m, b);
    } else if m.current.SpanStartBody? || m.current.SpanStartBody1? {
      BodyLocal(m, b);
    } else if InBodySpan(m.current) {
      ConsumeLocal(m, b);
    } else if m.current.ChunkSizeAlmostDone? {
      EmitLocal(m, IsEqualContentLength, OnChunkHeader);
    } else if m.current.ChunkDataAlmostDone? {
      TakeLocal(m, ChunkDataAlmostDoneSkip);
    } else if m.current.ChunkDataAlmostDoneSkip? {
      EmitLocal(m, UpdateContentLength, OnChunkComplete);
    } else if m.current.HeaderFieldStart? || m.current.SpanStartHeaderField? {
      StartLocal(m, b);
    } else {
      SizeLocal(m, b);
    }
  }

  lemma ConsumeLocal(m: Machine, b: octet)
    requires m.error == HPE_OK && InBodySpan(m.current) && m.contentLength > 0
    ensures Local(m, ReadBody(m, b, m.current), ReadBody(Bare(m), b, m.current))
  {
    HoldLocal(m, b, m.current);
  }

  lemma StartLocal(m: Machine, b: octet)
    requires m.error == HPE_OK && m.held == [] && !InSpan(m.current)
    ensures Local(m, HeaderStart(m, b), HeaderStart(Bare(m), b))
    ensures Local(m, ReadName(m.(current := HeaderField), b), ReadName(Bare(m).(current := HeaderField), b))
  {
    hide Take, ReadName;
    NameLocal(m.(current := HeaderField), b);
    TakeLocal(m, HeadersAlmostDone);
  }

  // ----- the same input with and without a cut -----

  /** `m` still holds the bytes `x` of a span that `n` has already handed over. */
  predicate Ahead(m: Machine, n: Machine, x: octets, body: bool) {
    && m.held == x + n.held
    && Trace(m.calls) + SpanEvents(body, x) == Trace(n.calls)
    && (m.error == HPE_OK ==> if body then InBodySpan(m.current) else InFieldSpan(m.current))
  }

  predicate Even(m: Machine, n: Machine) {
    m.held == n.held && Trace(m.calls) == Trace(n.calls)
  }

  /**
   `m` ran on uncut input, `n` on input cut `u` bytes ago inside a body or header-name span of which
   `x` had been read. The two differ until that span is closed, which for a header name means that
   it is valid and for a body always happens.
   */
  predicate Related(m: Machine, n: Machine, x: octets, body: bool, u: nat) {
    && SameCore(m, n) && m.used == n.used + u && Tidy(m) && Tidy(n)
    && (if x == [] then Even(m, n)
        else if body then Even(m, n) || (Ahead(m, n, x, true) && m.error == HPE_OK)
        else (Ahead(m, n, x, false) && (m.error == HPE_OK || m.error == HPE_INVALID_HEADER_TOKEN))
             || (Even(m, n) && m.error == HPE_OK && Outside(m.current)))
  }

  lemma {:induction false} TraceConcat(a: seq<Call>, b: seq<Call>)
    ensures Trace(a + b) == Trace(a) + Trace(b)
    decreases |b|
  {
    hide Events;
    if b == [] {
      assert a + b == a && Trace(a) + [] == Trace(a);
    } else {
      var k := |b| - 1;
      TraceConcat(a, b[..k]);
      TraceAppend(b[..k], b[k]);
      TraceAppend(a + b[..k], b[k]);
      assert b[..k] + [b[k]] == b && a + b[..k] + [b[k]] == a + b;
      hide Trace;
      assert Trace(a) + Trace(b[..k]) + Events(b[k]) == Trace(a) + (Trace(b[..k]) + Events(b[k]));
    }
  }

  lemma OntoTrace(m: Machine, d: Machine)
    requires d.calls != []
    ensures Trace(Onto(m, d).calls) == Trace(m.calls) + Events(Prepend(m.held, d.calls[0])) + Trace(d.calls[1..])
  {
    TraceAppend(m.calls, Prepend(m.held, d.calls[0]));
    TraceConcat(m.calls + [Prepend(m.held, d.calls[0])], d.calls[1..]);
  }

  lemma SpanEventsConcat(body: bool, a: octets, b: octets)
    ensures SpanEvents(body, a + b) == SpanEvents(body, a) + SpanEvents(body, b)
  {
  }

  lemma LocalRelated(m: Machine, n: Machine, rm: Machine, rn: Machine, d: Machine, x: octets, body: bool, u: nat)
    requires Related(m, n, x, body, u)
    requires Local(m, rm, d) && Local(n, rn, d)
    requires m.error != HPE_OK || Outside(m.current) ==> d == Bare(m)
    ensures Related(rm, rn, x, body, u)
  {
    hide Events, Trace, SpanEvents;
    if d.calls == [] {
      assert x + n.held + d.held == x + (n.held + d.held);
    } else {
      OntoTrace(m, d);
      OntoTrace(n, d);
      if Ahead(m, n, x, body) && !Even(m, n) {
        PrependSplit(x, n.held, d.calls[0], body);
      }
    }
  }

  lemma PrependSplit(x: octets, held: octets, c: Call, body: bool)
    requires if body then c.OnBody? else c.OnHeaderField?
    ensures Events(Prepend(x + held, c)) == SpanEvents(body, x) + Events(Prepend(held, c))
  {
    assert x + held + c.bytes == x + (held + c.bytes);
    SpanEventsConcat(body, x, held + c.bytes);
  }

  lemma SettleRelated(m: Machine, n: Machine, x: octets, body: bool, u: nat)
    requires Related(m, n, x, body, u)
    ensures Related(Settle(m), Settle(n), x, body, u)
  {
    SettleLocal(m);
    SettleLocal(n);
    LocalRelated(m, n, Settle(m), Settle(n), Settle(Bare(m)), x, body, u);
  }

  lemma StepRelated(m: Machine, n: Machine, b: octet, x: octets, body: bool, u: nat)
    requires Related(m, n, x, body, u)
    ensures Related(Step(m, b), Step(n, b), x, body, u)
  {
    hide React, Settle, Related, Settled;
    SettleRelated(m, n, x, body, u);
    var m0, n0 := Settle(m), Settle(n);
    SettledNow(m);
    SettledNow(n);
    StoppedAlike(m0, n0, x, body, u);
    if !Stopped(m0) {
      ReactRelated(m0, n0, b, x, body, u);
      SettleRelated(React(m0, b), React(n0, b), x, body, u);
    }
  }

  lemma StoppedAlike(m: Machine, n: Machine, x: octets, body: bool, u: nat)
    requires Related(m, n, x, body, u)
    ensures Stopped(m) == Stopped(n) && Tidy(m) && Tidy(n) && Bare(m) == Bare(n)
  {
    hide Even, Ahead, Tidy;
  }

  lemma ReactRelated(m: Machine, n: Machine, b: octet, x: octets, body: bool, u: nat)
    requires Related(m, n, x, body, u) && Settled(m) && Settled(n) && !Stopped(m) && !Stopped(n)
    ensures Related(React(m, b), React(n, b), x, body, u)
  {
    hide Local, React, Settled, Related;
    StoppedAlike(m, n, x, body, u);
    ReactLocal(m, b);
    ReactLocal(n, b);
    LocalRelated(m, n, React(m, b), React(n, b), React(Bare(m), b), x, body, u);
  }

  lemma {:induction false} RunRelated(m: Machine, n: Machine, data: octets, x: octets, body: bool, u: nat)
    requires Related(m, n, x, body, u)
    ensures Related(Run(m, data), Run(n, data), x, body, u)
    decreases |data|
  {
    hide Related, Step, Settle;
    if data == [] {
      SettleRelated(m, n, x, body, u);
    } else {
      StepRelated(m, n, data[0], x, body, u);
      RunRelated(Step(m, data[0]), Step(n, data[0]), data[1..], x, body, u);
    }
  }

  lemma StepTidy(m: Machine, b: octet)
    requires Tidy(m)
    ensures Tidy(Step(m, b)) && Tidy(Settle(m))
  {
    hide React;
    SettleLocal(m);
    var m0 := Settle(m);
    if !Stopped(m0) {
      ReactLocal(m0, b);
      SettleLocal(React(m0, b));
    }
  }

  lemma {:induction false} RunTidy(m: Machine, data: octets)
    requires Tidy(m)
    ensures Tidy(Run(m, data))
    decreases |data|
  {
    hide Tidy, Step, Settle;
    if data == [] {
      StepTidy(m, 'x');
    } else {
      StepTidy(m, data[0]);
      RunTidy(Step(m, data[0]), data[1..]);
    }
  }

  /** The bytes of a header name read so far by a call on `a`, if the call ends inside the name. */
  function OpenName(m: Machine, a: octets): octets {
    var c := Run(m.(used := 0), a);
    if m.error == HPE_OK && c.error == HPE_OK && InFieldSpan(c.current) then c.held else []
  }

  /** The parser stopped inside a header name of which it had read at least one byte. */
  predicate StopsInName(m: Machine, a: octets) {
    CallSpec(m, a).error == HPE_OK && InFieldSpan(CallSpec(m, a).current) && m.held + a != []
  }

  /** The cut after `a` falls inside a header name, and the name is rejected for a byte of `b`. */
  predicate CutShows(m: Machine, a: octets, b: octets) {
    StopsInName(m, a) && NameRejected(CallSpec(m, a).current, b)
  }

  /**
   Split invariance. One call on `a + b` and two calls on `a` and `b` leave the same parser state and
   consume the same bytes. The callbacks report the same events too, except exactly when the first call
   stopped inside a header name of which it had read a byte, and the first byte of `b` that is no token
   character is there and is no colon. Then the cut parser has already reported the bytes before the cut,
   the uncut one reports none of them.
   */
  lemma SplitInvariance(m: Machine, a: octets, b: octets)
    requires Tidy(m)
    ensures var one, first := CallSpec(m, a + b), CallSpec(m, a);
            var two := CallSpec(first, b);
            && SameCore(one, two)
            && one.used == first.used + two.used
            && (Trace(one.calls) != Trace(two.calls) <==> CutShows(m, a, b))
            && Trace(two.calls) ==
               Trace(one.calls) + SpanEvents(false, if CutShows(m, a, b) then OpenName(m, a) else [])
  {
    hide CallSpec, OpenName, NameRejected, StopsInName, Trace;
    SplitByOutcome(m, a, b);
    OpenNameIff(m, a);
    var one := CallSpec(m, a + b);
    if StopsInName(m, a) {
      StoppedThenRejected(m, a, b);
    }
    assert Trace(one.calls) + [] == Trace(one.calls);
  }

  lemma StoppedThenRejected(m: Machine, a: octets, b: octets)
    requires Tidy(m) && StopsInName(m, a)
    ensures CallSpec(m, a + b).error == HPE_INVALID_HEADER_TOKEN <==> NameRejected(CallSpec(m, a).current, b)
  {
    hide Run, NameRejected, Trace;
    SplitByOutcome(m, a, b);
    var first := CallSpec(m, a).(used := 0);
    RejectedIff(first, b);
    FlushTrace(Run(first, b));
  }

  /** A cut that shows comes before a rejected byte. */
  lemma CutRejects(m: Machine, a: octets, b: octets)
    requires Tidy(m) && CutShows(m, a, b)
    ensures CallSpec(m, a + b).error == HPE_INVALID_HEADER_TOKEN
  {
    hide CallSpec, NameRejected;
    StoppedThenRejected(m, a, b);
  }

  /** The parser takes every byte of a header name into the open span. */
  lemma StepHolds(m: Machine, b: octet)
    requires Step(m, b).error == HPE_OK && InFieldSpan(Step(m, b).current)
    ensures Step(m, b).held != []
  {
    hide React, Settle, Settled;
    var m0 := Settle(m);
    SettledNow(m);
    if Stopped(m0) {
      StoppedOutside(m0);
    } else {
      ReactHolds(m0, b);
      FieldSettled(React(m0, b));
    }
  }

  lemma SettledNow(m: Machine)
    ensures Settled(Settle(m))
  {
  }

  lemma StoppedOutside(m: Machine)
    requires Stopped(m)
    ensures m.error != HPE_OK || !InFieldSpan(m.current)
  {
  }

  /** Inside a header name there is nothing to settle. */
  lemma FieldSettled(m: Machine)
    ensures Settle(m).error == HPE_OK && InFieldSpan(Settle(m).current) ==> Settle(m) == m
  {
  }

  lemma ReactHolds(m: Machine, b: octet)
    requires !Stopped(m) && Settled(m)
    ensures React(m, b).error == HPE_OK && InFieldSpan(React(m, b).current) ==> React(m, b).held != []
  {
    hide MatchByte, ReadName, GeneralOtherwise, HexDigit, MulAdd;
    NameHolds(m, b);
    NameHolds(m.(current := HeaderField), b);
  }

  lemma NameHolds(m: Machine, b: octet)
    ensures IsMatcher(m.current) ==>
              MatchByte(m, b).error == HPE_OK && InFieldSpan(MatchByte(m, b).current) ==> MatchByte(m, b).held != []
    ensures ReadName(m, b).error == HPE_OK && InFieldSpan(ReadName(m, b).current) ==> ReadName(m, b).held != []
    ensures GeneralOtherwise(m, b).error == HPE_OK ==> !InFieldSpan(GeneralOtherwise(m, b).current)
  {
    hide IsToken, NameByte, ToLower, Blob;
  }

  lemma {:induction false} RunHolds(m: Machine, a: octets)
    requires Run(m, a).error == HPE_OK && InFieldSpan(Run(m, a).current)
    ensures Run(m, a).held != [] <==> m.held + a != []
    decreases |a|
  {
    if a == [] {
      assert m.held + [] == m.held;
    } else {
      RunHolds(Step(m, a[0]), a[1..]);
      if a[1..] == [] {
        StepHolds(m, a[0]);
      }
    }
  }

  lemma OpenNameIff(m: Machine, a: octets)
    ensures OpenName(m, a) != [] <==> StopsInName(m, a)
  {
    hide Run, Flush, Trace;
    var c := Run(m.(used := 0), a);
    FlushTrace(c);
    if m.error == HPE_OK && c.error == HPE_OK && InFieldSpan(c.current) {
      RunHolds(m.(used := 0), a);
    }
  }

  /** The same, told by how the run ends: only a rejected name keeps its bytes from the uncut parser's callback. */
  lemma SplitByOutcome(m: Machine, a: octets, b: octets)
    requires Tidy(m)
    ensures var one, first := CallSpec(m, a + b), CallSpec(m, a);
            var two := CallSpec(first, b);
            && SameCore(one, two)
            && one.used == first.used + two.used
            && Trace(two.calls) ==
               Trace(one.calls) +
               SpanEvents(false, if one.error == HPE_INVALID_HEADER_TOKEN then OpenName(m, a) else [])
  {
    hide Run, Related, Flush, Trace;
    if m.error == HPE_OK {
      var m0 := m.(used := 0);
      var c := Run(m0, a);
      RunAppend(m0, a, b);
      RunTidy(m0, a);
      if c.error == HPE_OK {
        var n := Flush(c).(used := 0);
        FlushAhead(c);
        RunRelated(c, n, b, c.held, InBodySpan(c.current), c.used);
        FlushTrace(c);
        FlushTrace(Run(c, b));
        FlushTrace(Run(n, b));
        FlushRelated(Run(c, b), Run(n, b), c.held, InBodySpan(c.current), c.used);
        RelatedCore(Run(c, b), Run(n, b), c.held, InBodySpan(c.current), c.used);
      } else {
        RunStopped(c, b);
        FlushTrace(c);
      }
    }
  }

  lemma RelatedCore(m: Machine, n: Machine, x: octets, body: bool, u: nat)
    requires Related(m, n, x, body, u)
    ensures SameCore(m, n) && m.used == n.used + u
  {
  }

  lemma FlushTrace(m: Machine)
    ensures SameCore(Flush(m), m) && Flush(m).used == m.used
    ensures if m.error == HPE_OK && InSpan(m.current)
            then Flush(m).held == []
                 && Trace(Flush(m).calls) == Trace(m.calls) + SpanEvents(InBodySpan(m.current), m.held)
            else Flush(m) == m
  {
    if m.error == HPE_OK && InSpan(m.current) {
      TraceAppend(m.calls, if InFieldSpan(m.current) then OnHeaderField(m.held) else OnBody(m.held));
    }
  }

  /** Handing over the held bytes at the end of a call puts the cut machine ahead by those bytes. */
  lemma FlushAhead(c: Machine)
    requires Tidy(c) && c.error == HPE_OK
    ensures Related(c, Flush(c).(used := 0), c.held, InBodySpan(c.current), c.used)
  {
    hide Flush, Trace;
    FlushTrace(c);
    assert c.held + [] == c.held;
  }

  lemma FlushRelated(m: Machine, n: Machine, x: octets, body: bool, u: nat)
    requires Related(m, n, x, body, u)
    ensures m.error == HPE_OK || body || x == [] ==> Trace(Flush(m).calls) == Trace(Flush(n).calls)
    ensures !body && x != [] && m.error != HPE_OK ==>
              && m.error == HPE_INVALID_HEADER_TOKEN
              && Trace(Flush(n).calls) == Trace(Flush(m).calls) + SpanEvents(false, x)
  {
    hide Flush, Trace;
    FlushTrace(m);
    FlushTrace(n);
    if Ahead(m, n, x, body) {
      SpanEventsConcat(body, x, n.held);
    }
  }

  /** A sequence of calls, one for each piece. */
  function Calls(m: Machine, pieces: seq<octets>): Machine
    decreases |pieces|
  {
    if pieces == [] then m else Calls(CallSpec(m, pieces[0]), pieces[1..])
  }

  function Concat(pieces: seq<octets>): octets {
    if pieces == [] then [] else pieces[0] + Concat(pieces[1..])
  }

  lemma CallTidy(m: Machine, a: octets)
    requires Tidy(m)
    ensures Tidy(CallSpec(m, a))
  {
    hide Run;
    RunTidy(m.(used := 0), a);
    FlushTrace(Run(m.(used := 0), a));
  }

  /** A call without input hands over an open span, though it is empty, and does nothing else. */
  lemma EmptyCall(m: Machine)
    requires m.error == HPE_OK && m.held == [] && Settled(m)
    ensures CallSpec(m, []) ==
            m.(used := 0, calls := m.calls + if InFieldSpan(m.current) then [OnHeaderField([])]
                                             else if InBodySpan(m.current) then [OnBody([])] else [])
  {
    RunEmpty(m.(used := 0));
    assert Settle(m.(used := 0)) == m.(used := 0);
  }

  /** How many bytes the calls consume. */
  function UsedBy(m: Machine, pieces: seq<octets>): nat
    decreases |pieces|
  {
    if pieces == [] then 0
    else CallSpec(m, pieces[0]).used + UsedBy(CallSpec(m, pieces[0]), pieces[1..])
  }

  /** The cut before the `i`-th piece, taken alone, shows. */
  predicate Shows(m: Machine, pieces: seq<octets>, i: nat) {
    0 < i < |pieces| && CutShows(m, Concat(pieces[..i]), Concat(pieces[i..]))
  }

  predicate LastToShow(m: Machine, pieces: seq<octets>, i: nat) {
    Shows(m, pieces, i) && forall j: nat | i < j < |pieces| :: !Shows(m, pieces, j)
  }

  /** A call that ends without an error has handed over all it held. */
  lemma NothingHeld(m: Machine, a: octets)
    requires Tidy(m)
    ensures CallSpec(m, a).error == HPE_OK ==> CallSpec(m, a).held == []
  {
    hide Run;
    RunTidy(m.(used := 0), a);
    FlushTrace(Run(m.(used := 0), a));
  }

  /** A later cut shows to the parser as it shows to the parser that has made the first call. */
  lemma ShowsLater(m: Machine, p: octets, x: octets, rest: octets)
    requires Tidy(m)
    ensures CutShows(m, p + x, rest) <==> if x == [] then CutShows(m, p, rest) else CutShows(CallSpec(m, p), x, rest)
    ensures x == [] ==> !CutShows(CallSpec(m, p), x, rest)
  {
    NothingHeld(m, p);
    SplitInvariance(m, p, x);
    hide NameRejected, Run, Flush, Trace;
    var first := CallSpec(m, p);
    if x == [] {
      assert p + x == p && first.held + x == first.held;
      assert first.error != HPE_OK ==> CallSpec(first, x).error != HPE_OK;
    }
  }

  /** The name bytes before a later cut are those before the first cut and those after it. */
  lemma OpenNameSplit(m: Machine, p: octets, x: octets)
    requires Tidy(m) && StopsInName(m, p + x)
    ensures OpenName(m, p + x) == OpenName(m, p) + OpenName(CallSpec(m, p), x)
  {
    hide Run, Related, Flush, Trace;
    var m0 := m.(used := 0);
    var c := Run(m0, p);
    RunAppend(m0, p, x);
    RunTidy(m0, p);
    FlushTrace(c);
    FlushTrace(Run(m0, p + x));
    if c.error == HPE_OK {
      var n := Flush(c).(used := 0);
      FlushAhead(c);
      RunRelated(c, n, x, c.held, InBodySpan(c.current), c.used);
      HeldApart(Run(c, x), Run(n, x), c.held, InBodySpan(c.current), c.used);
      if !InFieldSpan(c.current) && !InBodySpan(c.current) {
        assert c.held == [];
      }
      assert [] + OpenName(n, x) == OpenName(n, x);
    } else {
      RunStopped(c, x);
    }
  }

  lemma HeldApart(m: Machine, n: Machine, x: octets, body: bool, u: nat)
    requires Related(m, n, x, body, u) && m.error == HPE_OK && InFieldSpan(m.current)
    ensures n.error == HPE_OK && InFieldSpan(n.current)
    ensures m.held == (if body then [] else x) + n.held
  {
    assert [] + n.held == n.held;
  }

  lemma ConcatFirst(pieces: seq<octets>, i: nat)
    requires 0 < i <= |pieces|
    ensures Concat(pieces[..i]) == pieces[0] + Concat(pieces[1..][..i - 1]) && pieces[i..] == pieces[1..][i - 1..]
  {
    assert pieces[..i][1..] == pieces[1..][..i - 1];
  }

  lemma {:induction false} ConcatEmpty(pieces: seq<octets>, j: nat, k: nat)
    requires j <= k <= |pieces| && Concat(pieces[..k]) == []
    ensures Concat(pieces[..j]) == []
    decreases j
  {
    if j > 0 {
      ConcatFirst(pieces, j);
      ConcatFirst(pieces, k);
      ConcatEmpty(pieces[1..], j - 1, k - 1);
    }
  }

  /** How the cuts after the first show to the parser that has made the first call. */
  lemma ShowsNext(m: Machine, pieces: seq<octets>, j: nat)
    requires Tidy(m) && 0 < j < |pieces| - 1
    ensures var first, rest := CallSpec(m, pieces[0]), pieces[1..];
            && (Shows(first, rest, j) <==> Shows(m, pieces, j + 1) && Concat(rest[..j]) != [])
            && (Shows(m, pieces, j + 1) && Concat(rest[..j]) == [] ==> Shows(m, pieces, 1))
  {
    hide CutShows;
    var rest := pieces[1..];
    ConcatFirst(pieces, j + 1);
    ConcatFirst(pieces, 1);
    ShowsLater(m, pieces[0], Concat(rest[..j]), Concat(rest[j..]));
    assert pieces[0] + [] == pieces[0];
    if Concat(rest[..j]) == [] {
      ConcatSplit(rest, j);
      ShowsFirst(m, pieces);
      assert [] + Concat(rest[j..]) == Concat(rest[j..]);
    }
  }

  lemma {:induction false} ConcatSplit(pieces: seq<octets>, j: nat)
    requires j <= |pieces|
    ensures Concat(pieces) == Concat(pieces[..j]) + Concat(pieces[j..])
    decreases j
  {
    if j > 0 {
      ConcatFirst(pieces, j);
      ConcatSplit(pieces[1..], j - 1);
    }
  }

  /** The first cut as `Shows` sees it. */
  lemma ShowsFirst(m: Machine, pieces: seq<octets>)
    requires |pieces| > 1
    ensures Shows(m, pieces, 1) <==> CutShows(m, pieces[0], Concat(pieces[1..]))
  {
    hide CutShows;
    ConcatFirst(pieces, 1);
    assert pieces[0] + [] == pieces[0];
  }

  lemma {:induction false} CutCore(m: Machine, pieces: seq<octets>)
    requires Tidy(m) && pieces != []
    ensures SameCore(CallSpec(m, Concat(pieces)), Calls(m, pieces))
    ensures CallSpec(m, Concat(pieces)).used == UsedBy(m, pieces)
    decreases |pieces|
  {
    hide CallSpec, Trace, CutShows;
    var first, rest := CallSpec(m, pieces[0]), pieces[1..];
    if |pieces| == 1 {
      assert Concat(pieces) == pieces[0] + Concat([]) == pieces[0];
      assert Calls(m, pieces) == Calls(first, []);
    } else {
      CallTidy(m, pieces[0]);
      CutCore(first, rest);
      SplitInvariance(m, pieces[0], Concat(rest));
    }
  }

  /** Without a cut that shows the callbacks report the same events. */
  lemma {:induction false} NoCutShows(m: Machine, pieces: seq<octets>)
    requires Tidy(m) && pieces != [] && forall i: nat :: !Shows(m, pieces, i)
    ensures Trace(CallSpec(m, Concat(pieces)).calls) == Trace(Calls(m, pieces).calls)
    decreases |pieces|
  {
    hide CallSpec, Trace, CutShows, Shows;
    var first, rest := CallSpec(m, pieces[0]), pieces[1..];
    if |pieces| == 1 {
      assert Concat(pieces) == pieces[0] + Concat([]) == pieces[0];
      assert Calls(m, pieces) == Calls(first, []);
    } else {
      CallTidy(m, pieces[0]);
      ShowsFirst(m, pieces);
      forall j: nat
        ensures !Shows(first, rest, j)
      {
        if Shows(first, rest, j) {
          ShownInside(first, rest, j);
          ShowsNext(m, pieces, j);
        }
      }
      NoCutShows(first, rest);
      SplitInvariance(m, pieces[0], Concat(rest));
    }
  }

  lemma ShownInside(m: Machine, pieces: seq<octets>, i: nat)
    requires Shows(m, pieces, i)
    ensures 0 < i < |pieces| && StopsInName(m, Concat(pieces[..i]))
  {
  }

  /** The cut calls report besides the bytes of the rejected name before the last cut that shows. */
  lemma {:induction false} CutReports(m: Machine, pieces: seq<octets>, i: nat)
    requires Tidy(m) && LastToShow(m, pieces, i)
    ensures Trace(Calls(m, pieces).calls) ==
            Trace(CallSpec(m, Concat(pieces)).calls) + SpanEvents(false, OpenName(m, Concat(pieces[..i])))
    decreases |pieces|
  {
    hide CallSpec, Trace, CutShows, Shows, OpenName, StopsInName;
    ShownInside(m, pieces, i);
    var first, rest := CallSpec(m, pieces[0]), pieces[1..];
    CallTidy(m, pieces[0]);
    SplitInvariance(m, pieces[0], Concat(rest));
    ShowsFirst(m, pieces);
    ConcatFirst(pieces, i);
    var x := Concat(rest[..i - 1]);
    if x != [] {
      ShowsNext(m, pieces, i - 1);
      assert LastToShow(first, rest, i - 1) by { LastNext(m, pieces, i); }
      CutReports(first, rest, i - 1);
      OpenNameSplit(m, pieces[0], x);
      RejectedLater(m, pieces, i);
    } else {
      if i > 1 {
        ShowsNext(m, pieces, i - 1);
      }
      forall j: nat
        ensures !Shows(first, rest, j)
      {
        if Shows(first, rest, j) {
          ShownInside(first, rest, j);
          ShowsNext(m, pieces, j);
          ConcatEmpty(rest, j, i - 1);
        }
      }
      NoCutShows(first, rest);
      assert pieces[0] + [] == pieces[0];
    }
  }

  lemma LastNext(m: Machine, pieces: seq<octets>, i: nat)
    requires Tidy(m) && LastToShow(m, pieces, i) && i > 1 && Concat(pieces[1..][..i - 1]) != []
    ensures LastToShow(CallSpec(m, pieces[0]), pieces[1..], i - 1)
  {
    hide Shows, CallSpec;
    ShownInside(m, pieces, i);
    ShowsNext(m, pieces, i - 1);
    forall j: nat | i - 1 < j < |pieces| - 1
      ensures !Shows(CallSpec(m, pieces[0]), pieces[1..], j)
    {
      ShowsNext(m, pieces, j);
    }
  }

  /** With a later cut that shows, what the first cut adds is what had been read of the name. */
  lemma RejectedLater(m: Machine, pieces: seq<octets>, i: nat)
    requires Tidy(m) && Shows(m, pieces, i)
    ensures OpenName(m, pieces[0]) == if CutShows(m, pieces[0], Concat(pieces[1..])) then OpenName(m, pieces[0]) else []
  {
    hide CallSpec, Trace, OpenName, StopsInName, NameRejected;
    var head, tail := Concat(pieces[..i]), Concat(pieces[i..]);
    ConcatSplit(pieces, i);
    CutRejects(m, head, tail);
    OpenNameIff(m, pieces[0]);
    if StopsInName(m, pieces[0]) {
      StoppedThenRejected(m, pieces[0], Concat(pieces[1..]));
      assert pieces[0] + Concat(pieces[1..]) == Concat(pieces) == head + tail;
    }
  }

  lemma {:induction false} LastExists(m: Machine, pieces: seq<octets>, i: nat) returns (last: nat)
    requires Shows(m, pieces, i)
    ensures LastToShow(m, pieces, last)
    decreases |pieces| - i
  {
    hide CutShows;
    if j: nat :| i < j < |pieces| && Shows(m, pieces, j) {
      last := LastExists(m, pieces, j);
    } else {
      last := i;
    }
  }

  /**
   However the input is cut into calls, the parser ends up alike and consumes the same bytes. Its callbacks
   report the same events iff no cut, taken alone, shows; otherwise the cut calls report besides exactly the
   bytes of the rejected name that come before the last cut that shows.
   */
  lemma CutAnywhere(m: Machine, pieces: seq<octets>)
    requires Tidy(m) && pieces != []
    ensures var one, many := CallSpec(m, Concat(pieces)), Calls(m, pieces);
            && SameCore(one, many)
            && one.used == UsedBy(m, pieces)
            && (Trace(one.calls) != Trace(many.calls) <==> exists i: nat :: Shows(m, pieces, i))
            && forall i: nat | i < |pieces| && LastToShow(m, pieces, i) ::
                 Trace(many.calls) == Trace(one.calls) + SpanEvents(false, OpenName(m, Concat(pieces[..i])))
  {
    hide CallSpec, Trace, LastToShow, Shows, OpenName;
    CutCore(m, pieces);
    forall i: nat | i < |pieces| && LastToShow(m, pieces, i)
      ensures Trace(Calls(m, pieces).calls) ==
              Trace(CallSpec(m, Concat(pieces)).calls) + SpanEvents(false, OpenName(m, Concat(pieces[..i])))
    {
      CutReports(m, pieces, i);
    }
    if i: nat :| Shows(m, pieces, i) {
      var last := LastExists(m, pieces, i);
      assert Shows(m, pieces, last) by { LastShows(m, pieces, last); }
      ShownInside(m, pieces, last);
      OpenNameIff(m, Concat(pieces[..last]));
    } else {
      NoCutShows(m, pieces);
    }
  }

  lemma LastShows(m: Machine, pieces: seq<octets>, i: nat)
    requires LastToShow(m, pieces, i)
    ensures Shows(m, pieces, i)
  {
  }

  /** Without a rejected header name no cut shows. */
  lemma CutUnrejected(m: Machine, pieces: seq<octets>)
    requires Tidy(m) && pieces != [] && CallSpec(m, Concat(pieces)).error != HPE_INVALID_HEADER_TOKEN
    ensures SameCore(CallSpec(m, Concat(pieces)), Calls(m, pieces))
    ensures Trace(CallSpec(m, Concat(pieces)).calls) == Trace(Calls(m, pieces).calls)
  {
    hide CallSpec, CutShows, Trace;
    CutAnywhere(m, pieces);
    if i: nat :| Shows(m, pieces, i) {
      ConcatSplit(pieces, i);
      CutRejects(m, Concat(pieces[..i]), Concat(pieces[i..]));
    }
  }
}
