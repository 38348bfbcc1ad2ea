/** The WebSocket controller: fragments are joined and every message goes to the reader that waits for it. */
module WebSocket {
  import opened WebSocketFrame
  import opened Wrappers

  const CONTINUATION: byte := 0x0
  const TEXT: byte := 0x1
  const BINARY: byte := 0x2
  const CLOSE: byte := 0x8
  const PING: byte := 0x9
  const PONG: byte := 0xA

  /** What became of `m_closePromise`. */
  datatype Closing = Open | Closed | Failed

  /** A message handed to the promise of one `readPayload` call. */
  datatype Delivery = Delivery(promise: nat, payload: seq<byte>)

  /**
   The controller between two events. `promises` counts the `readPayload` calls so far; `waiting` is
   the one whose promise is pending; `written` are the frames sent in answer to pings.
   */
  datatype State = State(
    received: seq<byte>,
    promises: nat,
    waiting: Option<nat>,
    delivered: seq<Delivery>,
    written: seq<seq<byte>>,
    closing: Closing)

  function Process(s: State): State {
    match s.waiting
    case None => s
    case Some(p) => s.(waiting := None, delivered := s.delivered + [Delivery(p, s.received)])
  }

  /** One accepted frame. */
  function Handle(s: State, f: Frame): State {
    if f.opcode == CLOSE then s.(closing := Closed)
    else if f.opcode == CONTINUATION then
      var s1 := s.(received := s.received + f.payload);
      if f.fin then Process(s1) else s1
    else if f.opcode == TEXT || f.opcode == BINARY then
      var s1 := s.(received := f.payload);
      if f.fin then Process(s1) else s1
    else if f.opcode == PING then
      s.(written := s.written + [Encode(true, PONG, false, 0, f.payload)])
    else s
  }

  /** A read completes with `data`, or the application asks for the next message. */
  datatype Event = Got(data: seq<byte>) | Wait

  function Step(s: State, e: Event): State {
    match e
    case Wait => s.(promises := s.promises + 1, waiting := Some(s.promises))
    case Got(data) =>
      if s.closing != Open then s
      else
        match Decode(data)
        case Parsed(f) => Handle(s, f)
        case _ => s.(closing := Failed)
  }

  function Run(s: State, es: seq<Event>): State
    decreases |es|
  {
    if es == [] then s else Run(Step(s, es[0]), es[1..])
  }

  class Impl {
    var receivedPayload: seq<byte>
    var promiseCount: nat
    var nextFramePromise: Option<nat>
    var delivered: seq<Delivery>
    var written: seq<seq<byte>>
    var closing: Closing

    constructor ()
      ensures Abs() == State([], 0, None, [], [], Open)
    {
      receivedPayload, promiseCount, nextFramePromise := [], 0, None;
      delivered, written, closing := [], [], Open;
    }

    function Abs(): State
      reads this
    {
      State(receivedPayload, promiseCount, nextFramePromise, delivered, written, closing)
    }

    /** `readPayload`: a promise that was still pending is replaced and never kept. */
    method ReadPayload() returns (promise: nat)
      modifies this
      ensures Abs() == Step(old(Abs()), Wait) && promise == old(promiseCount)
    {
      promise := promiseCount;
      nextFramePromise := Some(promise);
      promiseCount := promiseCount + 1;
    }

    method ProcessPayload()
      modifies this
      ensures Abs() == Process(old(Abs()))
    {
      if nextFramePromise.Some? {
        var tmp := nextFramePromise.value;
        nextFramePromise := None;
        delivered := delivered + [Delivery(tmp, receivedPayload)];
      }
    }

    method DoPong(payload: seq<byte>)
      modifies this
      ensures Abs() == old(Abs()).(written := old(written) + [Encode(true, PONG, false, 0, payload)])
    {
      var data := CreateFrame(true, PONG, false, 0, payload);
      written := written + [data];
    }

    /** The handler of a completed read; the code takes what one read delivers for one frame. */
    method OnRead(data: seq<byte>)
      requires closing == Open
      modifies this
      ensures Abs() == Step(old(Abs()), Got(data))
    {
      hide Decode, Encode;
      var result := Parse(data);
      match result
      case Rejected(_) => closing := Failed;
      case Unbounded => closing := Failed;
      case Parsed(frame) =>
        if frame.opcode == CLOSE {
          closing := Closed;
        } else if frame.opcode == CONTINUATION {
          receivedPayload := receivedPayload + frame.payload;
          if frame.fin {
            ProcessPayload();
          }
        } else if frame.opcode == TEXT || frame.opcode == BINARY {
          receivedPayload := frame.payload;
          if frame.fin {
            ProcessPayload();
          }
        } else if frame.opcode == PING {
          DoPong(frame.payload);
        }
    }
  }

  // ----- one read -----

  /** A pong without a mask that carries the payload. */
  predicate IsPong(w: seq<byte>, payload: seq<byte>) {
    && |w| >= 2 && ByteValue(w[0]) == 0x8A && ByteValue(w[1]) < 128
    && var start := StartOf(ByteValue(w[1]));
       |w| == start + |payload| && LengthOf(w) == |payload| && w[start..] == payload
  }

  /**
   What a read does, by the numbers of its first byte (section 5.2 of RFC 6455): 8 closes, 1 and 2 begin a message,
   0 goes on with it, a final fragment delivers the message to the request that waits, 9 is answered with a pong, and
   what is no frame fails.
   */
  lemma ReadActs(s: State, data: seq<byte>)
    requires s.closing == Open
    ensures var n := Step(s, Got(data));
            if !Decode(data).Parsed? then n == s.(closing := Failed)
            else
              && |data| >= 2
              && var payload, opcode := Decode(data).frame.payload, ByteValue(data[0]) % 16;
                 if opcode == 8 then n == s.(closing := Closed)
                 else if opcode < 3 then
                   var message := if opcode == 0 then s.received + payload else payload;
                   if ByteValue(data[0]) < 128 || s.waiting == None then n == s.(received := message)
                   else n == s.(received := message, waiting := None,
                                delivered := s.delivered + [Delivery(s.waiting.value, message)])
                 else if opcode == 9 then
                   && |n.written| == |s.written| + 1 && n == s.(written := n.written)
                   && n.written[..|s.written|] == s.written && IsPong(n.written[|s.written|], payload)
                 else n == s
  {
    hide Decode, Encode, LengthOf, ByteValue, IsPong;
    DecodeBytes(data);
    if Decode(data).Parsed? {
      var f := Decode(data).frame;
      FrameSays(data);
      OpcodeNumber(f.opcode);
      if f.opcode == PING {
        PongBytes(f.payload);
      }
    }
  }

  lemma FrameSays(data: seq<byte>)
    requires Decode(data).Parsed?
    ensures |data| >= 2 && |Decode(data).frame.payload| < TWO_64
    ensures (Decode(data).frame.fin <==> ByteValue(data[0]) >= 128)
    ensures ByteValue(Decode(data).frame.opcode) == ByteValue(data[0]) % 16
  {
    hide Decode, LengthOf, ByteValue;
    DecodeBytes(data);
  }

  lemma OpcodeNumber(opcode: byte)
    ensures opcode == CLOSE <==> ByteValue(opcode) == 8
    ensures opcode == CONTINUATION <==> ByteValue(opcode) == 0
    ensures opcode == TEXT <==> ByteValue(opcode) == 1
    ensures opcode == BINARY <==> ByteValue(opcode) == 2
    ensures opcode == PING <==> ByteValue(opcode) == 9
  {
  }

  lemma PongBytes(payload: seq<byte>)
    requires |payload| < TWO_64
    ensures IsPong(Encode(true, PONG, false, 0, payload), payload)
  {
    hide Encode, LengthOf, ByteValue;
    EncodeBytes(true, PONG, false, 0, payload);
    assert ByteValue(PONG) == 10 by { PongNumber(); }
    var e := Encode(true, PONG, false, 0, payload);
  }

  lemma PongNumber()
    ensures ByteValue(PONG) == 10
  {
  }

  /** A controller that has closed or failed answers nothing and delivers nothing more. */
  lemma {:induction false} ClosedRun(s: State, es: seq<Event>)
    requires s.closing != Open
    ensures var n := Run(s, es); n == s.(promises := n.promises, waiting := n.waiting)
    decreases |es|
  {
    if es != [] {
      ClosedRun(Step(s, es[0]), es[1..]);
    }
  }

  // ----- fragmented messages -----

  /** What may happen between two fragments. */
  datatype Side = Asks | Pings(mask: bool, key: bv32, payload: seq<byte>)

  datatype Fragment = Fragment(before: seq<Side>, mask: bool, key: bv32, bytes: seq<byte>)

  predicate SideFits(x: Side) {
    x.Pings? ==> Sizeable(|x.payload|)
  }

  predicate FragmentFits(f: Fragment) {
    Sizeable(|f.bytes|) && forall x | x in f.before :: SideFits(x)
  }

  function SideEvent(x: Side): Event {
    match x
    case Asks => Wait
    case Pings(mask, key, payload) => Got(Encode(true, PING, mask, key, payload))
  }

  function SideEvents(xs: seq<Side>): seq<Event> {
    if xs == [] then [] else [SideEvent(xs[0])] + SideEvents(xs[1..])
  }

  /** The events of a message whose next fragment carries the given opcode. */
  function MessageEvents(opcode: byte, fs: seq<Fragment>): seq<Event> {
    if fs == [] then []
    else
      SideEvents(fs[0].before)
      + ([Got(Encode(|fs| == 1, opcode, fs[0].mask, fs[0].key, fs[0].bytes))] + MessageEvents(CONTINUATION, fs[1..]))
  }

  function Joined(fs: seq<Fragment>): seq<byte> {
    if fs == [] then [] else fs[0].bytes + Joined(fs[1..])
  }

  /** The state after some side events: the newest request waits and every ping has its answer. */
  function AfterSides(s: State, xs: seq<Side>): State
    decreases |xs|
  {
    if xs == [] then s else AfterSides(AfterSide(s, xs[0]), xs[1..])
  }

  function AfterSide(s: State, x: Side): State {
    match x
    case Asks => s.(promises := s.promises + 1, waiting := Some(s.promises))
    case Pings(_, _, payload) => s.(written := s.written + [Encode(true, PONG, false, 0, payload)])
  }

  function AllSides(fs: seq<Fragment>): seq<Side> {
    if fs == [] then [] else fs[0].before + AllSides(fs[1..])
  }

  lemma {:induction false} RunConcat(s: State, a: seq<Event>, b: seq<Event>)
    ensures Run(s, a + b) == Run(Run(s, a), b)
    decreases |a|
  {
    if a == [] {
      assert a + b == b;
    } else {
      assert (a + b)[1..] == a[1..] + b;
      RunConcat(Step(s, a[0]), a[1..], b);
    }
  }

  lemma StepFrame(s: State, fin: bool, opcode: byte, mask: bool, key: bv32, payload: seq<byte>)
    requires s.closing == Open && Sizeable(|payload|) && Low4(opcode) == opcode
    ensures Step(s, Got(Encode(fin, opcode, mask, key, payload))) ==
            Handle(s, Frame(fin, opcode, mask, |payload|, if mask then Some(key) else None, payload))
  {
    RoundTrip(fin, opcode, mask, key, payload, []);
    var data := Encode(fin, opcode, mask, key, payload);
    assert data + [] == data;
  }

  lemma Opcodes()
    ensures forall opcode: byte :: opcode in {CONTINUATION, TEXT, BINARY, PING, PONG} ==> Low4(opcode) == opcode
  {
  }

  lemma {:induction false} SidesRun(s: State, xs: seq<Side>)
    requires s.closing == Open && forall x | x in xs :: SideFits(x)
    ensures Run(s, SideEvents(xs)) == AfterSides(s, xs)
    ensures AfterSides(s, xs).closing == Open && AfterSides(s, xs).received == s.received
    ensures AfterSides(s, xs).delivered == s.delivered
    decreases |xs|
  {
    hide Encode, Decode;
    if xs != [] {
      var e := SideEvent(xs[0]);
      assert SideFits(xs[0]);
      if xs[0].Pings? {
        Opcodes();
        StepFrame(s, true, PING, xs[0].mask, xs[0].key, xs[0].payload);
      }
      SidesRun(Step(s, e), xs[1..]);
      assert SideEvents(xs)[1..] == SideEvents(xs[1..]);
    }
  }

  /** Sides do not look at what has been received. */
  lemma {:induction false} SidesConcat(s: State, r: seq<byte>, a: seq<Side>, b: seq<Side>)
    ensures AfterSides(s, a + b) == AfterSides(AfterSides(s, a), b)
    ensures AfterSides(s.(received := r), a) == AfterSides(s, a).(received := r)
    decreases |a|
  {
    if a == [] {
      assert a + b == b;
    } else {
      assert (a + b)[1..] == a[1..] + b;
      SidesConcat(AfterSide(s, a[0]), r, a[1..], b);
    }
  }

  /** One fragment after its side events: it is kept, and delivered if it is final. */
  lemma FragmentRun(s: State, fin: bool, opcode: byte, f: Fragment, tail: seq<Event>)
    requires s.closing == Open && FragmentFits(f) && opcode in {CONTINUATION, TEXT, BINARY}
    ensures var s1 := AfterSides(s, f.before);
            var s2 := s1.(received := (if opcode == CONTINUATION then s.received else []) + f.bytes);
            Run(s, SideEvents(f.before) + ([Got(Encode(fin, opcode, f.mask, f.key, f.bytes))] + tail)) ==
            Run(if fin then Process(s2) else s2, tail)
  {
    hide Encode, Decode, SideEvents, AfterSides, Process;
    var s1 := AfterSides(s, f.before);
    var e := Got(Encode(fin, opcode, f.mask, f.key, f.bytes));
    SidesRun(s, f.before);
    RunConcat(s, SideEvents(f.before), [e] + tail);
    Opcodes();
    StepFrame(s1, fin, opcode, f.mask, f.key, f.bytes);
    assert ([e] + tail)[1..] == tail;
    assert [] + f.bytes == f.bytes;
  }

  /**
   Reassembly: whatever the fragmentation, the masking keys, the pings and the moments the
   application asks, the message goes in one piece to the newest request pending at its final
   fragment, and to nobody if there is none; nothing is delivered before.
   */
  lemma {:induction false} MessageRun(s: State, opcode: byte, fs: seq<Fragment>)
    requires s.closing == Open && fs != [] && forall f | f in fs :: FragmentFits(f)
    requires opcode in {CONTINUATION, TEXT, BINARY}
    ensures Run(s, MessageEvents(opcode, fs)) ==
            Process(AfterSides(s, AllSides(fs)).(
              received := (if opcode == CONTINUATION then s.received else []) + Joined(fs)))
    decreases |fs|
  {
    hide Encode, Decode, SideEvents, Process, FragmentFits, Step;
    var f, s1 := fs[0], AfterSides(s, fs[0].before);
    var before := if opcode == CONTINUATION then s.received else [];
    var tail := MessageEvents(CONTINUATION, fs[1..]);
    FragmentRun(s, |fs| == 1, opcode, f, tail);
    var s2 := s1.(received := before + f.bytes);
    if |fs| == 1 {
      assert tail == [] && f.bytes + [] == f.bytes && f.before + [] == f.before;
    } else {
      SidesRunOpen(s, f);
      hide Run;
      MessageRun(s2, CONTINUATION, fs[1..]);
      SidesConcat(s, before + f.bytes, f.before, AllSides(fs[1..]));
      SidesConcat(s1, before + f.bytes, AllSides(fs[1..]), []);
      assert before + f.bytes + Joined(fs[1..]) == before + Joined(fs);
    }
  }

  lemma SidesRunOpen(s: State, f: Fragment)
    requires s.closing == Open && FragmentFits(f)
    ensures AfterSides(s, f.before).closing == Open
  {
    SidesRun(s, f.before);
  }

  lemma {:induction false} SideEventsTake(xs: seq<Side>, k: nat)
    requires k <= |xs|
    ensures |SideEvents(xs)| == |xs| && SideEvents(xs)[..k] == SideEvents(xs[..k])
  {
    if xs != [] {
      SideEventsTake(xs[1..], if k == 0 then 0 else k - 1);
      if k > 0 {
        assert xs[..k][1..] == xs[1..][..k - 1];
      }
    }
  }

  /** Before its last event a message delivers nothing. */
  lemma {:induction false} EarlierSilent(s: State, opcode: byte, fs: seq<Fragment>, k: nat)
    requires s.closing == Open && fs != [] && forall f | f in fs :: FragmentFits(f)
    requires opcode == CONTINUATION || opcode == TEXT || opcode == BINARY
    requires k < |MessageEvents(opcode, fs)|
    ensures Run(s, MessageEvents(opcode, fs)[..k]).delivered == s.delivered
    decreases |fs|
  {
    hide Encode, Decode, Run, Step, SideEvents, AfterSides, FragmentFits;
    var f := fs[0];
    FitsSides(f);
    var sides, n := SideEvents(f.before), |f.before|;
    var e := Got(Encode(|fs| == 1, opcode, f.mask, f.key, f.bytes));
    var tail := MessageEvents(CONTINUATION, fs[1..]);
    SideEventsTake(f.before, if k <= n then k else n);
    TakeMessage(sides, e, tail, k);
    if k <= n {
      SidesRun(s, f.before[..k]);
    } else {
      var s1, more := AfterSides(s, f.before), tail[..k - n - 1];
      SidesRun(s, f.before);
      RunConcat(s, sides, [e] + more);
      RunFirst(s1, e, more);
      FragmentKept(s1, opcode, f);
      EarlierSilent(Step(s1, e), CONTINUATION, fs[1..], k - n - 1);
    }
  }

  lemma TakeMessage(sides: seq<Event>, e: Event, tail: seq<Event>, k: nat)
    requires k <= |sides| + 1 + |tail|
    ensures k <= |sides| ==> (sides + ([e] + tail))[..k] == sides[..k]
    ensures k > |sides| ==> (sides + ([e] + tail))[..k] == sides + ([e] + tail[..k - |sides| - 1])
  {
  }

  lemma FitsSides(f: Fragment)
    requires FragmentFits(f)
    ensures forall x | x in f.before :: SideFits(x)
  {
  }

  lemma RunFirst(s: State, e: Event, es: seq<Event>)
    ensures Run(s, [e] + es) == Run(Step(s, e), es)
  {
    assert ([e] + es)[1..] == es;
  }

  /** A fragment that is not the last is kept and delivers nothing. */
  lemma FragmentKept(s: State, opcode: byte, f: Fragment)
    requires s.closing == Open && FragmentFits(f)
    requires opcode == CONTINUATION || opcode == TEXT || opcode == BINARY
    ensures var n := Step(s, Got(Encode(false, opcode, f.mask, f.key, f.bytes)));
            n.closing == Open && n.delivered == s.delivered
  {
    hide Encode, Decode;
    Opcodes();
    StepFrame(s, false, opcode, f.mask, f.key, f.bytes);
  }

  // ----- promises -----

  /** How often the application has asked. */
  function Requests(es: seq<Event>): nat {
    if es == [] then 0 else Requests(es[..|es| - 1]) + if es[|es| - 1] == Wait then 1 else 0
  }

  /** The deliveries keep promises in the order they were made, each at most once, and only the newest can wait. */
  predicate Kept(s: State, asked: nat) {
    && s.promises == asked
    && (s.waiting.Some? ==> s.waiting.value + 1 == asked)
    && (forall i | 0 <= i < |s.delivered| :: s.delivered[i].promise < asked)
    && (forall i | 0 <= i < |s.delivered| && s.waiting.Some? :: s.delivered[i].promise < s.waiting.value)
    && (forall i, j | 0 <= i < j < |s.delivered| :: s.delivered[i].promise < s.delivered[j].promise)
  }

  lemma StepKept(s: State, e: Event, asked: nat)
    requires Kept(s, asked)
    ensures Kept(Step(s, e), asked + if e == Wait then 1 else 0)
  {
    hide Decode, Encode;
  }

  lemma {:induction false} PromisesKept(es: seq<Event>)
    ensures Kept(Run(State([], 0, None, [], [], Open), es), Requests(es))
  {
    var s := State([], 0, None, [], [], Open);
    hide Step, Kept;
    if es == [] {
      assert Kept(s, 0) by { NothingKept(); }
    } else {
      var n := |es| - 1;
      PromisesKept(es[..n]);
      StepKept(Run(s, es[..n]), es[n], Requests(es[..n]));
      RunConcat(s, es[..n], [es[n]]);
      assert es[..n] + [es[n]] == es && [es[n]][1..] == [];
    }
  }

  lemma NothingKept()
    ensures Kept(State([], 0, None, [], [], Open), 0)
  {
  }

  // ----- whole conversations -----

  datatype Message = Message(opcode: byte, fragments: seq<Fragment>)

  /** A data message in fragments, during which the application asks for it at least once. */
  predicate Asked(m: Message) {
    && (m.opcode == TEXT || m.opcode == BINARY)
    && m.fragments != [] && (forall f | f in m.fragments :: FragmentFits(f))
    && Asks in AllSides(m.fragments)
  }

  function Conversation(ms: seq<Message>): seq<Event> {
    if ms == [] then [] else MessageEvents(ms[0].opcode, ms[0].fragments) + Conversation(ms[1..])
  }

  function Payloads(ds: seq<Delivery>): seq<seq<byte>> {
    seq(|ds|, i requires 0 <= i < |ds| => ds[i].payload)
  }

  function Messages(ms: seq<Message>): seq<seq<byte>> {
    seq(|ms|, i requires 0 <= i < |ms| => Joined(ms[i].fragments))
  }

  lemma {:induction false} AskedWaits(s: State, xs: seq<Side>)
    requires s.waiting.Some? || Asks in xs
    ensures AfterSides(s, xs).waiting.Some? && AfterSides(s, xs).delivered == s.delivered
    ensures AfterSides(s, xs).closing == s.closing
    decreases |xs|
  {
    if xs != [] {
      AskedWaits(AfterSide(s, xs[0]), xs[1..]);
    }
  }

  lemma OneMessage(s: State, m: Message)
    requires s.closing == Open && Asked(m)
    ensures var t := Run(s, MessageEvents(m.opcode, m.fragments));
            t.closing == Open && Payloads(t.delivered) == Payloads(s.delivered) + [Joined(m.fragments)]
  {
    MessageRun(s, m.opcode, m.fragments);
    AskedWaits(s, AllSides(m.fragments));
    hide Run, MessageEvents, AfterSides;
    assert [] + Joined(m.fragments) == Joined(m.fragments);
  }

  /** Every message the application asks for arrives, whole, once and in order. */
  lemma {:induction false} ConversationRun(s: State, ms: seq<Message>)
    requires s.closing == Open && forall m | m in ms :: Asked(m)
    ensures Payloads(Run(s, Conversation(ms)).delivered) == Payloads(s.delivered) + Messages(ms)
    decreases |ms|
  {
    hide Step, MessageEvents, Asked, Joined;
    if ms != [] {
      var m := ms[0];
      assert Asked(m);
      var events := MessageEvents(m.opcode, m.fragments);
      OneMessage(s, m);
      RunConcat(s, events, Conversation(ms[1..]));
      ConversationRun(Run(s, events), ms[1..]);
      assert [Joined(m.fragments)] + Messages(ms[1..]) == Messages(ms);
    }
  }
}
