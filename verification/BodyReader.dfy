/** The Content-Length body reader: it splits a shared byte stream exactly at the end of the body. */
module BodyReader {
  import opened Octets
  import opened LlhttpSpec
  import opened LlhttpParser

  /** A reader that takes bytes back: `stream` is everything it will still deliver. */
  class PushbackReader {
    var stream: octets

    constructor (s: octets)
      ensures stream == s
    {
      stream := s;
    }

    /** Delivers at most `room` bytes, and at least one unless the stream or the room is empty. */
    method Read(room: nat) returns (got: octets)
      modifies this
      ensures got + stream == old(stream) && |got| <= room
      ensures got == [] ==> room == 0 || old(stream) == []
    {
      var most := if room < |stream| then room else |stream|;
      var n: nat :| n <= most && (n == 0 ==> most == 0);
      got := stream[..n];
      stream := stream[n..];
    }

    method Unread(bytes: octets)
      modifies this
      ensures stream == bytes + old(stream)
    {
      stream := bytes + stream;
    }
  }

  predicate InBody(m: Machine) {
    m.error == HPE_OK && m.held == []
    && (m.current.SpanStartBody1? || (m.current.ConsumeContentLength1? && m.contentLength > 0))
  }

  /** The callbacks of one call inside a Content-Length body. */
  function BodyCalls(m: Machine, got: octets): seq<Call> {
    if got == [] then
      if m.current.SpanStartBody1? then [] else [OnBody([])]
    else if |got| < m.contentLength then [OnBody(got)]
    else [OnBody(got[..m.contentLength]), OnMessageComplete]
  }

  lemma BodyCall(m: Machine, got: octets)
    requires InBody(m)
    ensures var n := CallSpec(m, got);
            && n.calls == m.calls + BodyCalls(m, got)
            && if got != [] && |got| >= m.contentLength
               then n.error == HPE_PAUSED && n.contentLength == 0
               else InBody(n) && n.contentLength == m.contentLength - |got|
                    && (got == [] ==> n.current == m.current) && (got != [] ==> n.current.ConsumeContentLength1?)
  {
    hide Run, Step;
    var m0 := m.(used := 0);
    if got == [] {
      assert Run(m0, got) == m0 by { RunEmpty(m0); }
    } else {
      var open := m0.(current := ConsumeContentLength1);
      if m.current.SpanStartBody1? {
        StepSpanStart(m0, got[0], ConsumeContentLength1);
        RunNext(m0, open, got);
      }
      var k := if |got| < m.contentLength then |got| else m.contentLength;
      ConsumeRun(open, got, k);
      assert [] + got[..k] == got[..k];
      var after := open.(contentLength := m.contentLength - k, held := got[..k], used := k);
      RunSettle(after, got[k..]);
      if |got| < m.contentLength {
        assert got[k..] == [] && got[..k] == got;
        RunEmpty(after);
      } else {
        RunStopped(Settle(after), got[k..]);
        assert m.calls + [OnBody(got[..k])] + [OnMessageComplete] == m.calls + BodyCalls(m, got);
      }
    }
  }

  class BodyReaderImpl {
    const device: PushbackReader
    const httpParser: Parser
    var bodyPieceSize: nat
    var eof: bool

    // The length of the body, what has been delivered of it, and the stream it came from.
    ghost const length: nat
    ghost const source: octets
    ghost var delivered: octets

    constructor (device: PushbackReader, httpParser: Parser)
      requires httpParser.Valid() && InBody(httpParser.Abs()) && httpParser.current.SpanStartBody1?
      requires httpParser.finish == Unsafe
      ensures Valid() && this.device == device && this.httpParser == httpParser
      ensures length == httpParser.contentLength && source == device.stream && delivered == []
    {
      this.device, this.httpParser := device, httpParser;
      bodyPieceSize, eof := 0, false;
      length, source, delivered := httpParser.contentLength, device.stream, [];
    }

    /**
     Nothing of the stream is lost, duplicated or reordered, and what has been delivered and what the
     parser still expects add up to the length of the body.
     */
    ghost predicate Valid()
      reads this, device, httpParser
    {
      && httpParser.Valid() && httpParser.finish == Unsafe
      && delivered + device.stream == source
      && if eof then |delivered| == length
         else InBody(httpParser.Abs()) && |delivered| + httpParser.contentLength == length
              && (httpParser.current.SpanStartBody1? ==> bodyPieceSize == 0 && delivered == [])
    }

    /** `onBodyData` and `onMessageComplete` */
    method Callback(c: Call)
      modifies this`bodyPieceSize, this`eof
      ensures bodyPieceSize == if c.OnBody? then |c.bytes| else old(bodyPieceSize)
      ensures eof == (old(eof) || c.OnMessageComplete?)
    {
      match c
      case OnBody(bytes) => bodyPieceSize := |bytes|;
      case OnMessageComplete => eof := true;
      case _ =>
    }

    /** Runs the parser on what was read; its callbacks set the piece size and the end-of-body flag. */
    method Parse(got: octets)
      requires httpParser.Valid() && InBody(httpParser.Abs()) && !eof
      requires httpParser.current.SpanStartBody1? ==> bodyPieceSize == 0
      modifies this`bodyPieceSize, this`eof, httpParser
      ensures httpParser.Valid()
      ensures var left := old(httpParser.contentLength);
              && bodyPieceSize == (if |got| < left then |got| else left)
              && eof == (got != [] && |got| >= left)
              && if eof then httpParser.error == HPE_PAUSED
                 else InBody(httpParser.Abs()) && httpParser.contentLength == left - bodyPieceSize
                      && (httpParser.current.SpanStartBody1? ==> got == [])
                      && (got == [] ==> httpParser.current == old(httpParser.current))
    {
      hide Resting;
      ghost var m := httpParser.Abs();
      var i := |httpParser.calls|;
      httpParser.Execute(got);
      BodyCall(m, got);
      ghost var new_ := BodyCalls(m, got);
      assert httpParser.calls == m.calls + new_;
      while i < |httpParser.calls|
        invariant |m.calls| <= i <= |httpParser.calls|
        invariant i == |m.calls| ==> bodyPieceSize == old(bodyPieceSize)
        invariant i > |m.calls| ==> bodyPieceSize == |new_[0].bytes|
        invariant eof == (i == |m.calls| + 2)
        modifies this`bodyPieceSize, this`eof
      {
        Callback(httpParser.calls[i]);
        i := i + 1;
      }
    }

    /**
     One read into a buffer of the given room. The result is the error of the callback or the piece of
     the body handed to it, and what `llhttp_finish` returned if it was called; what the read took beyond the
     body goes back to the device.
     */
    method Read(room: nat) returns (error: nat, piece: octets, finished: nat)
      requires Valid()
      modifies this, device, httpParser
      ensures Valid() && error == HPE_OK && |piece| <= room
      ensures delivered == old(delivered) + piece
      ensures piece == [] ==> room == 0 || old(device.stream) == [] || |delivered| == length
      ensures finished == if !old(eof) && (room == 0 || old(device.stream) == []) then HPE_INVALID_EOF_STATE else HPE_OK
      ensures piece == [] ==> (finished == HPE_OK <==> eof)
    {
      hide Resting;
      finished := HPE_OK;
      if eof {
        return HPE_OK, [], HPE_OK;
      }
      var got := device.Read(room);
      ghost var rest := device.stream;
      assert delivered + (got + rest) == source;
      Parse(got);
      Conserved(delivered, got, bodyPieceSize, rest);
      if got == [] {
        // The result is dropped.
        finished := httpParser.Finish();
      }
      error := if httpParser.error == HPE_PAUSED then HPE_OK else httpParser.error;
      if |got| > bodyPieceSize {
        device.Unread(got[bodyPieceSize..]);
      }
      piece := got[..bodyPieceSize];
      delivered := delivered + piece;
    }
  }

  /** What is handed over and what goes back are together what was there. */
  lemma Conserved(delivered: octets, got: octets, k: nat, rest: octets)
    requires k <= |got|
    ensures (delivered + got[..k]) + (got[k..] + rest) == delivered + (got + rest)
    ensures k == |got| ==> got[k..] + rest == rest
  {
    assert got[..k] + got[k..] == got;
  }

  /**
   Reading with non-empty buffers until a read delivers nothing hands over exactly the first `length`
   bytes of the stream and leaves the rest in the device. A stream that ends early is delivered whole
   and ends the body just the same: `llhttp_finish` says that the message is cut short, the reader does not.
   */
  method ReadAll(reader: BodyReaderImpl) returns (body: octets, error: nat, finished: nat)
    requires reader.Valid() && reader.delivered == []
    modifies reader, reader.device, reader.httpParser
    ensures reader.Valid() && error == HPE_OK
    ensures var n := if reader.length < |reader.source| then reader.length else |reader.source|;
            body == reader.source[..n] && reader.device.stream == reader.source[n..]
    ensures finished == if reader.eof then HPE_OK else HPE_INVALID_EOF_STATE
    ensures reader.length > |reader.source| ==> finished == HPE_INVALID_EOF_STATE
    ensures 0 < reader.length <= |reader.source| ==> finished == HPE_OK
  {
    body, error, finished := [], HPE_OK, HPE_OK;
    while true
      invariant reader.Valid() && body == reader.delivered && error == HPE_OK
      decreases |reader.device.stream|
    {
      var room: nat :| room > 0;
      var piece;
      error, piece, finished := reader.Read(room);
      body := body + piece;
      if piece == [] {
        assert body + reader.device.stream == reader.source;
        return;
      }
    }
  }

  /** The shortest body cut short: of two bytes announced one arrives, and the reader ends the body without an error. */
  method CutShort() returns (body: octets, error: nat, finished: nat)
    ensures body == "x" && error == HPE_OK && finished == HPE_INVALID_EOF_STATE
  {
    var device := new PushbackReader("x");
    var httpParser := new Parser.ForBody(2);
    var reader := new BodyReaderImpl(device, httpParser);
    body, error, finished := ReadAll(reader);
    assert "x"[..1] == "x";
  }
}
