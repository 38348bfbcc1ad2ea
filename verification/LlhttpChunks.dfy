/** Chunked decoding undoes chunked encoding (section 4.1 of RFC 7230). */
module LlhttpChunks {
  import opened Octets
  import opened LlhttpBytes
  import opened LlhttpSpec
  import opened LlhttpNumbers
  import opened LlhttpSplit
  import P = LlhttpParser

  /**
   A chunk as sent: its size in hex digits, an optional extension, what stands in place of the LF of its size
   line, its data, and what stands in place of the CRLF after them. The loose parser looks at neither.
   */
  datatype Chunk = Chunk(size: octets, ext: octets, lf: octet, data: octets, end: octets)

  predicate AllHex(s: octets) {
    forall i :: 0 <= i < |s| ==> HexDigit(s[i]) >= 0
  }

  function Digits(s: octets): (ds: seq<nat>)
    requires AllHex(s)
    ensures |ds| == |s| && forall i :: 0 <= i < |ds| ==> ds[i] < 16
  {
    seq(|s|, i requires 0 <= i < |s| => HexDigit(s[i]))
  }

  /** A size line: digits of the given value, in either case and with leading zeros, and an extension. */
  predicate SizeLine(size: octets, ext: octets, n: nat) {
    && size != [] && AllHex(size) && Value(16, 0, Digits(size)) == n
    && (ext == [] || ((ext[0] == ' ' || ext[0] == ';') && CR !in ext))
  }

  predicate WellFormed(c: Chunk) {
    SizeLine(c.size, c.ext, |c.data|) && 0 < |c.data| <= MAX_UINT64 && |c.end| == 2
  }

  function Encode(c: Chunk): octets {
    c.size + (c.ext + ([CR, c.lf] + (c.data + c.end)))
  }

  function EncodeAll(chunks: seq<Chunk>): octets {
    if chunks == [] then [] else Encode(chunks[0]) + EncodeAll(chunks[1..])
  }

  /** What the callbacks report of a chunk. */
  function ChunkEvents(c: Chunk): seq<Event> {
    [ChunkHeader] + SpanEvents(true, c.data) + [ChunkComplete]
  }

  function AllEvents(chunks: seq<Chunk>): seq<Event> {
    if chunks == [] then [] else ChunkEvents(chunks[0]) + AllEvents(chunks[1..])
  }

  /** The body the chunks carry. */
  function Body(chunks: seq<Chunk>): octets {
    if chunks == [] then [] else chunks[0].data + Body(chunks[1..])
  }

  function BodyOf(es: seq<Event>): octets {
    if es == [] then []
    else (if es[0].BodyByte? then [es[0].b] else []) + BodyOf(es[1..])
  }

  lemma RunOne(m: Machine, b: octet, rest: octets)
    ensures Run(m, [b] + rest) == Run(Step(m, b), rest)
  {
    assert ([b] + rest)[1..] == rest;
  }

  lemma {:induction false} DigitsRun(m: Machine, size: octets, rest: octets)
    requires m.error == HPE_OK && (m.current == ChunkSize || (m.current == ChunkSizeDigit && size != []))
    requires AllHex(size) && m.contentLength <= MAX_UINT64
    requires Value(16, m.contentLength, Digits(size)) <= MAX_UINT64
    ensures Run(m, size + rest) ==
            Run(m.(current := ChunkSize, contentLength := Value(16, m.contentLength, Digits(size)),
                   used := m.used + |size|), rest)
    decreases |size|
  {
    hide Run, Step;
    if size == [] {
      assert size + rest == rest;
    } else {
      var tail := size[1..];
      assert size + rest == [size[0]] + (tail + rest);
      assert Digits(size)[1..] == Digits(tail);
      var d := HexDigit(size[0]);
      ValueGrows(16, m.contentLength * 16 + d, Digits(tail));
      DigitRun(m, size[0], tail + rest);
      DigitsRun(m.(current := ChunkSize, contentLength := m.contentLength * 16 + d, used := m.used + 1), tail, rest);
    }
  }

  /** One digit of a size that still fits. */
  lemma DigitRun(m: Machine, b: octet, rest: octets)
    requires m.error == HPE_OK && (m.current == ChunkSize || m.current == ChunkSizeDigit)
    requires HexDigit(b) >= 0 && m.contentLength * 16 + HexDigit(b) <= MAX_UINT64
    ensures Run(m, [b] + rest) ==
            Run(m.(current := ChunkSize, contentLength := m.contentLength * 16 + HexDigit(b), used := m.used + 1), rest)
  {
    hide Run, Step, HexDigit;
    var n := m.contentLength * 16 + HexDigit(b);
    var m1 := m.(current := ChunkSize, contentLength := n, used := m.used + 1);
    MulAddExact(m.contentLength, 16, HexDigit(b));
    P.StepDigit(m, b);
    assert SizeDigit(m, HexDigit(b)) == m1;
    hide SizeDigit;
    RunOne(m, b, rest);
  }

  /** A size that does not fit 64 bits is refused, wherever in the digits that shows. */
  lemma {:induction false} SizeOverflow(m: Machine, size: octets, rest: octets)
    requires m.error == HPE_OK && (m.current == ChunkSize || m.current == ChunkSizeDigit)
    requires AllHex(size) && m.contentLength <= MAX_UINT64
    requires Value(16, m.contentLength, Digits(size)) > MAX_UINT64
    ensures Run(m, size + rest).error == HPE_INVALID_CHUNK_SIZE
    decreases |size|
  {
    hide Run, Step;
    var tail := size[1..];
    assert size + rest == [size[0]] + (tail + rest);
    assert Digits(size)[1..] == Digits(tail);
    var d := HexDigit(size[0]);
    if m.contentLength * 16 + d > MAX_UINT64 {
      MulAddExact(m.contentLength, 16, d);
      P.StepDigit(m, size[0]);
      RunOne(m, size[0], tail + rest);
      RunStopped(Step(m, size[0]), tail + rest);
    } else {
      DigitRun(m, size[0], tail + rest);
      SizeOverflow(m.(current := ChunkSize, contentLength := m.contentLength * 16 + d, used := m.used + 1), tail, rest);
    }
  }

  lemma {:induction false} ParametersRun(m: Machine, ext: octets, rest: octets)
    requires m.error == HPE_OK && m.current == ChunkParameters && CR !in ext
    ensures Run(m, ext + rest) == Run(m.(used := m.used + |ext|), rest)
    decreases |ext|
  {
    if ext == [] {
      assert ext + rest == rest;
    } else {
      hide Run, Step;
      assert ext + rest == [ext[0]] + (ext[1..] + rest);
      P.StepSize(m, ext[0]);
      RunOne(m, ext[0], ext[1..] + rest);
      ParametersRun(m.(used := m.used + 1), ext[1..], rest);
    }
  }

  /** The CR that ends the size line, right after the digits or after the parameters. */
  lemma {:induction false} LineEndRun(m: Machine, lf: octet, rest: octets)
    requires m.error == HPE_OK && (m.current == ChunkSize || m.current == ChunkParameters)
    ensures Run(m, [CR, lf] + rest) ==
            Run(m.(current := IsEqualContentLength, calls := m.calls + [OnChunkHeader], used := m.used + 2), rest)
  {
    hide Step, Run;
    P.StepSize(m, CR);
    var m1 := m.(current := ChunkSizeAlmostDone, used := m.used + 1);
    P.StepSize(m1, lf);
    assert [CR, lf] + rest == [CR] + ([lf] + rest);
    RunOne(m, CR, [lf] + rest);
    RunOne(m1, lf, rest);
    RunSettle(Emit(Take(m1, IsEqualContentLength), OnChunkHeader), rest);
  }

  /** After the size digits: an extension. */
  lemma {:induction false} ExtensionRun(m: Machine, ext: octets, rest: octets)
    requires m.error == HPE_OK && m.current == ChunkSize
    requires ext != [] && (ext[0] == ' ' || ext[0] == ';') && CR !in ext
    ensures Run(m, ext + rest) == Run(m.(current := ChunkParameters, used := m.used + |ext|), rest)
  {
    hide Step, Run;
    P.StepSize(m, ext[0]);
    assert ext + rest == [ext[0]] + (ext[1..] + rest);
    RunOne(m, ext[0], ext[1..] + rest);
    ParametersRun(m.(current := ChunkParameters, used := m.used + 1), ext[1..], rest);
  }

  /** What follows the size digits on their line. */
  lemma {:induction false} TailRun(m: Machine, ext: octets, lf: octet, rest: octets)
    requires m.error == HPE_OK && m.current == ChunkSize
    requires ext == [] || ((ext[0] == ' ' || ext[0] == ';') && CR !in ext)
    ensures Run(m, ext + ([CR, lf] + rest)) ==
            Run(m.(current := IsEqualContentLength, calls := m.calls + [OnChunkHeader],
                   used := m.used + |ext| + 2), rest)
  {
    hide Step, Run;
    if ext == [] {
      assert ext + ([CR, lf] + rest) == [CR, lf] + rest;
      LineEndRun(m, lf, rest);
    } else {
      ExtensionRun(m, ext, [CR, lf] + rest);
      LineEndRun(m.(current := ChunkParameters, used := m.used + |ext|), lf, rest);
    }
  }

  /** A size line as a whole. */
  lemma {:induction false} SizeLineRun(m: Machine, size: octets, ext: octets, n: nat, lf: octet, rest: octets)
    requires m.error == HPE_OK && m.current == ChunkSizeDigit && m.contentLength == 0
    requires SizeLine(size, ext, n) && n <= MAX_UINT64
    ensures Run(m, size + (ext + ([CR, lf] + rest))) ==
            Run(m.(current := IsEqualContentLength, contentLength := n, calls := m.calls + [OnChunkHeader],
                   used := m.used + |size| + |ext| + 2), rest)
  {
    hide Step, Run, SizeLine, Value, Digits, AllHex;
    SizeLineMeans(size, ext, n);
    var tail := ext + ([CR, lf] + rest);
    DigitsRun(m, size, tail);
    var m1 := m.(current := ChunkSize, contentLength := n, used := m.used + |size|);
    assert Run(m, size + tail) == Run(m1, tail);
    TailRun(m1, ext, lf, rest);
  }

  /**
   A size line, as far as it has come, is refused exactly if it starts with no hex digit, its digits say 2^64 or
   more, or they are followed by anything but CR, a space or a semicolon.
   */
  lemma SizeRefusedIff(m: Machine, w: octets, k: nat)
    requires AtChunk(m) && w != [] && k <= |w| && CR !in w
    requires forall i :: 0 <= i < k ==> IsHex(w[i])
    requires k < |w| ==> !IsHex(w[k])
    ensures AllHex(w[..k])
    ensures var n := Value(16, 0, Digits(w[..k]));
            if n > MAX_UINT64 then Run(m, w).error == HPE_INVALID_CHUNK_SIZE
            else if k == 0 || (k < |w| && w[k] != ' ' && w[k] != ';') then
              Run(m, w) == m.(current := ErrorState, error := HPE_INVALID_CHUNK_SIZE,
                              contentLength := n, used := m.used + k)
            else Run(m, w) == m.(current := if k < |w| then ChunkParameters else ChunkSize,
                                 contentLength := n, used := m.used + |w|)
  {
    hide Run, Step, HexDigit, Value, Digits, AllHex, IsHex;
    HexBytes(w, k);
    var size, tail := w[..k], w[k..];
    assert w == size + tail;
    if k == 0 {
      assert Value(16, 0, Digits(size)) == 0 by { NoDigits(); }
      P.StepDigit(m, w[0]);
      assert w == [w[0]] + w[1..];
      RunOne(m, w[0], w[1..]);
      RunStopped(Step(m, w[0]), w[1..]);
    } else if Value(16, 0, Digits(size)) > MAX_UINT64 {
      SizeOverflow(m, size, tail);
    } else {
      DigitsRun(m, size, tail);
      SizeTail(m.(current := ChunkSize, contentLength := Value(16, 0, Digits(size)), used := m.used + k), tail);
    }
  }

  lemma NoDigits()
    ensures Value(16, 0, Digits([])) == 0
  {
  }

  lemma HexBytes(w: octets, k: nat)
    requires k <= |w| && forall i :: 0 <= i < k ==> IsHex(w[i])
    ensures AllHex(w[..k])
    ensures k < |w| && !IsHex(w[k]) ==> HexDigit(w[k]) < 0
  {
    hide HexDigit, IsHex;
    forall i | 0 <= i < k
      ensures HexDigit(w[..k][i]) >= 0
    {
      HexByte(w[i]);
    }
    if k < |w| {
      HexDigits(0, w[k]);
    }
  }

  lemma HexByte(b: octet)
    requires IsHex(b)
    ensures HexDigit(b) >= 0
  {
  }

  /** What follows the digits of a size. */
  lemma SizeTail(m: Machine, tail: octets)
    requires m.error == HPE_OK && m.current == ChunkSize && CR !in tail
    requires tail != [] ==> HexDigit(tail[0]) < 0
    ensures if tail != [] && tail[0] != ' ' && tail[0] != ';' then
              Run(m, tail) == m.(current := ErrorState, error := HPE_INVALID_CHUNK_SIZE)
            else
              Run(m, tail) == m.(current := if tail == [] then ChunkSize else ChunkParameters, used := m.used + |tail|)
  {
    hide Run, Step, HexDigit;
    if tail == [] {
      RunEmpty(m);
    } else if tail[0] != ' ' && tail[0] != ';' {
      P.StepDigit(m, tail[0]);
      P.StepSize(m.(current := ChunkSizeOtherwise), tail[0]);
      assert tail == [tail[0]] + tail[1..];
      RunOne(m, tail[0], tail[1..]);
      RunStopped(Step(m, tail[0]), tail[1..]);
    } else {
      ExtensionRun(m, tail, []);
      assert tail + [] == tail;
      RunEmpty(m.(current := ChunkParameters, used := m.used + |tail|));
    }
  }

  lemma SizeLineMeans(size: octets, ext: octets, n: nat)
    requires SizeLine(size, ext, n)
    ensures size != [] && AllHex(size) && Value(16, 0, Digits(size)) == n
    ensures ext == [] || ((ext[0] == ' ' || ext[0] == ';') && CR !in ext)
  {
  }

  /** The data of a chunk. */
  lemma {:induction false} DataRun(m: Machine, data: octets, rest: octets)
    requires m.error == HPE_OK && m.current == IsEqualContentLength && m.held == []
    requires m.contentLength == |data| > 0
    ensures Run(m, data + rest) ==
            Run(m.(current := ChunkDataAlmostDone, contentLength := 0, calls := m.calls + [OnBody(data)],
                   used := m.used + |data|), rest)
  {
    hide Step, Run;
    var input := data + rest;
    var m1 := m.(current := SpanStartBody);
    RunSettle(m, input);
    var m2 := m.(current := ConsumeContentLength);
    P.StepSpanStart(m1, input[0], ConsumeContentLength);
    RunNext(m1, m2, input);
    P.ConsumeRun(m2, input, |data|);
    assert input[..|data|] == data && [] + data == data && input[|data|..] == rest;
    DataDone(m2.(contentLength := 0, held := data, used := m.used + |data|), rest);
  }

  lemma DataDone(m: Machine, rest: octets)
    requires m.error == HPE_OK && m.current == ConsumeContentLength && m.contentLength == 0
    ensures Run(m, rest) ==
            Run(m.(current := ChunkDataAlmostDone, calls := m.calls + [OnBody(m.held)], held := []), rest)
  {
    hide Run;
    RunAlike(m, m.(current := ChunkDataAlmostDone, calls := m.calls + [OnBody(m.held)], held := []), rest);
  }

  /** The line end after the data of a chunk. */
  lemma {:induction false} DataEndRun(m: Machine, end: octets, rest: octets)
    requires m.error == HPE_OK && m.current == ChunkDataAlmostDone && |end| == 2
    ensures Run(m, end + rest) ==
            Run(m.(current := ChunkSizeDigit, contentLength := 0, calls := m.calls + [OnChunkComplete],
                   used := m.used + 2), rest)
  {
    hide Step, Run;
    var m1 := m.(current := ChunkDataAlmostDoneSkip, used := m.used + 1);
    StepDataEnd(m, end[0]);
    StepDataEnd(m1, end[1]);
    assert end + rest == [end[0]] + ([end[1]] + rest);
    RunOne(m, end[0], [end[1]] + rest);
    RunOne(m1, end[1], rest);
  }

  lemma StepDataEnd(m: Machine, b: octet)
    requires m.error == HPE_OK
    ensures m.current == ChunkDataAlmostDone ==> Step(m, b) == Take(m, ChunkDataAlmostDoneSkip)
    ensures m.current == ChunkDataAlmostDoneSkip ==>
              Step(m, b) == Emit(Take(m, ChunkSizeDigit), OnChunkComplete).(contentLength := 0)
  {
    hide Step;
    if m.current == ChunkDataAlmostDone || m.current == ChunkDataAlmostDoneSkip {
      StepReact(m, b);
    }
  }

  /** A parser about to read the size of a chunk. */
  predicate AtChunk(m: Machine) {
    m.error == HPE_OK && m.held == [] && m.current == ChunkSizeDigit && m.contentLength == 0
  }

  lemma {:induction false} ChunkRun(m: Machine, c: Chunk, rest: octets)
    requires AtChunk(m) && WellFormed(c)
    ensures Run(m, Encode(c) + rest) ==
            Run(m.(calls := m.calls + [OnChunkHeader, OnBody(c.data), OnChunkComplete],
                   used := m.used + |Encode(c)|), rest)
  {
    hide Step, Run;
    hide SizeLine;
    var tail := c.end + rest;
    assert Encode(c) + rest == c.size + (c.ext + ([CR, c.lf] + (c.data + tail)));
    SizeLineRun(m, c.size, c.ext, |c.data|, c.lf, c.data + tail);
    var m1 := m.(current := IsEqualContentLength, contentLength := |c.data|, calls := m.calls + [OnChunkHeader],
                 used := m.used + |c.size| + |c.ext| + 2);
    DataRun(m1, c.data, tail);
    DataEndRun(m1.(current := ChunkDataAlmostDone, contentLength := 0, calls := m1.calls + [OnBody(c.data)],
                   used := m1.used + |c.data|), c.end, rest);
    assert m.calls + [OnChunkHeader] + [OnBody(c.data)] + [OnChunkComplete]
        == m.calls + [OnChunkHeader, OnBody(c.data), OnChunkComplete];
  }

  function ChunkCalls(chunks: seq<Chunk>): seq<Call> {
    if chunks == [] then []
    else [OnChunkHeader, OnBody(chunks[0].data), OnChunkComplete] + ChunkCalls(chunks[1..])
  }

  lemma {:induction false} ChunksRun(m: Machine, chunks: seq<Chunk>, rest: octets)
    requires AtChunk(m) && forall c | c in chunks :: WellFormed(c)
    ensures Run(m, EncodeAll(chunks) + rest) ==
            Run(m.(calls := m.calls + ChunkCalls(chunks), used := m.used + |EncodeAll(chunks)|), rest)
    decreases |chunks|
  {
    hide Step, Run, Encode;
    if chunks == [] {
      assert EncodeAll(chunks) + rest == rest && m.calls + [] == m.calls;
    } else {
      var c, tail := chunks[0], EncodeAll(chunks[1..]) + rest;
      assert EncodeAll(chunks) + rest == Encode(c) + tail;
      ChunkRun(m, c, tail);
      var calls1 := m.calls + [OnChunkHeader, OnBody(c.data), OnChunkComplete];
      assert calls1 + ChunkCalls(chunks[1..]) == m.calls + ChunkCalls(chunks);
      ChunksRun(m.(calls := calls1, used := m.used + |Encode(c)|), chunks[1..], rest);
    }
  }

  /** The chunks, and the last-chunk line whose size is zero. */
  function EncodeBody(chunks: seq<Chunk>, size: octets, ext: octets, lf: octet): octets {
    EncodeAll(chunks) + (size + (ext + [CR, lf]))
  }

  /**
   Decoding undoes encoding: after the chunks and the zero-size line the parser has reported every
   chunk with exactly its data, has consumed exactly the encoding, and waits for trailer fields with
   F_TRAILING set.
   */
  lemma {:induction false} ChunkedDecode(m: Machine, chunks: seq<Chunk>, size: octets, ext: octets, lf: octet)
    requires AtChunk(m)
    requires (forall c | c in chunks :: WellFormed(c)) && SizeLine(size, ext, 0)
    ensures Run(m, EncodeBody(chunks, size, ext, lf)) ==
            m.(current := HeaderFieldStart, flags := m.flags + {F_TRAILING},
               calls := m.calls + ChunkCalls(chunks) + [OnChunkHeader],
               used := m.used + |EncodeBody(chunks, size, ext, lf)|)
  {
    hide Step;
    var line := size + (ext + [CR, lf]);
    ChunksRun(m, chunks, line);
    var m1 := m.(calls := m.calls + ChunkCalls(chunks), used := m.used + |EncodeAll(chunks)|);
    assert [CR, lf] + [] == [CR, lf];
    SizeLineRun(m1, size, ext, 0, lf, []);
    hide Run;
    var m2 := m1.(current := IsEqualContentLength, calls := m1.calls + [OnChunkHeader],
                  used := m1.used + |size| + |ext| + 2);
    RunEmpty(m2);
  }

  lemma {:induction false} ChunkTrace(chunks: seq<Chunk>)
    ensures Trace(ChunkCalls(chunks)) == AllEvents(chunks)
  {
    hide Trace, ChunkEvents;
    TraceNone();
    if chunks != [] {
      TraceConcat([OnChunkHeader, OnBody(chunks[0].data), OnChunkComplete], ChunkCalls(chunks[1..]));
      ChunkTraceOne(chunks[0]);
      ChunkTrace(chunks[1..]);
    }
  }

  lemma TraceNone()
    ensures Trace([]) == []
  {
  }

  lemma ChunkTraceOne(c: Chunk)
    ensures Trace([OnChunkHeader, OnBody(c.data), OnChunkComplete]) == ChunkEvents(c)
  {
    hide Trace;
    var start := [OnChunkHeader];
    var body := start + [OnBody(c.data)];
    TraceNone();
    TraceAppend([], OnChunkHeader);
    assert [] + [OnChunkHeader] == start;
    TraceAppend(start, OnBody(c.data));
    TraceAppend(body, OnChunkComplete);
    assert body + [OnChunkComplete] == [OnChunkHeader, OnBody(c.data), OnChunkComplete];
  }

  lemma {:induction false} BodyOfConcat(a: seq<Event>, b: seq<Event>)
    ensures BodyOf(a + b) == BodyOf(a) + BodyOf(b)
    decreases |a|
  {
    if a == [] {
      assert a + b == b;
    } else {
      assert (a + b)[1..] == a[1..] + b;
      BodyOfConcat(a[1..], b);
      var first := if a[0].BodyByte? then [a[0].b] else [];
      assert BodyOf(a + b) == first + BodyOf(a[1..] + b);
      assert first + (BodyOf(a[1..]) + BodyOf(b)) == first + BodyOf(a[1..]) + BodyOf(b);
    }
  }

  lemma {:induction false} BodyOfSpan(bytes: octets)
    ensures BodyOf(SpanEvents(true, bytes)) == bytes
    decreases |bytes|
  {
    if bytes != [] {
      assert SpanEvents(true, bytes)[1..] == SpanEvents(true, bytes[1..]);
      BodyOfSpan(bytes[1..]);
    }
  }

  lemma {:induction false} BodyOfAll(chunks: seq<Chunk>)
    ensures BodyOf(AllEvents(chunks)) == Body(chunks)
  {
    if chunks != [] {
      var data := chunks[0].data;
      BodyOfConcat(ChunkEvents(chunks[0]), AllEvents(chunks[1..]));
      BodyOfConcat([ChunkHeader] + SpanEvents(true, data), [ChunkComplete]);
      BodyOfConcat([ChunkHeader], SpanEvents(true, data));
      BodyOfSpan(data);
      assert BodyOf([ChunkComplete]) == [] && BodyOf([ChunkHeader]) == [];
      BodyOfAll(chunks[1..]);
    }
  }

  /**
   The same for input cut anywhere: a parser that starts on the chunks, fed their encoding in any
   pieces, ends before the trailer and has handed on_body exactly the concatenation of the data.
   */
  lemma ChunkedDecodeCut(m: Machine, chunks: seq<Chunk>, size: octets, ext: octets, lf: octet, pieces: seq<octets>)
    requires m.error == HPE_OK && m.held == [] && m.calls == []
    requires m.current == UpdateContentLength || AtChunk(m)
    requires (forall c | c in chunks :: WellFormed(c)) && SizeLine(size, ext, 0)
    requires Concat(pieces) == EncodeBody(chunks, size, ext, lf)
    ensures var n := Calls(m, pieces);
            && n.current == HeaderFieldStart && n.error == HPE_OK && F_TRAILING in n.flags && n.contentLength == 0
            && Trace(n.calls) == AllEvents(chunks) + [ChunkHeader]
            && BodyOf(Trace(n.calls)) == Body(chunks)
  {
    hide CallSpec, Calls, Trace, AllEvents, EncodeBody, SizeLine, WellFormed, ChunkCalls, BodyOf, Body;
    assert pieces != [] by { EncodingNotEmpty(chunks, size, ext, lf); }
    ChunkedCall(m, chunks, size, ext, lf);
    CutUnrejected(m, pieces);
    BodyOfConcat(AllEvents(chunks), [ChunkHeader]);
    BodyOfAll(chunks);
    assert BodyOf([ChunkHeader]) == [] by { HeaderNoBody(); }
    assert Body(chunks) + [] == Body(chunks);
  }

  lemma HeaderNoBody()
    ensures BodyOf([ChunkHeader]) == []
  {
  }

  /** The encoding in one call. */
  lemma ChunkedCall(m: Machine, chunks: seq<Chunk>, size: octets, ext: octets, lf: octet)
    requires m.error == HPE_OK && m.held == [] && m.calls == []
    requires m.current == UpdateContentLength || AtChunk(m)
    requires (forall c | c in chunks :: WellFormed(c)) && SizeLine(size, ext, 0)
    ensures var n := CallSpec(m, EncodeBody(chunks, size, ext, lf));
            && n.current == HeaderFieldStart && n.error == HPE_OK && F_TRAILING in n.flags && n.contentLength == 0
            && Trace(n.calls) == AllEvents(chunks) + [ChunkHeader]
  {
    hide Run, Trace, AllEvents, EncodeBody, SizeLine, WellFormed, ChunkCalls;
    var m0 := m.(used := 0);
    RunSettle(m0, EncodeBody(chunks, size, ext, lf));
    ChunkedDecode(Settle(m0), chunks, size, ext, lf);
    ChunkTrace(chunks);
    assert m.calls + ChunkCalls(chunks) == ChunkCalls(chunks);
    TraceAppend(ChunkCalls(chunks), OnChunkHeader);
  }

  lemma EncodingNotEmpty(chunks: seq<Chunk>, size: octets, ext: octets, lf: octet)
    ensures EncodeBody(chunks, size, ext, lf) != []
  {
  }
}
