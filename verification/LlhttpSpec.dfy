/**
 The body, chunk and header-name states of the loose copy of llhttp, one byte at a time.

 `Step` says what the machine does with a single byte; `Settle` follows the labels that need no
 input; `CallSpec` is one call of `llhttp__internal_execute`. The parser class in LlhttpParser.dfy
 runs whole buffers with bulk jumps and a matcher loop and is proved equal to this definition.
 */
module LlhttpSpec {
  import opened Octets

  /** The resting places and labels of the goto machine that are modelled. */
  datatype State =
    | ChunkSizeDigit
    | ChunkSize
    | ChunkSizeOtherwise
    | ChunkParameters
    | ChunkSizeAlmostDone
    | IsEqualContentLength
    | SpanStartBody
    | ConsumeContentLength
    | ChunkDataAlmostDone
    | ChunkDataAlmostDoneSkip
    | UpdateContentLength
    | SpanStartBody1
    | ConsumeContentLength1
    | IsEqualUpgrade
    | HeaderFieldStart
    | SpanStartHeaderField
    | HeaderField
    | HeaderField1
    | HeaderField2
    | HeaderField3
    | HeaderField4
    | HeaderField5
    | HeaderField6
    | HeaderField7
    | HeaderFieldColon
    | HeaderFieldGeneral
    | HeaderFieldGeneralOtherwise
    | HeaderValueDiscardWs
    | HeadersAlmostDone
    | ErrorState

  const HPE_OK: nat := 0
  const HPE_INVALID_HEADER_TOKEN: nat := 10
  const HPE_INVALID_CHUNK_SIZE: nat := 12
  const HPE_INVALID_EOF_STATE: nat := 14
  const HPE_PAUSED: nat := 21

  /** The flag bits this part of the parser sets; the word `flags` is the set of its one bits. */
  datatype Flag = F_CHUNKED | F_TRAILING

  const MAX_UINT64: nat := 0xffff_ffff_ffff_ffff

  const CR: octet := '\r'
  const LF: octet := '\n'

  /** One invocation of a user callback. */
  datatype Call =
    | OnBody(bytes: octets)
    | OnHeaderField(bytes: octets)
    | OnChunkHeader
    | OnChunkComplete
    | OnMessageComplete

  /**
   The parser between two bytes. `held` are the bytes of the open span not yet handed to its
   callback; `calls` are the callbacks made so far; `used` counts the bytes consumed in this call.
   */
  datatype Machine = Machine(
    current: State,
    index: nat,
    contentLength: nat,
    headerState: nat,
    flags: set<Flag>,
    error: nat,
    held: octets,
    calls: seq<Call>,
    used: nat)

  /** The states in which `_span_pos0` is set: a header-name span or a body span is open. */
  predicate InFieldSpan(st: State) {
    st.HeaderField? || st.HeaderField1? || st.HeaderField2? || st.HeaderField3? || st.HeaderField4? ||
    st.HeaderField5? || st.HeaderField6? || st.HeaderField7? || st.HeaderFieldColon? ||
    st.HeaderFieldGeneral? || st.HeaderFieldGeneralOtherwise?
  }

  predicate InBodySpan(st: State) {
    st.ConsumeContentLength? || st.ConsumeContentLength1?
  }

  predicate InSpan(st: State) {
    InFieldSpan(st) || InBodySpan(st)
  }

  /** The labels where control leaves the modelled part; the model reads nothing from there on. */
  predicate Outside(st: State) {
    st.HeaderValueDiscardWs? || st.HeadersAlmostDone? || st.IsEqualUpgrade? || st.ErrorState?
  }

  predicate Stopped(m: Machine) {
    m.error != HPE_OK || Outside(m.current)
  }

  predicate IsMatcher(st: State) {
    st.HeaderField1? || st.HeaderField3? || st.HeaderField4? || st.HeaderField5? || st.HeaderField6? || st.HeaderField7?
  }

  /** The lower-case sequence a matcher state waits for (the `llparse_blob`s). */
  function Blob(st: State): (seq_: octets)
    requires IsMatcher(st)
    ensures |seq_| > 0
  {
    if st.HeaderField1? then "on"
    else if st.HeaderField3? then "ection"
    else if st.HeaderField4? then "ent-length"
    else if st.HeaderField5? then "roxy-connection"
    else if st.HeaderField6? then "ransfer-encoding"
    else "pgrade"
  }

  /** The header state a completed keyword stores. */
  function StoredState(st: State): nat {
    match st
    case HeaderField4 => 2
    case HeaderField6 => 3
    case HeaderField7 => 4
    case _ => 1
  }

  /** Where a completed match goes. */
  function Matched(m: Machine): Machine
    requires IsMatcher(m.current)
  {
    if m.current.HeaderField1? then m.(current := HeaderField2)
    else m.(current := HeaderFieldColon, headerState := StoredState(m.current))
  }

  function ToLower(b: octet): octet {
    if 'A' <= b <= 'Z' then (b as int + 32) as char else b
  }

  /** The `header_field_general` lookup table: header token characters and, in loose mode, the space. */
  predicate IsToken(b: octet) {
    'a' <= b <= 'z' || 'A' <= b <= 'Z' || '0' <= b <= '9' || b in " !#$%&'*+-.^_`|~"
  }

  function HexDigit(b: octet): (d: int)
    ensures -1 <= d < 16
  {
    if '0' <= b <= '9' then b as int - '0' as int
    else if 'A' <= b <= 'F' then b as int - 'A' as int + 10
    else if 'a' <= b <= 'f' then b as int - 'a' as int + 10
    else -1
  }

  function Fail(m: Machine, error: nat): Machine {
    m.(current := ErrorState, error := error)
  }

  function Take(m: Machine, st: State): Machine {
    m.(current := st, used := m.used + 1)
  }

  /** Consumes a byte that belongs to the open span. */
  function Hold(m: Machine, b: octet, st: State): Machine {
    m.(current := st, held := m.held + [b], used := m.used + 1)
  }

  function Emit(m: Machine, c: Call): Machine {
    m.(calls := m.calls + [c])
  }

  /** Closes the open span: its callback gets the bytes held since the span, or the call, began. */
  function CloseSpan(m: Machine, c: Call): Machine {
    m.(calls := m.calls + [c], held := [])
  }

  /** Follows the labels that need no input; every other state is left alone. */
  function Settle(m: Machine): Machine {
    if m.error != HPE_OK then m
    else match m.current
      case UpdateContentLength =>
        m.(contentLength := 0, current := ChunkSizeDigit)
      case IsEqualContentLength =>
        if m.contentLength == 0
        then m.(flags := m.flags + {F_TRAILING}, current := HeaderFieldStart)
        else m.(current := SpanStartBody)
      case ConsumeContentLength =>
        if m.contentLength == 0 then CloseSpan(m, OnBody(m.held)).(current := ChunkDataAlmostDone) else m
      case ConsumeContentLength1 =>
        if m.contentLength == 0
        then Emit(CloseSpan(m, OnBody(m.held)), OnMessageComplete).(current := IsEqualUpgrade, error := HPE_PAUSED)
        else m
      case _ => m
  }

  /**
   `llhttp__internal__c_mul_add_content_length`: the accumulator afterwards and whether it overflowed.
   The product is stored before the addition is tested.
   */
  function MulAdd(acc: nat, base: nat, digit: nat): (r: (nat, bool))
    requires base > 0
  {
    if acc > MAX_UINT64 / base then (acc, true)
    else if acc * base > MAX_UINT64 - digit then (acc * base, true)
    else (acc * base + digit, false)
  }

  function SizeDigit(m: Machine, digit: nat): Machine {
    var (value, overflow) := MulAdd(m.contentLength, 16, digit);
    var m1 := Take(m, ChunkSize).(contentLength := value);
    if overflow then Fail(m1, HPE_INVALID_CHUNK_SIZE) else m1
  }

  function SizeOtherwise(m: Machine, b: octet): Machine {
    if b == CR then Take(m, ChunkSizeAlmostDone)
    else if b == ' ' || b == ';' then Take(m, ChunkParameters)
    else Fail(m, HPE_INVALID_CHUNK_SIZE)
  }

  function ReadBody(m: Machine, b: octet, st: State): Machine
    requires m.contentLength > 0
  {
    Hold(m, b, st).(contentLength := m.contentLength - 1)
  }

  function EndField(m: Machine): Machine {
    Take(CloseSpan(m, OnHeaderField(m.held)), HeaderValueDiscardWs)
  }

  function GeneralOtherwise(m: Machine, b: octet): Machine {
    if b == ':' then EndField(m) else Fail(m, HPE_INVALID_HEADER_TOKEN)
  }

  /** A mismatch anywhere in a keyword: header state 0, and the byte is read again as a general name. */
  function Mismatch(m: Machine, b: octet): Machine {
    var m0 := m.(headerState := 0);
    if IsToken(b) then Hold(m0, b, HeaderFieldGeneral) else GeneralOtherwise(m0, b)
  }

  function MatchByte(m: Machine, b: octet): Machine
    requires IsMatcher(m.current)
  {
    var blob := Blob(m.current);
    if m.index < |blob| && ToLower(b) == blob[m.index] then
      if m.index + 1 == |blob|
      then Matched(Hold(m, b, m.current).(index := 0))
      else Hold(m, b, m.current).(index := m.index + 1)
    else Mismatch(m.(index := 0), b)
  }

  /** Where a label that looks at one byte of a header name goes if it takes the byte. */
  function NameByte(st: State, b: octet): (next: State)
    ensures next == ErrorState || InFieldSpan(next)
    ensures IsMatcher(next) ==> !IsMatcher(st)
    ensures st.HeaderFieldGeneral? ==> next == if IsToken(b) then HeaderFieldGeneral else ErrorState
  {
    var c := ToLower(b);
    if st.HeaderField? && c == 'c' then HeaderField1
    else if st.HeaderField? && c == 'p' then HeaderField5
    else if st.HeaderField? && c == 't' then HeaderField6
    else if st.HeaderField? && c == 'u' then HeaderField7
    else if st.HeaderField2? && c == 'n' then HeaderField3
    else if st.HeaderField2? && c == 't' then HeaderField4
    else if st.HeaderFieldColon? && b == ' ' then HeaderFieldColon
    else if st.HeaderFieldGeneral? && IsToken(b) then HeaderFieldGeneral
    else ErrorState
  }

  function ReadName(m: Machine, b: octet): Machine {
    if NameByte(m.current, b) != ErrorState then Hold(m, b, NameByte(m.current, b))
    else if m.current.HeaderFieldGeneral? then GeneralOtherwise(m, b)
    else if m.current.HeaderFieldColon? && b == ':' then EndField(m)
    else Mismatch(m, b)
  }

  /** A body span that opens with nothing left to read closes at once. */
  function OpenBody(m: Machine, b: octet): Machine {
    if m.contentLength == 0
    then Emit(Take(m, ChunkDataAlmostDoneSkip), OnBody([]))
    else ReadBody(m, b, ConsumeContentLength)
  }

  function OpenBody1(m: Machine, b: octet): Machine {
    if m.contentLength == 0
    then Settle(m.(current := ConsumeContentLength1))
    else ReadBody(m, b, ConsumeContentLength1)
  }

  function HeaderStart(m: Machine, b: octet): Machine {
    if b == LF then m.(current := HeadersAlmostDone)
    else if b == CR then Take(m, HeadersAlmostDone)
    else ReadName(m.(current := HeaderField), b)
  }

  predicate Settled(m: Machine) {
    Settle(m) == m
  }

  /** What a settled machine that is not stopped does with one byte, before settling again. */
  function React(m: Machine, b: octet): Machine
    requires !Stopped(m) && Settled(m)
  {
    if IsMatcher(m.current) then MatchByte(m, b)
    else match m.current
      case ChunkSizeDigit =>
        if HexDigit(b) >= 0 then SizeDigit(m, HexDigit(b)) else Fail(m, HPE_INVALID_CHUNK_SIZE)
      case ChunkSize =>
        if HexDigit(b) >= 0 then SizeDigit(m, HexDigit(b)) else SizeOtherwise(m, b)
      case ChunkSizeOtherwise => SizeOtherwise(m, b)
      case ChunkParameters => Take(m, if b == CR then ChunkSizeAlmostDone else ChunkParameters)
      case ChunkSizeAlmostDone => Emit(Take(m, IsEqualContentLength), OnChunkHeader)
      case SpanStartBody => OpenBody(m, b)
      case ConsumeContentLength => ReadBody(m, b, ConsumeContentLength)
      case ChunkDataAlmostDone => Take(m, ChunkDataAlmostDoneSkip)
      case ChunkDataAlmostDoneSkip => Emit(Take(m, UpdateContentLength), OnChunkComplete)
      case SpanStartBody1 => OpenBody1(m, b)
      case ConsumeContentLength1 => ReadBody(m, b, ConsumeContentLength1)
      case HeaderFieldStart => HeaderStart(m, b)
      case SpanStartHeaderField => ReadName(m.(current := HeaderField), b)
      case HeaderField => ReadName(m, b)
      case HeaderField2 => ReadName(m, b)
      case HeaderFieldColon => ReadName(m, b)
      case HeaderFieldGeneral => ReadName(m, b)
      case HeaderFieldGeneralOtherwise => GeneralOtherwise(m, b)
      case _ => m
  }

  /** One byte of input, labels without input included. A stopped machine reads nothing. */
  function Step(m: Machine, b: octet): Machine {
    var m0 := Settle(m);
    if Stopped(m0) then m0 else Settle(React(m0, b))
  }

  /** A whole buffer, byte by byte. */
  function Run(m: Machine, data: octets): Machine
    decreases |data|
  {
    if data == [] then Settle(m) else Run(Step(m, data[0]), data[1..])
  }

  /** The end of a call: an open span hands over what it holds and starts afresh with the next call. */
  function Flush(m: Machine): Machine {
    if m.error != HPE_OK then m
    else if InFieldSpan(m.current) then CloseSpan(m, OnHeaderField(m.held))
    else if InBodySpan(m.current) then CloseSpan(m, OnBody(m.held))
    else m
  }

  /** One call of `llhttp__internal_execute` on a buffer; `used` is how much of it was consumed. */
  function CallSpec(m: Machine, data: octets): Machine {
    var m0 := m.(used := 0);
    if m.error != HPE_OK then m0 else Flush(Run(m0, data))
  }

  /** What the parser's fields satisfy between two calls. */
  predicate Resting(m: Machine) {
    && m.contentLength <= MAX_UINT64
    && (m.error == HPE_OK ==> m.held == [] && m.current != ErrorState)
    && Indexed(m.current, m.index)
  }

  /** The matcher index stays inside the blob being matched, and is 0 outside the matchers. */
  predicate Indexed(st: State, index: nat) {
    if IsMatcher(st) then index < |Blob(st)| else index == 0
  }

  // ----- facts about the byte-at-a-time definition -----

  lemma RunEmpty(m: Machine)
    ensures Run(m, []) == Settle(m)
  {
  }

  lemma RunCons(m: Machine, data: octets)
    requires data != []
    ensures Run(m, data) == Run(Step(m, data[0]), data[1..])
  {
  }

  /** A label that waits for a byte, and is not the inside of a body, is settled. */
  lemma StepReact(m: Machine, b: octet)
    requires !Stopped(m)
    requires !m.current.UpdateContentLength? && !m.current.IsEqualContentLength? && !InBodySpan(m.current)
    ensures Settled(m) && Step(m, b) == Settle(React(m, b))
  {
    hide React;
  }

  /** Settling first changes nothing. */
  lemma RunSettle(m: Machine, data: octets)
    ensures Run(Settle(m), data) == Run(m, data)
  {
  }

  /** Two machines that settle alike run alike. */
  lemma RunAlike(m: Machine, n: Machine, data: octets)
    requires Settle(m) == Settle(n)
    ensures Run(m, data) == Run(n, data)
  {
    RunSettle(m, data);
    RunSettle(n, data);
  }

  /** Two machines that treat the next byte alike run alike. */
  lemma RunNext(m: Machine, n: Machine, data: octets)
    requires data != []
    requires Step(m, data[0]) == Step(n, data[0])
    ensures Run(m, data) == Run(n, data)
  {
  }

  lemma {:induction false} RunStopped(m: Machine, data: octets)
    requires Stopped(m)
    ensures Run(m, data) == m
  {
    if data != [] {
      RunStopped(Step(m, data[0]), data[1..]);
    }
  }
}
