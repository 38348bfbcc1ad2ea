/**
 The parser struct and its goto loop: whole buffers, bulk consumption of bodies, a matcher loop for
 keywords, and spans as positions in the current buffer. `Execute` is proved equal to `CallSpec`.
 */
module LlhttpParser {
  import opened Octets
  import opened LlhttpSpec
  import opened Wrappers

  datatype MatchStatus = MatchComplete | MatchPause | MatchMismatch

  /** `n` is `m` after reading the byte `b`, or `m` at another label with `b` still unread. */
  predicate Follows(m: Machine, n: Machine, b: octet, consumed: bool) {
    if consumed then Settle(n) == Step(m, b) else Step(n, b) == Step(m, b)
  }

  lemma FollowRun(m: Machine, n: Machine, data: octets, p: nat, q: nat)
    requires p < |data| && (q == p || q == p + 1)
    requires Follows(m, n, data[p], q == p + 1)
    ensures Run(n, data[q..]) == Run(m, data[p..])
  {
    if q == p {
      RunNext(n, m, data[p..]);
    } else {
      assert data[p..][1..] == data[q..];
      RunCons(m, data[p..]);
      RunSettle(n, data[q..]);
    }
  }

  lemma StepStopped(m: Machine, b: octet)
    requires Stopped(m)
    ensures Step(m, b) == m == Settle(m)
  {
  }

  lemma StepSize(m: Machine, b: octet)
    requires m.error == HPE_OK
    requires m.current in {ChunkSizeDigit, ChunkSize, ChunkSizeOtherwise, ChunkParameters, ChunkSizeAlmostDone}
    ensures Step(m, b) == Settle(
      match m.current
      case ChunkSizeDigit => if HexDigit(b) >= 0 then SizeDigit(m, HexDigit(b)) else Fail(m, HPE_INVALID_CHUNK_SIZE)
      case ChunkSize => if HexDigit(b) >= 0 then SizeDigit(m, HexDigit(b)) else SizeOtherwise(m, b)
      case ChunkSizeOtherwise => SizeOtherwise(m, b)
      case ChunkParameters => Take(m, if b == CR then ChunkSizeAlmostDone else ChunkParameters)
      case _ => Emit(Take(m, IsEqualContentLength), OnChunkHeader))
  {
    hide Step, Settle, SizeDigit, SizeOtherwise, HexDigit;
    StepReact(m, b);
  }

  lemma StepDigit(m: Machine, b: octet)
    requires m.error == HPE_OK && (m.current.ChunkSizeDigit? || m.current.ChunkSize?)
    ensures HexDigit(b) >= 0 ==> Step(m, b) == Settle(SizeDigit(m, HexDigit(b)))
    ensures HexDigit(b) < 0 && m.current.ChunkSizeDigit? ==> Step(m, b) == Fail(m, HPE_INVALID_CHUNK_SIZE)
    ensures HexDigit(b) < 0 && m.current.ChunkSize? ==> Step(m, b) == Step(m.(current := ChunkSizeOtherwise), b)
  {
    hide Step, SizeDigit, HexDigit;
    StepSize(m, b);
    StepSize(m.(current := ChunkSizeOtherwise), b);
  }

  lemma StepBody(m: Machine, b: octet)
    requires InBodySpan(m.current) && m.error == HPE_OK && m.contentLength > 0
    ensures Step(m, b) ==
            Settle(m.(contentLength := m.contentLength - 1, held := m.held + [b], used := m.used + 1))
  {
  }

  /** Reading `k` body bytes at once is reading them one by one. */
  lemma {:induction false} ConsumeRun(m: Machine, data: octets, k: nat)
    requires InBodySpan(m.current) && m.error == HPE_OK
    requires k <= |data| && k <= m.contentLength
    ensures Run(m, data) ==
            Run(m.(contentLength := m.contentLength - k, held := m.held + data[..k], used := m.used + k), data[k..])
    decreases k
  {
    hide Step, Settle;
    if k == 0 {
      assert m.held + data[..0] == m.held;
    } else {
      var b := data[0];
      var m1 := m.(contentLength := m.contentLength - 1, held := m.held + [b], used := m.used + 1);
      StepBody(m, b);
      RunSettle(m1, data[1..]);
      ConsumeRun(m1, data[1..], k - 1);
      assert m1.held + data[1..][..k - 1] == m.held + data[..k];
      assert data[1..][k - 1..] == data[k..];
    }
  }

  /** `n` bytes of `data` agree, case aside, with the blob from position `i` on. */
  predicate Agrees(data: octets, blob: octets, i: nat, n: nat) {
    n <= |data| && i + n <= |blob| && forall j :: 0 <= j < n ==> ToLower(data[j]) == blob[i + j]
  }

  lemma StepMatch(m: Machine, b: octet)
    requires IsMatcher(m.current) && m.error == HPE_OK
    requires m.index + 1 < |Blob(m.current)| && ToLower(b) == Blob(m.current)[m.index]
    ensures Step(m, b) == m.(index := m.index + 1, held := m.held + [b], used := m.used + 1)
  {
    hide Step, Blob, ToLower, Mismatch;
    StepReact(m, b);
  }

  lemma StepSpanStart(m: Machine, b: octet, open: State)
    requires m.error == HPE_OK && m.held == []
    requires (m.current == SpanStartBody && open == ConsumeContentLength)
             || (m.current == SpanStartBody1 && open == ConsumeContentLength1)
             || (m.current == SpanStartHeaderField && open == HeaderField)
    ensures Step(m.(current := open), b) == Step(m, b)
  {
    hide Step;
    if m.current.SpanStartBody? {
      StepBodyStart(m, b);
    } else if m.current.SpanStartBody1? {
      StepBodyStart1(m, b);
    } else {
      StepFieldSpan(m, b);
    }
  }

  lemma StepBodyStart(m: Machine, b: octet)
    requires m.error == HPE_OK && m.held == [] && m.current.SpanStartBody?
    ensures Step(m.(current := ConsumeContentLength), b) == Step(m, b)
  {
    hide SizeDigit, SizeOtherwise, MatchByte, ReadName, GeneralOtherwise, HeaderStart, HexDigit;
  }

  lemma StepBodyStart1(m: Machine, b: octet)
    requires m.error == HPE_OK && m.held == [] && m.current.SpanStartBody1?
    ensures Step(m.(current := ConsumeContentLength1), b) == Step(m, b)
  {
    hide SizeDigit, SizeOtherwise, MatchByte, ReadName, GeneralOtherwise, HeaderStart, HexDigit;
  }

  lemma StepFieldSpan(m: Machine, b: octet)
    requires m.error == HPE_OK && m.current.SpanStartHeaderField?
    ensures Step(m.(current := HeaderField), b) == Step(m, b)
  {
    hide Step, Settle, ReadName;
    StepReact(m, b);
    StepReact(m.(current := HeaderField), b);
  }

  /** Matching `k` bytes in the loop is matching them one by one, short of the last byte of the blob. */
  lemma {:induction false} MatchRun(m: Machine, data: octets, k: nat)
    requires IsMatcher(m.current) && m.error == HPE_OK
    requires Agrees(data, Blob(m.current), m.index, k) && m.index + k < |Blob(m.current)|
    ensures Run(m, data) == Run(m.(index := m.index + k, held := m.held + data[..k], used := m.used + k), data[k..])
    decreases k
  {
    hide Step, Blob, ToLower;
    if k == 0 {
      assert m.held + data[..0] == m.held;
    } else {
      var b := data[0];
      var m1 := m.(index := m.index + 1, held := m.held + [b], used := m.used + 1);
      assert ToLower(data[0]) == Blob(m.current)[m.index + 0];
      StepMatch(m, b);
      forall j | 0 <= j < k - 1
        ensures ToLower(data[1..][j]) == Blob(m.current)[m1.index + j]
      {
        assert ToLower(data[j + 1]) == Blob(m.current)[m.index + (j + 1)];
      }
      MatchRun(m1, data[1..], k - 1);
      assert m1.held + data[1..][..k - 1] == m.held + data[..k];
      assert data[1..][k - 1..] == data[k..];
    }
  }

  /** How many jumps without input may follow a label. */
  function Rank(st: State): nat {
    match st
    case IsEqualContentLength => 9
    case UpdateContentLength => 9
    case HeaderFieldStart => 8
    case SpanStartHeaderField => 7
    case SpanStartBody => 7
    case SpanStartBody1 => 7
    case HeaderField => 6
    case ConsumeContentLength => 6
    case ConsumeContentLength1 => 6
    case HeaderFieldGeneral => 2
    case ChunkSize => 2
    case HeaderFieldGeneralOtherwise => 1
    case ChunkSizeOtherwise => 1
    case HeaderValueDiscardWs => 0
    case HeadersAlmostDone => 0
    case _ => 5
  }

  /** The fields of the parser struct that a run updates, and its position in the span. */
  datatype Regs = Regs(
    index: nat,
    contentLength: nat,
    headerState: nat,
    flags: set<Flag>,
    error: nat,
    spanPos0: Option<nat>,
    calls: seq<Call>)

  /** The machine at position `p` of the running call, with control at `st`. */
  ghost function At(r: Regs, st: State, data: octets, p: nat): Machine
    requires p <= |data|
  {
    var span := if r.spanPos0.Some? && r.spanPos0.value <= p then data[r.spanPos0.value..p] else [];
    Machine(st, r.index, r.contentLength, r.headerState, r.flags, r.error, span, r.calls, p)
  }

  ghost predicate Running(r: Regs, st: State, data: octets, p: nat) {
    && p <= |data|
    && r.contentLength <= MAX_UINT64
    && (r.spanPos0.Some? ==> r.spanPos0.value <= p)
    && (r.error == HPE_OK ==> st != ErrorState && (r.spanPos0.Some? <==> InSpan(st)))
    && Indexed(st, r.index)
  }

  /** The rest of the run from `p`, on the byte-at-a-time machine. */
  ghost function Rest(r: Regs, st: State, data: octets, p: nat): Machine
    requires p <= |data|
  {
    Run(At(r, st, data, p), data[p..])
  }

  /** A jump from `st` at `p` makes progress, unless it stopped. */
  ghost predicate Jumped(st: State, data: octets, p: nat, s: Regs, next: State, q: nat) {
    && p <= q && Running(s, next, data, q)
    && (s.error == HPE_OK ==> q > p || Rank(next) < Rank(st))
  }

  /** `llhttp__internal__c_mul_add_content_length` */
  method MulAddContentLength(acc: nat, digit: nat) returns (value: nat, overflow: bool)
    requires digit < 16 && acc <= MAX_UINT64
    ensures (value, overflow) == MulAdd(acc, 16, digit)
    ensures value <= MAX_UINT64
  {
    value := acc;
    if value > MAX_UINT64 / 16 {
      return value, true;
    }
    value := value * 16;
    if value > MAX_UINT64 - digit {
      return value, true;
    }
    return value + digit, false;
  }

  /** The labels that read a chunk-size digit. */
  method JumpSizeDigit(r: Regs, st: State, data: octets, p: nat) returns (s: Regs, next: State, q: nat)
    requires r.error == HPE_OK && Running(r, st, data, p) && p < |data|
    requires st.ChunkSizeDigit? || st.ChunkSize?
    ensures Jumped(st, data, p, s, next, q)
    ensures q <= p + 1 && Follows(At(r, st, data, p), At(s, next, data, q), data[p], q == p + 1)
  {
    StepDigit(At(r, st, data, p), data[p]);
    hide Step, Settle, MulAdd, HexDigit;
    s, next, q := r, ErrorState, p;
    if HexDigit(data[p]) >= 0 {
      q := p + 1;
      var value, overflow := MulAddContentLength(s.contentLength, HexDigit(data[p]));
      s := s.(contentLength := value);
      if overflow {
        s := s.(error := HPE_INVALID_CHUNK_SIZE);
      } else {
        next := ChunkSize;
      }
    } else if st.ChunkSize? {
      next := ChunkSizeOtherwise;
    } else {
      s := s.(error := HPE_INVALID_CHUNK_SIZE);
      StepStopped(At(s, next, data, q), data[p]);
    }
  }

  /** The labels after the size digits, up to the line feed of the size line. */
  method JumpSizeLine(r: Regs, st: State, data: octets, p: nat) returns (s: Regs, next: State, q: nat)
    requires r.error == HPE_OK && Running(r, st, data, p) && p < |data|
    requires st.ChunkSizeOtherwise? || st.ChunkParameters? || st.ChunkSizeAlmostDone?
    ensures Jumped(st, data, p, s, next, q)
    ensures q <= p + 1 && Follows(At(r, st, data, p), At(s, next, data, q), data[p], q == p + 1)
  {
    StepSize(At(r, st, data, p), data[p]);
    hide Step, Settle;
    s, q := r, p + 1;
    var b := data[p];
    if st.ChunkSizeAlmostDone? {
      s := s.(calls := s.calls + [OnChunkHeader]);
      next := IsEqualContentLength;
    } else if b == CR {
      next := ChunkSizeAlmostDone;
    } else if st.ChunkParameters? || b == ' ' || b == ';' {
      next := ChunkParameters;
    } else {
      q := p;
      s, next := s.(error := HPE_INVALID_CHUNK_SIZE), ErrorState;
      StepStopped(At(s, next, data, q), data[p]);
    }
  }

  /** The labels that wait for no input. */
  method JumpInvoke(r: Regs, st: State, data: octets, p: nat) returns (s: Regs, next: State)
    requires r.error == HPE_OK && Running(r, st, data, p)
    requires st.UpdateContentLength? || st.IsEqualContentLength?
    ensures Jumped(st, data, p, s, next, p) && s.error == HPE_OK
    ensures Settle(At(s, next, data, p)) == Settle(At(r, st, data, p))
  {
    s := r;
    if st.UpdateContentLength? {
      s := s.(contentLength := 0);
      next := ChunkSizeDigit;
    } else if s.contentLength == 0 {
      s := s.(flags := s.flags + {F_TRAILING});
      next := HeaderFieldStart;
    } else {
      next := SpanStartBody;
    }
  }

  /** The line end after chunk data; in loose mode any two bytes. */
  method JumpDataEnd(r: Regs, st: State, data: octets, p: nat) returns (s: Regs, next: State, q: nat)
    requires r.error == HPE_OK && Running(r, st, data, p) && p < |data|
    requires st.ChunkDataAlmostDone? || st.ChunkDataAlmostDoneSkip?
    ensures Jumped(st, data, p, s, next, q)
    ensures q == p + 1 && Follows(At(r, st, data, p), At(s, next, data, q), data[p], true)
  {
    s, q := r, p + 1;
    if st.ChunkDataAlmostDone? {
      next := ChunkDataAlmostDoneSkip;
    } else {
      s := s.(calls := s.calls + [OnChunkComplete]);
      next := UpdateContentLength;
    }
  }

  /** Opens a body or header-name span at the next byte. */
  method JumpSpanStart(r: Regs, st: State, data: octets, p: nat) returns (s: Regs, next: State)
    requires r.error == HPE_OK && Running(r, st, data, p) && p < |data|
    requires st.SpanStartBody? || st.SpanStartBody1? || st.SpanStartHeaderField?
    ensures Jumped(st, data, p, s, next, p)
    ensures Follows(At(r, st, data, p), At(s, next, data, p), data[p], false)
  {
    hide Step, Settle;
    s := r.(spanPos0 := Some(p));
    next := if st.SpanStartBody? then ConsumeContentLength
            else if st.SpanStartBody1? then ConsumeContentLength1
            else HeaderField;
    StepSpanStart(At(r, st, data, p), data[p], next);
  }

  /** The two labels that consume a body in one go. */
  method JumpConsume(r: Regs, st: State, data: octets, p: nat) returns (s: Regs, next: State, q: nat)
    requires r.error == HPE_OK && Running(r, st, data, p)
    requires InBodySpan(st)
    ensures p <= q && Running(s, next, data, q)
    ensures Rest(s, next, data, q) == Rest(r, st, data, p)
    ensures next != st ==> s.error != HPE_OK || Rank(next) < Rank(st)
    ensures next == st ==> q == |data| && s.error == HPE_OK && s.contentLength > 0
  {
    hide At, Rest, Rank;
    s := r;
    var avail := |data| - p;
    var need := s.contentLength;
    ConsumeAdvance(r, st, data, p, if avail >= need then need else avail);
    if avail >= need {
      q := p + need;
      s := s.(contentLength := 0, spanPos0 := None, calls := s.calls + [OnBody(data[s.spanPos0.value..q])]);
      if st.ConsumeContentLength? {
        next := ChunkDataAlmostDone;
      } else {
        // BodyReader's on_message_complete returns HPE_PAUSED.
        s := s.(calls := s.calls + [OnMessageComplete], error := HPE_PAUSED);
        next := IsEqualUpgrade;
      }
      BodyDone(r.(contentLength := 0), st, s, next, data, q);
    } else {
      s := s.(contentLength := s.contentLength - avail);
      q := |data|;
      next := st;
    }
  }

  /** Consuming inside a body, on the registers. */
  lemma ConsumeAdvance(r: Regs, st: State, data: octets, p: nat, k: nat)
    requires r.error == HPE_OK && Running(r, st, data, p) && InBodySpan(st)
    requires p + k <= |data| && k <= r.contentLength
    ensures Rest(r.(contentLength := r.contentLength - k), st, data, p + k) == Rest(r, st, data, p)
  {
    hide Run;
    ConsumeRun(At(r, st, data, p), data[p..], k);
    Slices(data, r.spanPos0.value, p, p + k);
    assert data[p..][k..] == data[p + k..];
  }

  /** A body read to its end closes its span, on the registers. */
  lemma BodyDone(r: Regs, st: State, s: Regs, next: State, data: octets, p: nat)
    requires r.error == HPE_OK && Running(r, st, data, p) && InBodySpan(st) && r.contentLength == 0
    requires var calls := r.calls + [OnBody(data[r.spanPos0.value..p])];
             if st.ConsumeContentLength?
             then next == ChunkDataAlmostDone && s == r.(spanPos0 := None, calls := calls)
             else next == IsEqualUpgrade
                  && s == r.(spanPos0 := None, calls := calls + [OnMessageComplete], error := HPE_PAUSED)
    ensures Rest(s, next, data, p) == Rest(r, st, data, p)
    ensures Rank(next) < Rank(st) || s.error != HPE_OK
  {
    hide Run;
    RunAlike(At(r, st, data, p), At(s, next, data, p), data[p..]);
  }

  /** The bytes of a span up to `p` and on to `q`. */
  lemma Slices(data: octets, start: nat, p: nat, q: nat)
    requires start <= p <= q <= |data|
    ensures data[start..p] + data[p..][..q - p] == data[start..q]
  {
    assert data[p..][..q - p] == data[p..q];
  }

  /** `llparse__match_sequence_to_lower`, starting from a blob position `index`. */
  method MatchSequenceToLower(index: nat, data: octets, p: nat, blob: octets)
    returns (status: MatchStatus, q: nat, rest: nat)
    requires p <= |data| && index < |blob|
    ensures p <= q <= |data| && Agrees(data[p..], blob, index, q - p)
    ensures index + (q - p) < |blob|
    ensures status.MatchComplete? ==>
              q < |data| && index + (q - p) + 1 == |blob| && ToLower(data[q]) == blob[|blob| - 1] && rest == 0
    ensures status.MatchPause? ==> q == |data| && rest == index + (q - p)
    ensures status.MatchMismatch? ==> q < |data| && ToLower(data[q]) != blob[index + (q - p)] && rest == 0
  {
    var i := index;
    q := p;
    while q != |data|
      invariant p <= q <= |data| && i == index + (q - p) < |blob|
      invariant Agrees(data[p..], blob, index, q - p)
    {
      if ToLower(data[q]) == blob[i] {
        i := i + 1;
        if i == |blob| {
          return MatchComplete, q, 0;
        }
      } else {
        return MatchMismatch, q, 0;
      }
      q := q + 1;
    }
    return MatchPause, q, i;
  }

  lemma StepMatchLast(m: Machine, b: octet)
    requires IsMatcher(m.current) && m.error == HPE_OK
    requires m.index + 1 == |Blob(m.current)| && ToLower(b) == Blob(m.current)[m.index]
    ensures Step(m, b) == Matched(m.(index := 0, held := m.held + [b], used := m.used + 1))
  {
    hide Step, Blob, ToLower, Mismatch;
    StepReact(m, b);
  }

  lemma StepMismatch(m: Machine, b: octet)
    requires IsMatcher(m.current) && m.error == HPE_OK
    requires m.index < |Blob(m.current)| ==> ToLower(b) != Blob(m.current)[m.index]
    ensures Step(m, b) == Step(m.(index := 0, headerState := 0, current := HeaderFieldGeneral), b)
  {
    hide IsToken, NameByte, ToLower, Blob, Mismatch, Settle;
    MismatchReact(m, b);
    MismatchGeneral(m, b);
  }

  lemma MismatchReact(m: Machine, b: octet)
    requires IsMatcher(m.current) && m.error == HPE_OK
    requires m.index < |Blob(m.current)| ==> ToLower(b) != Blob(m.current)[m.index]
    ensures Step(m, b) == Settle(Mismatch(m.(index := 0), b))
  {
    hide Step, Settle, IsToken, NameByte, ToLower, Blob, Mismatch, ReadName;
    StepReact(m, b);
  }

  lemma MismatchGeneral(m: Machine, b: octet)
    requires m.error == HPE_OK
    ensures Step(m.(index := 0, headerState := 0, current := HeaderFieldGeneral), b) ==
            Settle(Mismatch(m.(index := 0), b))
  {
    hide Step, Settle, IsToken;
    StepName(m.(index := 0, headerState := 0, current := HeaderFieldGeneral), b);
  }

  /** Advancing inside the blob, on the registers. */
  lemma MatchAdvance(r: Regs, st: State, data: octets, p: nat, k: nat)
    requires r.error == HPE_OK && Running(r, st, data, p) && IsMatcher(st) && p + k <= |data|
    requires Agrees(data[p..], Blob(st), r.index, k) && r.index + k < |Blob(st)|
    ensures Rest(r.(index := r.index + k), st, data, p + k) == Rest(r, st, data, p)
  {
    hide Run, Blob, ToLower;
    MatchRun(At(r, st, data, p), data[p..], k);
    assert data[r.spanPos0.value..p] + data[p..][..k] == data[r.spanPos0.value..p + k];
    assert data[p..][k..] == data[p + k..];
  }

  /** Reading one span byte, on the registers. */
  lemma HoldNext(r: Regs, st: State, s: Regs, next: State, data: octets, p: nat)
    requires r.error == HPE_OK && Running(r, st, data, p) && r.spanPos0.Some? && p < |data|
    requires s.spanPos0 == r.spanPos0
    requires var m := At(r, st, data, p);
             Step(m, data[p]) == Settle(At(s, next, data, p).(held := m.held + [data[p]], used := p + 1))
    ensures Rest(s, next, data, p + 1) == Rest(r, st, data, p)
  {
    hide Step, Settle;
    var m := At(r, st, data, p);
    assert m.held + [data[p]] == data[r.spanPos0.value..p + 1];
    assert data[p..][1..] == data[p + 1..];
    RunCons(m, data[p..]);
    RunSettle(At(s, next, data, p + 1), data[p + 1..]);
  }

  lemma MatchMissed(r: Regs, st: State, data: octets, p: nat)
    requires r.error == HPE_OK && Running(r, st, data, p) && IsMatcher(st) && p < |data|
    requires ToLower(data[p]) != Blob(st)[r.index]
    ensures Rest(r.(index := 0, headerState := 0), HeaderFieldGeneral, data, p) == Rest(r, st, data, p)
  {
    hide Run, Step, Blob, ToLower;
    StepMismatch(At(r, st, data, p), data[p]);
    RunNext(At(r, st, data, p), At(r.(index := 0, headerState := 0), HeaderFieldGeneral, data, p), data[p..]);
  }

  lemma MatchDone(r: Regs, st: State, s: Regs, next: State, data: octets, p: nat)
    requires r.error == HPE_OK && Running(r, st, data, p) && IsMatcher(st) && p < |data|
    requires r.index + 1 == |Blob(st)| && ToLower(data[p]) == Blob(st)[r.index]
    requires if st.HeaderField1? then next == HeaderField2 && s == r.(index := 0)
             else next == HeaderFieldColon && s == r.(index := 0, headerState := StoredState(st))
    ensures Rest(s, next, data, p + 1) == Rest(r, st, data, p)
  {
    hide Run, Step, Blob, ToLower, StoredState;
    StepMatchLast(At(r, st, data, p), data[p]);
    HoldNext(r, st, s, next, data, p);
  }

  lemma MatcherRank(st: State)
    requires IsMatcher(st)
    ensures Rank(HeaderFieldGeneral) < Rank(st)
  {
  }

  /** A keyword matcher: as many bytes as agree, in one go. */
  method JumpMatch(r: Regs, st: State, data: octets, p: nat) returns (s: Regs, next: State, q: nat)
    requires r.error == HPE_OK && Running(r, st, data, p) && p < |data|
    requires IsMatcher(st)
    ensures p <= q && Running(s, next, data, q)
    ensures Rest(s, next, data, q) == Rest(r, st, data, p)
    ensures s.error == HPE_OK && (next == st ==> q == |data|)
    ensures next != st ==> q > p || Rank(next) < Rank(st)
  {
    hide Blob, ToLower, Rest, StoredState, At, Run, Step, Rank;
    var status, rest;
    status, q, rest := MatchSequenceToLower(r.index, data, p, Blob(st));
    MatchAdvance(r, st, data, p, q - p);
    ghost var r1 := r.(index := r.index + (q - p));
    s := r.(index := rest);
    match status
    case MatchPause =>
      next := st;
      assert s == r1;
    case MatchMismatch =>
      s := s.(headerState := 0);
      next := HeaderFieldGeneral;
      assert s == r1.(index := 0, headerState := 0);
      MatchMissed(r1, st, data, q);
      MatcherRank(st);
    case MatchComplete =>
      if st.HeaderField1? {
        next := HeaderField2;
      } else {
        s := s.(headerState := StoredState(st));
        next := HeaderFieldColon;
      }
      MatchDone(r1, st, s, next, data, q);
      q := q + 1;
  }

  lemma StepFieldStart(m: Machine, b: octet)
    requires m.error == HPE_OK && m.current == HeaderFieldStart
    ensures Step(m, b) ==
            if b == LF then m.(current := HeadersAlmostDone)
            else if b == CR then Take(m, HeadersAlmostDone)
            else Step(m.(current := SpanStartHeaderField), b)
  {
    hide Step, ReadName, IsToken;
    StepReact(m, b);
    StepReact(m.(current := SpanStartHeaderField), b);
  }

  /** The first byte of a header line. */
  method JumpHeaderStart(r: Regs, st: State, data: octets, p: nat) returns (next: State, q: nat)
    requires r.error == HPE_OK && Running(r, st, data, p) && p < |data|
    requires st.HeaderFieldStart?
    ensures Jumped(st, data, p, r, next, q)
    ensures q <= p + 1 && Follows(At(r, st, data, p), At(r, next, data, q), data[p], q == p + 1)
  {
    hide Step, Blob;
    StepFieldStart(At(r, st, data, p), data[p]);
    q := p;
    if data[p] == LF {
      next := HeadersAlmostDone;
      StepStopped(At(r, next, data, p), data[p]);
    } else if data[p] == CR {
      q := p + 1;
      next := HeadersAlmostDone;
    } else {
      next := SpanStartHeaderField;
    }
  }

  lemma StepName(m: Machine, b: octet)
    requires m.error == HPE_OK
    requires m.current in {HeaderField, HeaderField2, HeaderFieldColon, HeaderFieldGeneral}
    ensures Step(m, b) == Settle(ReadName(m, b))
  {
    hide Step, Settle, ReadName;
    StepReact(m, b);
  }

  lemma StepNameTaken(m: Machine, b: octet)
    requires m.error == HPE_OK
    requires m.current in {HeaderField, HeaderField2, HeaderFieldColon, HeaderFieldGeneral}
    requires NameByte(m.current, b) != ErrorState
    ensures Step(m, b) == m.(current := NameByte(m.current, b), held := m.held + [b], used := m.used + 1)
    ensures Step(m, b) == Settle(Step(m, b))
  {
    hide Step, NameByte;
    StepName(m, b);
  }

  lemma StepNameMissed(m: Machine, b: octet)
    requires m.error == HPE_OK
    requires m.current in {HeaderField, HeaderField2, HeaderFieldColon}
    requires NameByte(m.current, b) == ErrorState
    ensures if m.current.HeaderFieldColon? && b == ':' then Step(m, b) == EndField(m)
            else Step(m, b) == Step(m.(current := HeaderFieldGeneral, headerState := 0), b)
  {
    hide Step, NameByte, IsToken;
    StepName(m, b);
    StepName(m.(current := HeaderFieldGeneral, headerState := 0), b);
  }

  lemma StepGeneralMissed(m: Machine, b: octet)
    requires m.error == HPE_OK && m.current.HeaderFieldGeneral?
    requires NameByte(m.current, b) == ErrorState
    ensures Step(m, b) == Step(m.(current := HeaderFieldGeneralOtherwise), b)
  {
    hide Step, Settle, NameByte, GeneralOtherwise;
    StepName(m, b);
    StepReact(m.(current := HeaderFieldGeneralOtherwise), b);
    assert GeneralOtherwise(m.(current := HeaderFieldGeneralOtherwise), b) == GeneralOtherwise(m, b) by {
      OtherwiseAlike(m, b);
    }
  }

  lemma OtherwiseAlike(m: Machine, b: octet)
    ensures GeneralOtherwise(m.(current := HeaderFieldGeneralOtherwise), b) == GeneralOtherwise(m, b)
  {
  }

  lemma StepOtherwise(m: Machine, b: octet)
    requires m.error == HPE_OK && m.current.HeaderFieldGeneralOtherwise?
    ensures Step(m, b) == if b == ':' then EndField(m) else Fail(m, HPE_INVALID_HEADER_TOKEN)
  {
    hide Step;
    StepReact(m, b);
  }

  /** The labels that look at one byte of a header name. */
  method JumpName(r: Regs, st: State, data: octets, p: nat) returns (s: Regs, next: State, q: nat)
    requires r.error == HPE_OK && Running(r, st, data, p) && p < |data|
    requires st in {HeaderField, HeaderField2, HeaderFieldColon, HeaderFieldGeneral}
    requires st.HeaderFieldColon? ==> data[p] != ':'
    ensures Jumped(st, data, p, s, next, q)
    ensures Rest(s, next, data, q) == Rest(r, st, data, p)
  {
    hide At, Rest, NameByte, Blob;
    s, q := r, p;
    next := NameByte(st, data[p]);
    if next != ErrorState {
      q := p + 1;
      NameTaken(r, st, data, p);
    } else {
      if st.HeaderFieldGeneral? {
        next := HeaderFieldGeneralOtherwise;
      } else {
        s := s.(headerState := 0);
        next := HeaderFieldGeneral;
      }
      NameMissed(r, st, s, next, data, p);
    }
  }

  lemma NameTaken(r: Regs, st: State, data: octets, p: nat)
    requires r.error == HPE_OK && Running(r, st, data, p) && p < |data|
    requires st in {HeaderField, HeaderField2, HeaderFieldColon, HeaderFieldGeneral}
    requires NameByte(st, data[p]) != ErrorState
    ensures Rest(r, NameByte(st, data[p]), data, p + 1) == Rest(r, st, data, p)
  {
    hide Step, Settle, Rest, NameByte;
    StepNameTaken(At(r, st, data, p), data[p]);
    HoldNext(r, st, r, NameByte(st, data[p]), data, p);
  }

  lemma NameMissed(r: Regs, st: State, s: Regs, next: State, data: octets, p: nat)
    requires r.error == HPE_OK && Running(r, st, data, p) && p < |data|
    requires st in {HeaderField, HeaderField2, HeaderFieldColon, HeaderFieldGeneral}
    requires NameByte(st, data[p]) == ErrorState && (st.HeaderFieldColon? ==> data[p] != ':')
    requires if st.HeaderFieldGeneral? then next == HeaderFieldGeneralOtherwise && s == r
             else next == HeaderFieldGeneral && s == r.(headerState := 0)
    ensures Rest(s, next, data, p) == Rest(r, st, data, p)
  {
    hide Step, Run, NameByte;
    var m := At(r, st, data, p);
    if st.HeaderFieldGeneral? {
      StepGeneralMissed(m, data[p]);
    } else {
      StepNameMissed(m, data[p]);
    }
    RunNext(m, At(s, next, data, p), data[p..]);
  }

  lemma ColonByte()
    ensures NameByte(HeaderFieldColon, ':') == ErrorState
  {
  }

  /** The end of a header name: at its colon the span is closed, any other byte is an error. */
  method JumpNameEnd(r: Regs, st: State, data: octets, p: nat) returns (s: Regs, next: State, q: nat)
    requires r.error == HPE_OK && Running(r, st, data, p) && p < |data|
    requires st.HeaderFieldGeneralOtherwise? || (st.HeaderFieldColon? && data[p] == ':')
    ensures Jumped(st, data, p, s, next, q)
    ensures q <= p + 1 && Follows(At(r, st, data, p), At(s, next, data, q), data[p], q == p + 1)
  {
    hide Step, NameByte, IsToken;
    if st.HeaderFieldColon? {
      ColonByte();
      StepNameMissed(At(r, st, data, p), data[p]);
    } else {
      StepOtherwise(At(r, st, data, p), data[p]);
    }
    s, q := r, p;
    if data[p] == ':' {
      s := s.(calls := s.calls + [OnHeaderField(data[s.spanPos0.value..p])], spanPos0 := None);
      q := p + 1;
      next := HeaderValueDiscardWs;
    } else {
      s := s.(error := HPE_INVALID_HEADER_TOKEN);
      next := ErrorState;
      StepStopped(At(s, next, data, q), data[p]);
    }
  }

  /** One jump of the goto loop at a label that has a byte to read. */
  method Jump(r: Regs, st: State, data: octets, p: nat) returns (s: Regs, next: State, q: nat)
    requires r.error == HPE_OK && Running(r, st, data, p) && p < |data|
    requires !Outside(st) && !InBodySpan(st) && !st.UpdateContentLength? && !st.IsEqualContentLength?
    ensures p <= q && Running(s, next, data, q)
    ensures s.error == HPE_OK ==> q > p || Rank(next) < Rank(st)
    ensures Rest(s, next, data, q) == Rest(r, st, data, p)
  {
    hide Rest, Step, NameByte, IsToken, Blob;
    if IsMatcher(st) {
      s, next, q := JumpMatch(r, st, data, p);
      return;
    }
    if (st.HeaderFieldColon? && data[p] != ':') || st.HeaderField? || st.HeaderField2? || st.HeaderFieldGeneral? {
      s, next, q := JumpName(r, st, data, p);
      return;
    }
    s, q := r, p;
    if st.ChunkSizeDigit? || st.ChunkSize? {
      s, next, q := JumpSizeDigit(r, st, data, p);
    } else if st.ChunkSizeOtherwise? || st.ChunkParameters? || st.ChunkSizeAlmostDone? {
      s, next, q := JumpSizeLine(r, st, data, p);
    } else if st.ChunkDataAlmostDone? || st.ChunkDataAlmostDoneSkip? {
      s, next, q := JumpDataEnd(r, st, data, p);
    } else if st.HeaderFieldStart? {
      next, q := JumpHeaderStart(r, st, data, p);
    } else if st.SpanStartBody? || st.SpanStartBody1? || st.SpanStartHeaderField? {
      s, next := JumpSpanStart(r, st, data, p);
    } else {
      s, next, q := JumpNameEnd(r, st, data, p);
    }
    FollowRest(r, st, s, next, data, p, q);
  }

  lemma FollowRest(r: Regs, st: State, s: Regs, next: State, data: octets, p: nat, q: nat)
    requires p < |data| && (q == p || q == p + 1)
    requires Follows(At(r, st, data, p), At(s, next, data, q), data[p], q == p + 1)
    ensures Rest(s, next, data, q) == Rest(r, st, data, p)
  {
    hide Follows, At;
    FollowRun(At(r, st, data, p), At(s, next, data, q), data, p, q);
  }

  /** Control that left the modelled part, or raised an error, reads nothing more. */
  lemma StoppedRest(r: Regs, st: State, data: octets, p: nat)
    requires Running(r, st, data, p)
    requires r.error != HPE_OK || Outside(st)
    ensures Rest(r, st, data, p) == At(r, st, data, p)
  {
    RunStopped(At(r, st, data, p), data[p..]);
  }

  /** The goto loop: runs until the input, or the modelled part of the machine, is exhausted. */
  method Goto(r: Regs, st: State, data: octets) returns (s: Regs, next: State, q: nat)
    requires r.error == HPE_OK && Running(r, st, data, 0)
    ensures Running(s, next, data, q)
    ensures At(s, next, data, q) == Rest(r, st, data, 0)
    ensures s.error == HPE_OK && InSpan(next) ==> q == |data|
  {
    hide At, Rest, Blob;
    s, next, q := r, st, 0;
    var halted := false;
    while !halted
      invariant Running(s, next, data, q)
      invariant Rest(s, next, data, q) == Rest(r, st, data, 0)
      invariant !halted ==> s.error == HPE_OK
      invariant halted ==> Rest(s, next, data, q) == At(s, next, data, q)
      invariant halted && s.error == HPE_OK && InSpan(next) ==> q == |data|
      decreases !halted, |data| - q, Rank(next)
    {
      ghost var s0 := s;
      var st0 := next;
      if Outside(next) {
        halted := true;
      } else if next.UpdateContentLength? || next.IsEqualContentLength? {
        s, next := JumpInvoke(s, next, data, q);
        InvokedRest(s0, st0, s, next, data, q);
      } else if InBodySpan(next) {
        s, next, q := JumpConsume(s, next, data, q);
        halted := s.error != HPE_OK || next == st0;
      } else if q == |data| {
        EndRest(s, next, data);
        halted := true;
      } else {
        s, next, q := Jump(s, next, data, q);
        halted := s.error != HPE_OK;
      }
      if s.error != HPE_OK || Outside(next) {
        StoppedRest(s, next, data, q);
      } else if InBodySpan(next) && halted {
        EndRest(s, next, data);
      }
    }
  }

  lemma InvokedRest(r: Regs, st: State, s: Regs, next: State, data: octets, p: nat)
    requires p <= |data| && Settle(At(s, next, data, p)) == Settle(At(r, st, data, p))
    ensures Rest(s, next, data, p) == Rest(r, st, data, p)
  {
    hide Run, At;
    RunAlike(At(s, next, data, p), At(r, st, data, p), data[p..]);
  }

  /** At the end of the buffer a label that waits for a byte stays where it is, and so does an unfinished body. */
  lemma EndRest(r: Regs, st: State, data: octets)
    requires Running(r, st, data, |data|)
    requires !st.UpdateContentLength? && !st.IsEqualContentLength? && (InBodySpan(st) ==> r.contentLength > 0)
    ensures Rest(r, st, data, |data|) == At(r, st, data, |data|)
  {
    assert data[|data|..] == [];
  }

  /** Hands the rest of the buffer to the callback of an open span. */
  method FlushSpan(s: Regs, st: State, data: octets, ghost q: nat) returns (calls: seq<Call>, ghost held: octets)
    requires Running(s, st, data, q)
    requires s.error == HPE_OK && InSpan(st) ==> q == |data|
    ensures calls == Flush(At(s, st, data, q)).calls
    ensures Flush(At(s, st, data, q)) == At(s, st, data, q).(calls := calls, held := held)
    ensures s.error == HPE_OK ==> held == []
  {
    calls, held := s.calls, At(s, st, data, q).held;
    if s.error == HPE_OK && s.spanPos0.Some? {
      var span := data[s.spanPos0.value..];
      assert span == held;
      calls := calls + [if InBodySpan(st) then OnBody(span) else OnHeaderField(span)];
      held := [];
    }
  }

  /** A stopped parser reads nothing. */
  lemma Unmoved(m: Machine, data: octets)
    requires Resting(m) && m.error != HPE_OK
    ensures CallSpec(m, data) == m.(used := 0) && Resting(m.(used := 0))
  {
  }

  /** A call begins at the state that rests in the fields, with an open span restarted. */
  lemma Enter(m: Machine, spanPos0: Option<nat>, data: octets)
    requires Resting(m) && m.error == HPE_OK
    requires spanPos0 == (if InSpan(m.current) then Some(0) else None)
    ensures var r := Regs(m.index, m.contentLength, m.headerState, m.flags, m.error, spanPos0, m.calls);
            Running(r, m.current, data, 0) && Flush(Rest(r, m.current, data, 0)) == CallSpec(m, data)
  {
    hide Run;
    assert data[0..] == data && data[0..0] == [];
  }

  /** A call ends at a state that may rest in the fields. */
  lemma Leave(s: Regs, st: State, data: octets, q: nat, calls: seq<Call>, held: octets)
    requires Running(s, st, data, q) && (s.error == HPE_OK ==> held == [])
    ensures At(s, st, data, q).(calls := calls, held := held) ==
            Machine(st, s.index, s.contentLength, s.headerState, s.flags, s.error, held, calls, q)
    ensures Resting(Machine(st, s.index, s.contentLength, s.headerState, s.flags, s.error, held, calls, q))
    ensures s.error == HPE_OK ==> (s.spanPos0.Some? <==> InSpan(st))
  {
  }

  /** What the end of the input means to a parser (`enum llhttp_finish`). */
  datatype AtFinish = Safe | SafeWithCallback | Unsafe

  /** `llhttp__internal_s` */
  class Parser {
    // The start of a message has set it; the modelled labels leave it alone.
    const finish: AtFinish
    var current: State
    var index: nat
    var contentLength: nat
    var headerState: nat
    var flags: set<Flag>
    var error: nat
    var spanPos0: Option<nat>
    // The callbacks made so far.
    var calls: seq<Call>
    // How much of its buffer the last call consumed (`error_pos`, if it stopped early).
    var used: nat
    // Span bytes that an error kept from their callback.
    ghost var held: octets

    constructor (state: State)
      requires state.UpdateContentLength? || state.HeaderFieldStart?
      ensures Valid() && Abs() == Machine(state, 0, 0, 0, {}, HPE_OK, [], [], 0) && finish == Unsafe
    {
      finish := Unsafe;
      current, index, contentLength, headerState, flags := state, 0, 0, 0, {};
      error, spanPos0, calls, held, used := HPE_OK, None, [], [], 0;
    }

    /** A parser as `on_headers_complete` leaves it before a body of `length` bytes. */
    constructor ForBody(length: nat)
      requires length <= MAX_UINT64
      ensures Valid() && Abs() == Machine(SpanStartBody1, 0, length, 0, {}, HPE_OK, [], [], 0) && finish == Unsafe
    {
      finish := Unsafe;
      current, index, contentLength, headerState, flags := SpanStartBody1, 0, length, 0, {};
      error, spanPos0, calls, held, used := HPE_OK, None, [], [], 0;
    }

    ghost function Abs(): Machine
      reads this
    {
      Machine(current, index, contentLength, headerState, flags, error, held, calls, used)
    }

    ghost predicate Valid()
      reads this
    {
      Resting(Abs()) && (error == HPE_OK ==> (spanPos0.Some? <==> InSpan(current)))
    }

    /** `llhttp__internal_execute` */
    method Execute(data: octets)
      requires Valid()
      modifies this
      ensures Valid() && Abs() == CallSpec(old(Abs()), data)
    {
      hide Resting, CallSpec, Rest, Flush, Running, At, InSpan;
      ghost var m := Abs();
      if error != HPE_OK {
        Unmoved(m, data);
        used := 0;
        return;
      }
      // Restart spans.
      if spanPos0.Some? {
        spanPos0 := Some(0);
      }
      var r := Regs(index, contentLength, headerState, flags, error, spanPos0, calls);
      Enter(m, spanPos0, data);
      var s, next, q := Goto(r, current, data);
      index, contentLength, headerState, flags := s.index, s.contentLength, s.headerState, s.flags;
      error, spanPos0 := s.error, s.spanPos0;
      current, used := next, q;
      calls, held := FlushSpan(s, next, data, q);
      Leave(s, next, data, q, calls, held);
    }

    /** `llhttp_finish`: an end of input inside a message is reported in the result, and nowhere else. */
    method Finish() returns (err: nat)
      requires Valid()
      modifies this`calls
      ensures Valid() && Abs() == old(Abs()).(calls := calls)
      ensures error != HPE_OK || finish == Safe ==> err == HPE_OK && calls == old(calls)
      ensures error == HPE_OK && finish == Unsafe ==> err == HPE_INVALID_EOF_STATE && calls == old(calls)
      ensures error == HPE_OK && finish == SafeWithCallback ==>
                err == HPE_PAUSED && calls == old(calls) + [OnMessageComplete]
    {
      if error != HPE_OK {
        return HPE_OK;
      }
      match finish
      case SafeWithCallback =>
        // BodyReader's on_message_complete returns HPE_PAUSED.
        calls := calls + [OnMessageComplete];
        return HPE_PAUSED;
      case Safe => return HPE_OK;
      case Unsafe => return HPE_INVALID_EOF_STATE;
    }
  }
}
