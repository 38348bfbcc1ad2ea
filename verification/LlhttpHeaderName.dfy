/** The header-name states recognise the framing headers, whatever the case and however the input is cut. */
module LlhttpHeaderName {
  import opened Octets
  import opened LlhttpBytes
  import opened LlhttpName
  import opened LlhttpSpec
  import opened LlhttpSplit
  import P = LlhttpParser

  // ----- the reference: compare the whole name -----

  function Lower(s: octets): (l: octets)
    ensures |l| == |s|
  {
    seq(|s|, i requires 0 <= i < |s| => ToLower(s[i]))
  }

  function TrimSpaces(s: octets): octets {
    if s != [] && s[|s| - 1] == ' ' then TrimSpaces(s[..|s| - 1]) else s
  }

  const CONNECTION: octets := "connection"
  const PROXY_CONNECTION: octets := "proxy-connection"
  const CONTENT_LENGTH: octets := "content-length"
  const TRANSFER_ENCODING: octets := "transfer-encoding"
  const UPGRADE: octets := "upgrade"

  const KEYWORDS: set<octets> := {CONNECTION, PROXY_CONNECTION, CONTENT_LENGTH, TRANSFER_ENCODING, UPGRADE}

  /** The header state a name should get: its lower-case form without trailing spaces decides. */
  function Classify(name: octets): nat {
    var t := TrimSpaces(Lower(name));
    if t == CONNECTION || t == PROXY_CONNECTION then 1
    else if t == CONTENT_LENGTH then 2
    else if t == TRANSFER_ENCODING then 3
    else if t == UPGRADE then 4
    else 0
  }

  // ----- the same, character by character -----

  /** The name read so far is a beginning of the keyword, or the keyword and then spaces. */
  predicate Fits(name: octets, kw: octets) {
    forall j :: 0 <= j < |name| ==> ToLower(name[j]) == (if j < |kw| then kw[j] else ' ')
  }

  predicate Full(name: octets, kw: octets) {
    |kw| <= |name| && Fits(name, kw)
  }

  predicate FitsNone(name: octets) {
    && !Fits(name, CONNECTION) && !Fits(name, PROXY_CONNECTION) && !Fits(name, CONTENT_LENGTH)
    && !Fits(name, TRANSFER_ENCODING) && !Fits(name, UPGRADE)
  }

  lemma {:induction false} TrimIs(l: octets, kw: octets)
    requires kw != [] && kw[|kw| - 1] != ' '
    ensures TrimSpaces(l) == kw <==>
            |kw| <= |l| && forall j :: 0 <= j < |l| ==> l[j] == (if j < |kw| then kw[j] else ' ')
    decreases |l|
  {
    if l != [] && l[|l| - 1] == ' ' {
      var init := l[..|l| - 1];
      TrimIs(init, kw);
      assert forall j :: 0 <= j < |init| ==> init[j] == l[j];
      if |kw| == |l| {
        assert l[|l| - 1] != kw[|kw| - 1];
      }
    } else if |kw| < |l| {
      assert l[|l| - 1] != ' ';
    } else if |kw| == |l| && (forall j :: 0 <= j < |l| ==> l[j] == kw[j]) {
      assert l == kw;
    }
  }

  lemma TrimFull(name: octets, kw: octets)
    requires kw != [] && kw[|kw| - 1] != ' '
    ensures TrimSpaces(Lower(name)) == kw <==> Full(name, kw)
  {
    TrimIs(Lower(name), kw);
    assert forall j :: 0 <= j < |name| ==> Lower(name)[j] == ToLower(name[j]);
  }

  lemma ClassifyByFit(name: octets)
    ensures Classify(name) ==
            if Full(name, CONNECTION) || Full(name, PROXY_CONNECTION) then 1
            else if Full(name, CONTENT_LENGTH) then 2
            else if Full(name, TRANSFER_ENCODING) then 3
            else if Full(name, UPGRADE) then 4
            else 0
  {
    TrimFull(name, CONNECTION);
    TrimFull(name, PROXY_CONNECTION);
    TrimFull(name, CONTENT_LENGTH);
    TrimFull(name, TRANSFER_ENCODING);
    TrimFull(name, UPGRADE);
  }

  // ----- the states, by what they have read -----

  /** The keyword a matcher state may complete, or leads to. */
  function Keyword(st: State): octets {
    if st.HeaderField4? then CONTENT_LENGTH
    else if st.HeaderField5? then PROXY_CONNECTION
    else if st.HeaderField6? then TRANSFER_ENCODING
    else if st.HeaderField7? then UPGRADE
    else CONNECTION
  }

  /** How much of the keyword was read before the matcher's blob begins. */
  function StemLength(st: State): nat {
    if st.HeaderField2? then 3
    else if st.HeaderField3? || st.HeaderField4? then 4
    else 1
  }

  predicate Reads(st: State, index: nat, headerState: nat, name: octets) {
    if IsMatcher(st) || st.HeaderField2? then
      && |name| == StemLength(st) + index && Fits(name, Keyword(st))
      && (IsMatcher(st) ==> index < |Blob(st)|) && (st.HeaderField2? ==> index == 0)
    else if st.HeaderFieldColon? then
      index == 0 && headerState == Classify(name) && headerState != 0
    else st.HeaderFieldGeneral? && index == 0 && headerState == 0 && FitsNone(name)
  }

  /** Reading on keeps a misfit and extends a fit by one character. */
  lemma FitsNext(name: octets, b: octet, kw: octets)
    ensures Fits(name + [b], kw) <==>
            Fits(name, kw) && ToLower(b) == (if |name| < |kw| then kw[|name|] else ' ')
  {
    var next := name + [b];
    assert forall j :: 0 <= j < |name| ==> next[j] == name[j];
    assert next[|name|] == b;
  }

  lemma FitsNextAll(name: octets, b: octet)
    ensures FitsNone(name) ==> FitsNone(name + [b])
  {
    FitsNext(name, b, CONNECTION);
    FitsNext(name, b, PROXY_CONNECTION);
    FitsNext(name, b, CONTENT_LENGTH);
    FitsNext(name, b, TRANSFER_ENCODING);
    FitsNext(name, b, UPGRADE);
  }

  /** A name that fits one keyword past the point where it differs from another does not fit the other. */
  lemma FitsOne(name: octets, kw: octets, other: octets, j: nat)
    requires Fits(name, kw) && j < |name| && j < |kw| && j < |other| && kw[j] != other[j]
    ensures !Fits(name, other)
  {
    assert ToLower(name[j]) == kw[j];
  }

  /** The blob of a matcher is its keyword from the stem on. */
  lemma BlobIsKeyword(st: State, index: nat)
    requires IsMatcher(st) && index < |Blob(st)|
    ensures StemLength(st) + index < |Keyword(st)| && Blob(st)[index] == Keyword(st)[StemLength(st) + index]
    ensures st.HeaderField1? || StemLength(st) + |Blob(st)| == |Keyword(st)|
    ensures st.HeaderField1? ==> CONTENT_LENGTH[1 + index] == Blob(st)[index]
  {
    hide Blob, Keyword;
    BlobSlices(st);
  }

  lemma BlobSlices(st: State)
    requires IsMatcher(st)
    ensures StemLength(st) + |Blob(st)| <= |Keyword(st)|
    ensures Blob(st) == Keyword(st)[StemLength(st)..StemLength(st) + |Blob(st)|]
    ensures st.HeaderField1? || StemLength(st) + |Blob(st)| == |Keyword(st)|
    ensures st.HeaderField1? ==> |Blob(st)| == 2 && Blob(st) == CONTENT_LENGTH[1..3]
  {
    if st.HeaderField1? {
      assert CONNECTION[1..3] == CONTENT_LENGTH[1..3] == Blob(st);
    } else if st.HeaderField3? {
      assert CONNECTION[4..10] == Blob(st);
    } else if st.HeaderField4? {
      assert CONTENT_LENGTH[4..14] == Blob(st);
    } else if st.HeaderField5? {
      assert PROXY_CONNECTION[1..16] == Blob(st);
    } else if st.HeaderField6? {
      assert TRANSFER_ENCODING[1..17] == Blob(st);
    } else {
      assert UPGRADE[1..7] == Blob(st);
    }
  }

  lemma NoneFits(name: octets)
    requires forall kw | kw in KEYWORDS :: !Fits(name, kw)
    ensures FitsNone(name)
  {
    hide Fits;
  }

  /** A name that fits a keyword fits no other, but that "con" begins two. */
  lemma OtherMisfits(name: octets, kw: octets, other: octets)
    requires kw in KEYWORDS && other in KEYWORDS && other != kw && Fits(name, kw) && name != []
    requires |name| > 3 || other[0] != kw[0]
    ensures !Fits(name, other)
  {
    FitsOne(name, kw, other, if other[0] != kw[0] then 0 else 3);
  }

  lemma OtherMissed(st: State, index: nat, name: octets, b: octet, other: octets)
    requires IsMatcher(st) && Reads(st, index, 0, name) && ToLower(b) != Blob(st)[index] && other in KEYWORDS
    ensures !Fits(name + [b], other)
  {
    var kw := Keyword(st);
    BlobIsKeyword(st, index);
    hide Blob, Fits;
    FitsNext(name, b, other);
    if other != kw && !(st.HeaderField1? && other == CONTENT_LENGTH) {
      OtherMisfits(name, kw, other);
    }
  }

  /** A mismatch in a matcher rules out every keyword. */
  lemma MissNone(st: State, index: nat, name: octets, b: octet)
    requires IsMatcher(st) && Reads(st, index, 0, name) && ToLower(b) != Blob(st)[index]
    ensures FitsNone(name + [b])
  {
    hide Fits, Blob, Keyword;
    forall other | other in KEYWORDS
      ensures !Fits(name + [b], other)
    {
      OtherMissed(st, index, name, b, other);
    }
    NoneFits(name + [b]);
  }

  /** The code of a keyword. */
  function Code(kw: octets): nat {
    if kw == CONNECTION || kw == PROXY_CONNECTION then 1
    else if kw == CONTENT_LENGTH then 2
    else if kw == TRANSFER_ENCODING then 3
    else if kw == UPGRADE then 4
    else 0
  }

  /** A full keyword is the only one the name fits, so it decides the class. */
  lemma FullDecides(name: octets, kw: octets)
    requires kw in KEYWORDS && Full(name, kw)
    ensures Classify(name) == Code(kw)
    ensures forall other | other in KEYWORDS && other != kw :: !Fits(name, other)
  {
    hide Fits, Classify;
    forall other | other in KEYWORDS && other != kw
      ensures !Fits(name, other)
    {
      OtherMisfits(name, kw, other);
    }
    ClassifyByFit(name);
  }

  lemma ClassHasKeyword(name: octets) returns (kw: octets)
    requires Classify(name) != 0
    ensures kw in KEYWORDS && Full(name, kw)
  {
    ClassifyByFit(name);
    kw := if Full(name, CONNECTION) then CONNECTION
          else if Full(name, PROXY_CONNECTION) then PROXY_CONNECTION
          else if Full(name, CONTENT_LENGTH) then CONTENT_LENGTH
          else if Full(name, TRANSFER_ENCODING) then TRANSFER_ENCODING
          else UPGRADE;
  }

  /** After a full keyword a space changes nothing and anything else rules every keyword out. */
  lemma FullNext(name: octets, b: octet)
    requires Classify(name) != 0
    ensures b == ' ' ==> Classify(name + [b]) == Classify(name)
    ensures ToLower(b) != ' ' ==> FitsNone(name + [b])
  {
    var kw := ClassHasKeyword(name);
    FullDecides(name, kw);
    FitsNext(name, b, kw);
    if b == ' ' {
      FullDecides(name + [b], kw);
    } else if ToLower(b) != ' ' {
      forall other | other in KEYWORDS
        ensures !Fits(name + [b], other)
      {
        FitsNext(name, b, other);
      }
    }
  }

  /** The last character of a blob completes its keyword. */
  lemma MatchFull(st: State, index: nat, name: octets, b: octet)
    requires IsMatcher(st) && !st.HeaderField1? && Reads(st, index, 0, name)
    requires index + 1 == |Blob(st)| && ToLower(b) == Blob(st)[index]
    ensures Classify(name + [b]) == StoredState(st) != 0
  {
    var kw := Keyword(st);
    BlobIsKeyword(st, index);
    hide Blob;
    FitsNext(name, b, kw);
    FullDecides(name + [b], kw);
  }

  /** A beginning of a keyword is not the keyword. */
  lemma PartialClass(st: State, index: nat, name: octets)
    requires (IsMatcher(st) || st.HeaderField2?) && Reads(st, index, 0, name)
    ensures Classify(name) == 0
  {
    if IsMatcher(st) {
      BlobIsKeyword(st, index);
    }
    hide Blob, Fits;
    forall other | other in KEYWORDS
      ensures !Full(name, other)
    {
      NotFull(name, Keyword(st), other);
    }
    NoFull(name);
  }

  lemma NotFull(name: octets, kw: octets, other: octets)
    requires kw in KEYWORDS && other in KEYWORDS && Fits(name, kw) && |name| < |kw|
    ensures !Full(name, other)
  {
    hide Fits;
    if other != kw && |name| > 3 {
      OtherMisfits(name, kw, other);
    }
  }

  lemma NoFull(name: octets)
    requires forall kw | kw in KEYWORDS :: !Full(name, kw)
    ensures Classify(name) == 0
  {
    hide Full;
    ClassifyByFit(name);
  }

  lemma NoneClass(name: octets)
    requires FitsNone(name)
    ensures Classify(name) == 0
  {
    ClassifyByFit(name);
  }

  // ----- the machine -----

  /** The machine has read `name`, which its callback has not seen yet. */
  predicate HasRead(m: Machine, name: octets) {
    m.error == HPE_OK && m.held == name && Reads(m.current, m.index, m.headerState, name)
  }

  /** Only the header-name part of the machine moved, by one byte of the name. */
  predicate Extends(m: Machine, n: Machine, b: octet) {
    n == m.(current := n.current, index := n.index, headerState := n.headerState,
            held := m.held + [b], used := m.used + 1)
  }

  lemma StepMiss(m: Machine, b: octet)
    requires m.error == HPE_OK && IsToken(b)
    requires IsMatcher(m.current) || m.current in {HeaderField, HeaderField2, HeaderFieldColon}
    requires IsMatcher(m.current) ==> m.index < |Blob(m.current)| && ToLower(b) != Blob(m.current)[m.index]
    requires !IsMatcher(m.current) ==> NameByte(m.current, b) == ErrorState && b != ':'
    ensures Step(m, b) == m.(current := HeaderFieldGeneral, headerState := 0, held := m.held + [b], used := m.used + 1,
                             index := if IsMatcher(m.current) then 0 else m.index)
  {
    hide Step, ToLower, IsToken, NameByte;
    if IsMatcher(m.current) {
      P.StepMismatch(m, b);
      P.StepNameTaken(m.(index := 0, headerState := 0, current := HeaderFieldGeneral), b);
    } else {
      P.StepNameMissed(m, b);
      P.StepNameTaken(m.(headerState := 0, current := HeaderFieldGeneral), b);
    }
  }

  lemma ReadMatcher(m: Machine, name: octets, b: octet)
    requires HasRead(m, name) && IsMatcher(m.current) && IsToken(b)
    ensures Extends(m, Step(m, b), b) && HasRead(Step(m, b), name + [b])
  {
    hide Step, IsToken, FitsNone;
    var blob := Blob(m.current);
    BlobIsKeyword(m.current, m.index);
    FitsNext(name, b, Keyword(m.current));
    if ToLower(b) != blob[m.index] {
      StepMiss(m, b);
      MissNone(m.current, m.index, name, b);
    } else if m.index + 1 < |blob| {
      P.StepMatch(m, b);
    } else {
      P.StepMatchLast(m, b);
      if !m.current.HeaderField1? {
        MatchFull(m.current, m.index, name, b);
      }
    }
  }

  /** After "con" only an n or a t goes on with a keyword. */
  lemma ConMiss(name: octets, b: octet)
    requires |name| == 3 && Fits(name, CONNECTION) && ToLower(b) != 'n' && ToLower(b) != 't'
    ensures FitsNone(name + [b])
  {
    forall other | other in KEYWORDS
      ensures !Fits(name + [b], other)
    {
      FitsNext(name, b, other);
      if other[0] != CONNECTION[0] {
        FitsOne(name, CONNECTION, other, 0);
      }
    }
  }

  lemma ConNext(name: octets, b: octet)
    requires |name| == 3 && Fits(name, CONNECTION)
    ensures Fits(name + [b], CONNECTION) <==> ToLower(b) == 'n'
    ensures Fits(name + [b], CONTENT_LENGTH) <==> ToLower(b) == 't'
  {
    assert CONNECTION[..3] == CONTENT_LENGTH[..3];
    assert forall i | 0 <= i < 3 :: CONNECTION[i] == CONNECTION[..3][i] && CONTENT_LENGTH[i] == CONTENT_LENGTH[..3][i];
    FitsNext(name, b, CONNECTION);
    FitsNext(name, b, CONTENT_LENGTH);
  }

  lemma ReadAfterCon(m: Machine, name: octets, b: octet)
    requires HasRead(m, name) && m.current.HeaderField2? && IsToken(b)
    ensures Extends(m, Step(m, b), b) && HasRead(Step(m, b), name + [b])
  {
    hide Step, Fits, FitsNone, IsToken;
    ConNext(name, b);
    if NameByte(m.current, b) != ErrorState {
      P.StepNameTaken(m, b);
    } else {
      TokenByte(b);
      StepMiss(m, b);
      ConMiss(name, b);
    }
  }

  lemma TokenByte(b: octet)
    requires IsToken(b)
    ensures b != ':' && b != CR && b != LF
  {
  }

  lemma ReadOther(m: Machine, name: octets, b: octet)
    requires HasRead(m, name) && (m.current.HeaderFieldColon? || m.current.HeaderFieldGeneral?) && IsToken(b)
    ensures Extends(m, Step(m, b), b) && HasRead(Step(m, b), name + [b])
  {
    hide Step, Classify, FitsNone, IsToken;
    TokenByte(b);
    if m.current.HeaderFieldColon? {
      FullNext(name, b);
      if b == ' ' {
        P.StepNameTaken(m, b);
      } else {
        StepMiss(m, b);
      }
    } else {
      P.StepNameTaken(m, b);
      FitsNextAll(name, b);
    }
  }

  lemma ReadToken(m: Machine, name: octets, b: octet)
    requires HasRead(m, name) && IsToken(b)
    ensures Extends(m, Step(m, b), b) && HasRead(Step(m, b), name + [b])
  {
    hide Step;
    if IsMatcher(m.current) {
      ReadMatcher(m, name, b);
    } else if m.current.HeaderField2? {
      ReadAfterCon(m, name, b);
    } else {
      ReadOther(m, name, b);
    }
  }

  /** A parser about to read a header line. */
  predicate AtLine(m: Machine) {
    m.error == HPE_OK && m.held == [] && m.current == HeaderFieldStart && m.index == 0
  }

  lemma FirstFits(b: octet)
    ensures ToLower(b) !in "cptu" ==> FitsNone([b])
    ensures ToLower(b) == 'c' ==> Fits([b], CONNECTION)
    ensures ToLower(b) == 'p' ==> Fits([b], PROXY_CONNECTION)
    ensures ToLower(b) == 't' ==> Fits([b], TRANSFER_ENCODING)
    ensures ToLower(b) == 'u' ==> Fits([b], UPGRADE)
  {
    forall kw | kw in KEYWORDS
      ensures Fits([b], kw) <==> ToLower(b) == kw[0]
    {
      assert [] + [b] == [b];
      FitsNext([], b, kw);
    }
  }

  lemma StartStep(m: Machine, b: octet)
    requires AtLine(m) && b != LF && b != CR
    ensures Step(m, b) == Step(m.(current := HeaderField), b)
  {
    hide Step;
    P.StepFieldStart(m, b);
    P.StepSpanStart(m.(current := SpanStartHeaderField), b, HeaderField);
  }

  lemma FirstReads(b: octet)
    ensures var st := NameByte(HeaderField, b);
            if st != ErrorState then forall h: nat :: Reads(st, 0, h, [b])
            else Reads(HeaderFieldGeneral, 0, 0, [b])
  {
    FirstFits(b);
    hide Fits, FitsNone;
  }

  lemma ReadFirst(m: Machine, b: octet)
    requires AtLine(m) && IsToken(b)
    ensures Extends(m, Step(m, b), b) && HasRead(Step(m, b), [b])
  {
    hide Step, IsToken, Reads, NameByte;
    TokenByte(b);
    StartStep(m, b);
    assert [] + [b] == [b];
    var m1 := m.(current := HeaderField);
    FirstReads(b);
    if NameByte(HeaderField, b) != ErrorState {
      P.StepNameTaken(m1, b);
    } else {
      StepMiss(m1, b);
    }
  }

  /** At its colon every name gets its class. */
  lemma ReadColon(m: Machine, name: octets)
    requires HasRead(m, name)
    ensures Step(m, ':') == m.(current := HeaderValueDiscardWs, index := 0, headerState := Classify(name),
                               calls := m.calls + [OnHeaderField(name)], held := [], used := m.used + 1)
  {
    hide Step, Classify, Reads, IsToken;
    ColonNoToken();
    ReadsClass(m, name);
    StepNoToken(m, ':');
  }

  /** What the state says about the name read so far. */
  lemma ReadsClass(m: Machine, name: octets)
    requires HasRead(m, name)
    ensures InFieldSpan(m.current) && !m.current.HeaderFieldGeneralOtherwise? && Indexed(m.current, m.index)
    ensures m.current.HeaderFieldGeneral? ==> m.headerState == 0
    ensures Classify(name) == if m.current.HeaderFieldColon? then m.headerState else 0
  {
    hide Blob, FitsNone, Fits, Classify;
    if IsMatcher(m.current) || m.current.HeaderField2? {
      PartialClass(m.current, if IsMatcher(m.current) then m.index else 0, name);
    } else if m.current.HeaderFieldGeneral? {
      NoneClass(name);
    }
  }

  /** A byte that is no token character, read inside a name. */
  lemma StepNoToken(m: Machine, b: octet)
    requires m.error == HPE_OK && InFieldSpan(m.current) && !m.current.HeaderFieldGeneralOtherwise?
    requires Indexed(m.current, m.index) && !IsToken(b) && (m.current.HeaderFieldGeneral? ==> m.headerState == 0)
    ensures Step(m, b) ==
            if b == ':'
            then EndField(m.(index := 0, headerState := if m.current.HeaderFieldColon? then m.headerState else 0))
            else Fail(m.(index := 0, headerState := 0), HPE_INVALID_HEADER_TOKEN)
  {
    hide Step, IsToken, NameByte, Blob, ToLower;
    var g := m.(current := HeaderFieldGeneral, index := 0, headerState := 0);
    NotTaken(m.current, b);
    NotTaken(HeaderFieldGeneral, b);
    P.StepGeneralMissed(g, b);
    P.StepOtherwise(g.(current := HeaderFieldGeneralOtherwise), b);
    if IsMatcher(m.current) {
      NotInBlob(m.current, m.index, b);
      P.StepMismatch(m, b);
    } else if !m.current.HeaderFieldGeneral? {
      P.StepNameMissed(m, b);
    }
  }

  lemma NotTaken(st: State, b: octet)
    requires !IsToken(b)
    ensures NameByte(st, b) == ErrorState
  {
    if NameByte(st, b) != ErrorState {
      NameByteToken(st, b);
    }
  }

  lemma NotInBlob(st: State, index: nat, b: octet)
    requires IsMatcher(st) && index < |Blob(st)| && !IsToken(b)
    ensures ToLower(b) != Blob(st)[index]
  {
    if ToLower(b) == Blob(st)[index] {
      BlobToken(st, index, b);
    }
  }

  /** Any other byte that is no token is an error. */
  lemma ReadBad(m: Machine, name: octets, b: octet)
    requires HasRead(m, name) && !IsToken(b) && b != ':'
    ensures Step(m, b) == m.(current := ErrorState, index := 0, headerState := 0, error := HPE_INVALID_HEADER_TOKEN)
  {
    hide Step, Classify, Reads, IsToken;
    ReadsClass(m, name);
    StepNoToken(m, b);
  }

  lemma ReadsInSpan(st: State, index: nat, headerState: nat, name: octets)
    requires Reads(st, index, headerState, name)
    ensures InFieldSpan(st)
  {
  }

  /** What becomes of a header line `w` whose name is the first `k` bytes of it. */
  predicate Outcome(m: Machine, n: Machine, w: octets, k: nat)
    requires k <= |w|
  {
    if k == |w| then
      && n == m.(current := n.current, index := n.index, headerState := n.headerState, held := w, used := m.used + |w|)
      && !Outside(n.current) && (w != [] ==> InFieldSpan(n.current))
    else if w[k] == ':' then
      n == m.(current := HeaderValueDiscardWs, headerState := Classify(w[..k]),
              calls := m.calls + [OnHeaderField(w[..k])], used := m.used + k + 1)
    else if k == 0 && (w[0] == CR || w[0] == LF) then
      n == m.(current := HeadersAlmostDone, used := m.used + if w[0] == CR then 1 else 0)
    else
      n == m.(current := ErrorState, headerState := 0, error := HPE_INVALID_HEADER_TOKEN,
              held := w[..k], used := m.used + k)
  }

  /** From `name` read so far, the rest `w` of the line decides. */
  lemma {:induction false} NameRun(m: Machine, name: octets, w: octets)
    requires HasRead(m, name)
    ensures var k, n := NameLength(w), Run(m, w);
            if k == |w| then
              && n == m.(current := n.current, index := n.index, headerState := n.headerState,
                         held := name + w, used := m.used + |w|)
              && InFieldSpan(n.current)
            else if w[k] == ':' then
              n == m.(current := HeaderValueDiscardWs, index := 0, headerState := Classify(name + w[..k]), held := [],
                      calls := m.calls + [OnHeaderField(name + w[..k])], used := m.used + k + 1)
            else
              n == m.(current := ErrorState, index := 0, headerState := 0, error := HPE_INVALID_HEADER_TOKEN,
                      held := name + w[..k], used := m.used + k)
    decreases |w|
  {
    hide Step, IsToken, Reads, Classify;
    if w == [] {
      assert InFieldSpan(m.current) by { ReadsInSpan(m.current, m.index, m.headerState, name); }
      assert name + [] == name;
    } else if !IsToken(w[0]) {
      assert name + w[..0] == name;
      if w[0] == ':' {
        ReadColon(m, name);
      } else {
        ReadBad(m, name, w[0]);
      }
      RunStopped(Step(m, w[0]), w[1..]);
    } else {
      var k := NameLength(w[1..]);
      ReadToken(m, name, w[0]);
      NameRun(Step(m, w[0]), name + [w[0]], w[1..]);
      assert (name + [w[0]]) + w[1..][..k] == name + w[..k + 1];
      if k < |w[1..]| {
        assert w[1..][k] == w[k + 1];
      }
    }
  }

  /**
   Header classification, over literal bytes: when the first `k` bytes of a line are printable and no
   delimiters, and the next one is not, the line is accepted iff that is a colon (or `k` is 0 and it is the
   end of the header), and then the header state is the class of the name and the callback has got the name.
   */
  lemma HeaderClassified(m: Machine, w: octets, k: nat)
    requires AtLine(m) && k <= |w|
    requires forall i :: 0 <= i < k ==> ' ' <= w[i] <= '~' && w[i] !in "\"(),/:;<=>?@[\\]{}"
    requires k < |w| ==> !(' ' <= w[k] <= '~') || w[k] in "\"(),/:;<=>?@[\\]{}"
    ensures Outcome(m, Run(m, w), w, k)
  {
    hide Run, IsToken, Outcome, HeaderByte;
    LineClassified(m, w);
    forall i | 0 <= i < k
      ensures IsToken(w[i])
    {
      PlainByte(w[i]);
    }
    if k < |w| {
      PlainByte(w[k]);
    }
    NameLengthIs(w, k);
  }

  lemma PlainByte(b: octet)
    ensures IsToken(b) <==> ' ' <= b <= '~' && b !in "\"(),/:;<=>?@[\\]{}"
  {
    hide IsToken;
    TokenBytes(b);
  }

  lemma LineClassified(m: Machine, w: octets)
    requires AtLine(m)
    ensures Outcome(m, Run(m, w), w, NameLength(w))
  {
    hide IsToken, Outcome;
    if w == [] {
      EmptyLine(m);
    } else if IsToken(w[0]) {
      LineWithName(m, w);
    } else {
      LineWithoutName(m, w);
    }
  }

  lemma EmptyLine(m: Machine)
    requires AtLine(m)
    ensures Outcome(m, Run(m, []), [], 0)
  {
  }

  lemma LineWithoutName(m: Machine, w: octets)
    requires AtLine(m) && w != [] && !IsToken(w[0])
    ensures Outcome(m, Run(m, w), w, 0)
  {
    FirstBad(m, w[0]);
    hide Step, Classify, IsToken;
    RunStopped(Step(m, w[0]), w[1..]);
    assert w[..0] == [w[0]][..0];
  }

  lemma AfterFirst(w: octets, k: nat)
    requires k < |w|
    ensures [w[0]] + w[1..] == w && [w[0]] + w[1..][..k] == w[..k + 1]
    ensures k + 1 < |w| ==> w[1..][k] == w[k + 1]
  {
  }

  lemma LineWithName(m: Machine, w: octets)
    requires AtLine(m) && w != [] && IsToken(w[0])
    ensures Outcome(m, Run(m, w), w, NameLength(w))
  {
    hide Step, Classify, IsToken, Reads;
    ReadFirst(m, w[0]);
    var k := NameLength(w[1..]);
    NameRun(Step(m, w[0]), [w[0]], w[1..]);
    AfterFirst(w, k);
  }

  lemma FirstBad(m: Machine, b: octet)
    requires AtLine(m) && !IsToken(b)
    ensures Outcome(m, Step(m, b), [b], 0) && Stopped(Step(m, b))
  {
    hide Step, Classify, IsToken;
    if b == LF || b == CR {
      P.StepFieldStart(m, b);
    } else {
      StartStep(m, b);
      StepNoToken(m.(current := HeaderField), b);
      NoNameClass();
    }
  }

  lemma NoNameClass()
    ensures Classify([]) == 0
  {
    NoFull([]);
  }

  /**
   Where a cut shows, told by the bytes alone: it comes after token characters of a name that goes on to a
   byte that is neither a token character nor a colon.
   */
  lemma CutShowsIff(m: Machine, a: octets, b: octets)
    requires AtLine(m) || InName(m)
    ensures CutShows(m, a, b) <==>
            m.held + a != [] && AllTokens(a) && NameLength(b) < |b| && b[NameLength(b)] != ':'
  {
    hide Run, IsToken, NameLength, AllTokens, Flush, InFieldSpan, Outside;
    var m0 := m.(used := 0);
    FlushTrace(Run(m0, a));
    if m.held + a != [] {
      StateAfter(m0, a);
    }
  }

  lemma StateAfter(m: Machine, a: octets)
    requires AtLine(m) || InName(m)
    requires m.held + a != []
    ensures var c := Run(m, a);
            if AllTokens(a) then c.error == HPE_OK && InFieldSpan(c.current) && !c.current.HeaderFieldGeneralOtherwise?
            else c.error != HPE_OK || !InFieldSpan(c.current)
  {
    hide Run, IsToken;
    if InName(m) {
      InNameRun(m, a);
    } else {
      LineRun(m, a);
    }
    if !AllTokens(a) {
      StoppedOutside(Run(m, a));
    }
  }

  lemma LineRun(m: Machine, a: octets)
    requires AtLine(m) && a != []
    ensures if AllTokens(a) then InName(Run(m, a)) else Stopped(Run(m, a))
  {
    hide Step, IsToken;
    TokensFirst(a);
    if a[0] == CR || a[0] == LF {
      assert !IsToken(a[0]) by { LineEndNoToken(); }
      assert Stopped(Step(m, a[0])) by { FirstBad(m, a[0]); }
      RunStopped(Step(m, a[0]), a[1..]);
    } else {
      StartStep(m, a[0]);
      InNameRun(m.(current := HeaderField), a);
    }
  }

  lemma LineEndNoToken()
    ensures !IsToken(CR) && !IsToken(LF)
  {
  }

  /** What one call on a header line reports and leaves. */
  predicate LineReport(n: Machine, w: octets, k: nat)
    requires k <= |w|
  {
    if k == |w| then n.error == HPE_OK && !Outside(n.current) && Trace(n.calls) == SpanEvents(false, w)
    else if w[k] == ':' then
      && n.current == HeaderValueDiscardWs && n.error == HPE_OK && n.headerState == Classify(w[..k])
      && Trace(n.calls) == SpanEvents(false, w[..k])
    else if k == 0 && (w[0] == CR || w[0] == LF) then
      n.error == HPE_OK && n.current == HeadersAlmostDone && Trace(n.calls) == []
    else n.error == HPE_INVALID_HEADER_TOKEN && Trace(n.calls) == []
  }

  lemma LineReported(m: Machine, w: octets)
    requires AtLine(m) && m.calls == []
    ensures LineReport(CallSpec(m, w), w, NameLength(w))
  {
    hide Run, Classify, Trace, IsToken, Flush;
    var k, n := NameLength(w), Run(m.(used := 0), w);
    LineClassified(m.(used := 0), w);
    FlushTrace(n);
    EmptyTrace();
    if k == |w| {
      assert w == [] ==> SpanEvents(false, w) == [];
    } else if w[k] == ':' {
      TraceAppend([], OnHeaderField(w[..k]));
      assert [] + [OnHeaderField(w[..k])] == [OnHeaderField(w[..k])];
    }
  }

  /** A name that is not rejected shows no cut. */
  lemma NoneShows(m: Machine, pieces: seq<octets>, i: nat)
    requires AtLine(m)
    requires var w := Concat(pieces);
             NameLength(w) < |w| ==> w[NameLength(w)] == ':' || (NameLength(w) == 0 && (w[0] == CR || w[0] == LF))
    ensures !Shows(m, pieces, i)
  {
    hide CutShows, NameLength, IsToken;
    if 0 < i < |pieces| {
      var head, tail := Concat(pieces[..i]), Concat(pieces[i..]);
      CutShowsIff(m, head, tail);
      ConcatSplit(pieces, i);
      assert m.held + head == head;
      if AllTokens(head) {
        NameLengthAppend(head, tail);
        assert NameLength(tail) < |tail| ==> (head + tail)[NameLength(head + tail)] == tail[NameLength(tail)];
      }
    }
  }

  /** Of a rejected name the last cut that shows comes before the piece with the offending byte. */
  lemma BadPiece(m: Machine, pieces: seq<octets>, i: nat)
    requires AtLine(m) && m.calls == [] && i < |pieces|
    requires var w, k := Concat(pieces), NameLength(Concat(pieces));
             k < |w| && w[k] != ':' && !(k == 0 && (w[0] == CR || w[0] == LF))
    requires |Concat(pieces[..i])| <= NameLength(Concat(pieces)) < |Concat(pieces[..i + 1])|
    ensures Trace(Calls(m, pieces).calls) == SpanEvents(false, Concat(pieces[..i]))
  {
    hide CallSpec, Trace, IsToken, CutShows, OpenName, NameLength, Run;
    var w, k, head := Concat(pieces), NameLength(Concat(pieces)), Concat(pieces[..i]);
    LineReported(m, w);
    CutAnywhere(m, pieces);
    forall j: nat | 0 < j < |pieces|
      ensures Shows(m, pieces, j) <==> |Concat(pieces[..j])| <= k && Concat(pieces[..j]) != []
    {
      ShowsBefore(m, pieces, j);
    }
    forall j: nat | i < j < |pieces|
      ensures !Shows(m, pieces, j)
    {
      ConcatGrows(pieces, i + 1, j);
    }
    if head != [] {
      assert LastToShow(m, pieces, i);
      OpenNameIsAll(m, head, Concat(pieces[i..]));
    } else {
      forall j: nat
        ensures !Shows(m, pieces, j)
      {
        if 0 < j <= i {
          ConcatEmpty(pieces, j, i);
        }
      }
    }
    assert [] + SpanEvents(false, head) == SpanEvents(false, head);
  }

  lemma {:induction false} ConcatGrows(pieces: seq<octets>, i: nat, j: nat)
    requires i <= j <= |pieces|
    ensures |Concat(pieces[..i])| <= |Concat(pieces[..j])|
    decreases i
  {
    if i > 0 {
      ConcatFirst(pieces, i);
      ConcatFirst(pieces, j);
      ConcatGrows(pieces[1..], i - 1, j - 1);
    }
  }

  lemma ShowsBefore(m: Machine, pieces: seq<octets>, j: nat)
    requires AtLine(m) && 0 < j < |pieces|
    requires var w, k := Concat(pieces), NameLength(Concat(pieces)); k < |w| && w[k] != ':'
    ensures Shows(m, pieces, j) <==> |Concat(pieces[..j])| <= NameLength(Concat(pieces)) && Concat(pieces[..j]) != []
  {
    hide CutShows, NameLength, IsToken;
    var w, k, head, tail := Concat(pieces), NameLength(Concat(pieces)), Concat(pieces[..j]), Concat(pieces[j..]);
    CutShowsIff(m, head, tail);
    ConcatSplit(pieces, j);
    assert m.held + head == head;
    if |head| <= k {
      TokensWithin(head, w, k);
    }
    if AllTokens(head) {
      NameLengthAppend(head, tail);
      assert NameLength(tail) < |tail| && w[k] == tail[NameLength(tail)];
    }
  }

  lemma TokensWithin(head: octets, w: octets, k: nat)
    requires |head| <= k <= |w| && head <= w && AllTokens(w[..k])
    ensures AllTokens(head)
  {
    hide IsToken;
    assert forall i | 0 <= i < |head| :: head[i] == w[..k][i];
  }

  /** Before a cut that shows a header line has been read as a name from its beginning. */
  lemma OpenNameIsAll(m: Machine, head: octets, tail: octets)
    requires AtLine(m) && CutShows(m, head, tail)
    ensures OpenName(m, head) == head
  {
    hide Run, Flush, NameRejected, IsToken, NameLength;
    CutShowsIff(m, head, tail);
    assert head[..|head|] == head;
    NameLengthIs(head, |head|);
    LineClassified(m.(used := 0), head);
    FlushTrace(Run(m.(used := 0), head));
  }

  /**
   The same for a line fed in any pieces. Of a rejected name the callback has got exactly the pieces before
   the one with the offending byte.
   */
  lemma HeaderClassifiedCut(m: Machine, pieces: seq<octets>)
    requires AtLine(m) && m.calls == [] && pieces != []
    ensures var w, n := Concat(pieces), Calls(m, pieces);
            var k := NameLength(w);
            if k < |w| && w[k] != ':' && !(k == 0 && (w[0] == CR || w[0] == LF)) then
              && n.error == HPE_INVALID_HEADER_TOKEN
              && forall i | 0 <= i < |pieces| && |Concat(pieces[..i])| <= k < |Concat(pieces[..i + 1])| ::
                   Trace(n.calls) == SpanEvents(false, Concat(pieces[..i]))
            else LineReport(n, w, k)
  {
    hide CallSpec, Classify, Trace, IsToken, CutShows, OpenName, NameLength;
    var w, k := Concat(pieces), NameLength(Concat(pieces));
    LineReported(m, w);
    CutAnywhere(m, pieces);
    if k < |w| && w[k] != ':' && !(k == 0 && (w[0] == CR || w[0] == LF)) {
      forall i | 0 <= i < |pieces| && |Concat(pieces[..i])| <= k < |Concat(pieces[..i + 1])|
        ensures Trace(Calls(m, pieces).calls) == SpanEvents(false, Concat(pieces[..i]))
      {
        BadPiece(m, pieces, i);
      }
    } else {
      forall i: nat
        ensures !Shows(m, pieces, i)
      {
        NoneShows(m, pieces, i);
      }
    }
  }

  lemma EmptyTrace()
    ensures Trace([]) == []
  {
  }

  /**
   Where cutting shows: "a@" is rejected either way, but cut in two its first byte has been reported
   and in one call it has not.
   */
  lemma RejectedNameSeen(m: Machine)
    requires AtLine(m)
    ensures var one, two := CallSpec(m, "a@"), CallSpec(CallSpec(m, "a"), "@");
            && one.error == two.error == HPE_INVALID_HEADER_TOKEN
            && Trace(two.calls) == Trace(one.calls) + [FieldByte('a')]
  {
    hide CallSpec, IsToken, CutShows, OpenName, Trace;
    var a, at: octets := "a", "@";
    assert AllTokens(a) && NameLength(at) == 0 by { LetterAndAt(); }
    CutShowsIff(m, a, at);
    OpenNameIsAll(m, a, at);
    SplitInvariance(m, a, at);
    assert "a@" == a + at;
    CutRejects(m, a, at);
    assert SpanEvents(false, a) == [FieldByte('a')];
  }

  lemma LetterAndAt()
    ensures IsToken('a') && !IsToken('@')
  {
  }
}
