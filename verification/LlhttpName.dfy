/** Where a header name ends: at its first byte that is no token character. */
module LlhttpName {
  import opened Octets
  import opened LlhttpSpec
  import P = LlhttpParser

  predicate AllTokens(s: octets) {
    forall i :: 0 <= i < |s| ==> IsToken(s[i])
  }

  /** The length of the run of token characters `w` begins with. */
  function NameLength(w: octets): (k: nat)
    ensures k <= |w| && AllTokens(w[..k]) && (k < |w| ==> !IsToken(w[k]))
  {
    if w == [] || !IsToken(w[0]) then 0 else
      var k := NameLength(w[1..]);
      assert w[..k + 1] == [w[0]] + w[1..][..k];
      k + 1
  }

  /** A parser inside a header name, with the next byte of it still to come. */
  predicate InName(m: Machine) {
    m.error == HPE_OK && InFieldSpan(m.current) && !m.current.HeaderFieldGeneralOtherwise?
  }

  /** What the byte `b` makes of a parser inside a header name. */
  predicate NameStep(n: Machine, b: octet) {
    if IsToken(b) then InName(n)
    else if b == ':' then n.error == HPE_OK && Outside(n.current)
    else n.error == HPE_INVALID_HEADER_TOKEN
  }

  lemma GeneralStep(m: Machine, b: octet)
    requires m.error == HPE_OK && m.current.HeaderFieldGeneral?
    ensures NameStep(Step(m, b), b)
  {
    hide Step, IsToken;
    if IsToken(b) {
      P.StepNameTaken(m, b);
    } else {
      P.StepGeneralMissed(m, b);
      P.StepOtherwise(m.(current := HeaderFieldGeneralOtherwise), b);
    }
  }

  /** The bytes that a blob or a name label takes are token characters. */
  lemma BlobToken(st: State, i: nat, b: octet)
    requires IsMatcher(st) && i < |Blob(st)| && ToLower(b) == Blob(st)[i]
    ensures IsToken(b)
  {
    assert 'a' <= Blob(st)[i] <= 'z' || Blob(st)[i] == '-';
  }

  lemma NameByteToken(st: State, b: octet)
    requires NameByte(st, b) != ErrorState
    ensures IsToken(b) && !NameByte(st, b).HeaderFieldGeneralOtherwise?
  {
  }

  lemma MatcherStep(m: Machine, b: octet)
    requires m.error == HPE_OK && IsMatcher(m.current)
    ensures NameStep(Step(m, b), b)
  {
    hide Step, IsToken, ToLower, Blob;
    if m.index < |Blob(m.current)| && ToLower(b) == Blob(m.current)[m.index] {
      BlobToken(m.current, m.index, b);
      if m.index + 1 < |Blob(m.current)| {
        P.StepMatch(m, b);
      } else {
        P.StepMatchLast(m, b);
      }
    } else {
      P.StepMismatch(m, b);
      GeneralStep(m.(index := 0, headerState := 0, current := HeaderFieldGeneral), b);
    }
  }

  lemma LabelStep(m: Machine, b: octet)
    requires m.error == HPE_OK && m.current in {HeaderField, HeaderField2, HeaderFieldColon}
    ensures NameStep(Step(m, b), b)
  {
    hide Step, IsToken, NameByte;
    if NameByte(m.current, b) != ErrorState {
      NameByteToken(m.current, b);
      P.StepNameTaken(m, b);
    } else {
      ColonNoToken();
      P.StepNameMissed(m, b);
      GeneralStep(m.(current := HeaderFieldGeneral, headerState := 0), b);
    }
  }

  lemma ColonNoToken()
    ensures !IsToken(':')
  {
  }

  /** Inside a header name a token character goes on with it, a colon ends it and any other byte is an error. */
  lemma InNameStep(m: Machine, b: octet)
    requires InName(m)
    ensures NameStep(Step(m, b), b)
  {
    hide Step, NameStep;
    if IsMatcher(m.current) {
      MatcherStep(m, b);
    } else if m.current.HeaderFieldGeneral? {
      GeneralStep(m, b);
    } else {
      LabelStep(m, b);
    }
  }

  /**
   The header name that is open at `st` goes on in `b` to a byte that is neither a token character nor a colon.
   At the label past the last token the next byte alone decides.
   */
  predicate NameRejected(st: State, b: octets) {
    var k := if st.HeaderFieldGeneralOtherwise? then 0 else NameLength(b);
    k < |b| && b[k] != ':'
  }

  /** An open header name is rejected exactly for what comes first after its token characters. */
  lemma {:induction false} RejectedIff(m: Machine, b: octets)
    requires m.error == HPE_OK && InFieldSpan(m.current)
    ensures Run(m, b).error == HPE_INVALID_HEADER_TOKEN <==> NameRejected(m.current, b)
    decreases |b|
  {
    hide Step, IsToken;
    if b == [] {
    } else if m.current.HeaderFieldGeneralOtherwise? {
      P.StepOtherwise(m, b[0]);
      RunStopped(Step(m, b[0]), b[1..]);
    } else {
      InNameStep(m, b[0]);
      if IsToken(b[0]) {
        RejectedIff(Step(m, b[0]), b[1..]);
      } else {
        RunStopped(Step(m, b[0]), b[1..]);
      }
    }
  }

  /** Inside a header name token characters keep the parser there, and any other byte takes it out for good. */
  lemma {:induction false} InNameRun(m: Machine, a: octets)
    requires InName(m)
    ensures if AllTokens(a) then InName(Run(m, a)) else Stopped(Run(m, a))
    decreases |a|
  {
    hide Step, IsToken, Settle;
    if a == [] {
      NameSettled(m);
    } else {
      InNameStep(m, a[0]);
      assert AllTokens(a) <==> IsToken(a[0]) && AllTokens(a[1..]) by { TokensFirst(a); }
      if IsToken(a[0]) {
        InNameRun(Step(m, a[0]), a[1..]);
      } else {
        RunStopped(Step(m, a[0]), a[1..]);
      }
    }
  }

  lemma NameSettled(m: Machine)
    requires InName(m)
    ensures Settle(m) == m
  {
  }

  lemma TokensFirst(a: octets)
    requires a != []
    ensures AllTokens(a) <==> IsToken(a[0]) && AllTokens(a[1..])
  {
    hide IsToken;
    assert a == [a[0]] + a[1..];
    if IsToken(a[0]) && AllTokens(a[1..]) {
      forall i | 0 <= i < |a|
        ensures IsToken(a[i])
      {
        assert i > 0 ==> a[i] == a[1..][i - 1];
      }
    }
  }

  /** The run of token characters is the longest one. */
  lemma {:induction false} NameLengthIs(w: octets, k: nat)
    requires k <= |w| && AllTokens(w[..k]) && (k < |w| ==> !IsToken(w[k]))
    ensures NameLength(w) == k
    decreases |w|
  {
    hide IsToken;
    if k > 0 {
      assert w[..k][0] == w[0] && w[..k][1..] == w[1..][..k - 1];
      TokensFirst(w[..k]);
      NameLengthIs(w[1..], k - 1);
    }
  }

  lemma NameLengthAppend(p: octets, s: octets)
    requires AllTokens(p)
    ensures NameLength(p + s) == |p| + NameLength(s)
  {
    hide IsToken, NameLength;
    var k := |p| + NameLength(s);
    forall i | 0 <= i < k
      ensures IsToken((p + s)[..k][i])
    {
      assert (p + s)[i] == if i < |p| then p[i] else s[..NameLength(s)][i - |p|];
    }
    NameLengthIs(p + s, k);
  }
}
