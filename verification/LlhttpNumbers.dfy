/** The length and status-code accumulators hold the true value of a run of digits, or report overflow. */
module LlhttpNumbers {
  import opened LlhttpSpec

  /** The value of a run of digits read after a number whose value is `acc`. */
  function Value(base: nat, acc: nat, digits: seq<nat>): nat
    decreases |digits|
  {
    if digits == [] then acc else Value(base, acc * base + digits[0], digits[1..])
  }

  /** The accumulator fed with a run of digits, up to the first overflow. */
  function Accumulate(base: nat, acc: nat, digits: seq<nat>): (nat, bool)
    requires base > 0
    decreases |digits|
  {
    if digits == [] then (acc, false)
    else
      var (next, overflow) := MulAdd(acc, base, digits[0]);
      if overflow then (next, true) else Accumulate(base, next, digits[1..])
  }

  lemma MulMonotone(a: nat, b: nat, c: nat)
    requires a <= b
    ensures a * c <= b * c
  {
  }

  lemma {:induction false} ValueGrows(base: nat, acc: nat, digits: seq<nat>)
    requires base > 0
    ensures acc <= Value(base, acc, digits)
    decreases |digits|
  {
    if digits != [] {
      MulMonotone(1, base, acc);
      ValueGrows(base, acc * base + digits[0], digits[1..]);
    }
  }

  /** One step overflows exactly when the mathematical result leaves 64 bits; nothing ever wraps around. */
  lemma MulAddExact(acc: nat, base: nat, digit: nat)
    requires 0 < base <= MAX_UINT64 && digit < base && acc <= MAX_UINT64
    ensures var (value, overflow) := MulAdd(acc, base, digit);
            && value <= MAX_UINT64
            && (overflow <==> acc * base + digit > MAX_UINT64)
            && (!overflow ==> value == acc * base + digit)
            && (overflow ==> value == if acc * base > MAX_UINT64 then acc else acc * base)
  {
    var q := MAX_UINT64 / base;
    if acc > q {
      MulMonotone(q + 1, acc, base);
      assert (q + 1) * base > MAX_UINT64;
    } else {
      MulMonotone(acc, q, base);
    }
  }

  /** A run of digits overflows iff its value does not fit 64 bits; otherwise the accumulator is the value. */
  lemma {:induction false} AccumulateExact(base: nat, acc: nat, digits: seq<nat>)
    requires 0 < base <= MAX_UINT64 && acc <= MAX_UINT64
    requires forall i :: 0 <= i < |digits| ==> digits[i] < base
    ensures Accumulate(base, acc, digits).0 <= MAX_UINT64
    ensures Accumulate(base, acc, digits).1 <==> Value(base, acc, digits) > MAX_UINT64
    ensures !Accumulate(base, acc, digits).1 ==> Accumulate(base, acc, digits).0 == Value(base, acc, digits)
    decreases |digits|
  {
    if digits != [] {
      MulAddExact(acc, base, digits[0]);
      ValueGrows(base, acc * base + digits[0], digits[1..]);
      if acc * base + digits[0] <= MAX_UINT64 {
        AccumulateExact(base, acc * base + digits[0], digits[1..]);
      }
    }
  }

  const MAX_UINT16: nat := 0xffff

  /** `llhttp__internal__c_mul_add_status_code`: a 16-bit accumulator that also refuses values above 999. */
  function MulAddStatus(acc: nat, digit: nat): (nat, bool) {
    if acc > MAX_UINT16 / 10 then (acc, true)
    else if acc * 10 > MAX_UINT16 - digit then (acc * 10, true)
    else (acc * 10 + digit, acc * 10 + digit > 999)
  }

  method MulAddStatusCode(acc: nat, digit: nat) returns (value: nat, bad: bool)
    requires acc <= MAX_UINT16 && digit < 10
    ensures (value, bad) == MulAddStatus(acc, digit)
  {
    value := acc;
    if value > MAX_UINT16 / 10 {
      return value, true;
    }
    value := value * 10;
    if value > MAX_UINT16 - digit {
      return value, true;
    }
    value := value + digit;
    bad := value > 999;
  }

  function AccumulateStatus(acc: nat, digits: seq<nat>): (nat, bool)
    decreases |digits|
  {
    if digits == [] then (acc, false)
    else
      var (next, bad) := MulAddStatus(acc, digits[0]);
      if bad then (next, true) else AccumulateStatus(next, digits[1..])
  }

  /** A status code is refused iff its value exceeds 999; the 16-bit tests never come into play. */
  lemma {:induction false} StatusExact(acc: nat, digits: seq<nat>)
    requires acc <= 999
    requires forall i :: 0 <= i < |digits| ==> digits[i] < 10
    ensures AccumulateStatus(acc, digits).0 <= MAX_UINT16
    ensures AccumulateStatus(acc, digits).1 <==> Value(10, acc, digits) > 999
    ensures !AccumulateStatus(acc, digits).1 ==> AccumulateStatus(acc, digits).0 == Value(10, acc, digits)
    decreases |digits|
  {
    if digits != [] {
      ValueGrows(10, acc * 10 + digits[0], digits[1..]);
      if acc * 10 + digits[0] <= 999 {
        StatusExact(acc * 10 + digits[0], digits[1..]);
      }
    }
  }
}
