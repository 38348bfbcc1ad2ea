/** The WebSocket frame codec (sections 5.2 and 5.3 of RFC 6455). */
module WebSocketFrame {
  type byte = bv8

  import opened Wrappers

  /** A parsed frame; the masking key is left unset when the frame is not masked. */
  datatype Frame = Frame(
    fin: bool,
    opcode: byte,
    mask: bool,
    payloadLength: nat,
    maskingKey: Option<bv32>,
    payload: seq<byte>)

  datatype FrameError = FrameTooShort | InvalidFrameLength | IncompleteFramePayload

  /**
   The outcome of parsing. `Unbounded` stands for a length so close to 2^64 that the sum checked
   against the buffer wraps around: the code then reads outside the buffer and nothing is claimed.
   */
  datatype ParseResult = Parsed(frame: Frame) | Rejected(error: FrameError) | Unbounded

  const TWO_64: nat := 0x1_0000_0000_0000_0000

  // ----- bytes and numbers -----

  function Low8(n: nat): byte {
    (n % 256) as byte
  }

  function ByteValue(b: byte): (n: nat)
    ensures n < 256
  {
    b as int
  }

  lemma Low8Value(n: nat)
    ensures ByteValue(Low8(n)) == n % 256
  {
    ByteBack(n % 256);
  }

  lemma ByteBack(n: nat)
    requires n < 256
    ensures (n as byte) as int == n
  {
    // The conversions are cheaper to decide for sixteen numbers at a time.
    if n < 0x10 {
    } else if n < 0x20 {
    } else if n < 0x30 {
    } else if n < 0x40 {
    } else if n < 0x50 {
    } else if n < 0x60 {
    } else if n < 0x70 {
    } else if n < 0x80 {
    } else if n < 0x90 {
    } else if n < 0xa0 {
    } else if n < 0xb0 {
    } else if n < 0xc0 {
    } else if n < 0xd0 {
    } else if n < 0xe0 {
    } else if n < 0xf0 {
    } else {
    }
  }

  function Pow256(k: nat): (p: nat)
    ensures p > 0
  {
    if k == 0 then 1 else 256 * Pow256(k - 1)
  }

  /** `n >> 8 * k` */
  function ShiftBytes(n: nat, k: nat): nat {
    if k == 0 then n else ShiftBytes(n / 256, k - 1)
  }

  /** The low `k` bytes of `n`, most significant first. */
  function BigEndian(n: nat, k: nat): (bytes: seq<byte>)
    ensures |bytes| == k
  {
    if k == 0 then [] else BigEndian(n / 256, k - 1) + [Low8(n)]
  }

  /** The number a run of bytes denotes, most significant first. */
  function Number(bytes: seq<byte>): (n: nat)
    ensures n < Pow256(|bytes|)
  {
    if bytes == [] then 0
    else Number(bytes[..|bytes| - 1]) * 256 + ByteValue(bytes[|bytes| - 1])
  }

  lemma {:induction false} NumberOfBigEndian(n: nat, k: nat)
    requires n < Pow256(k)
    ensures Number(BigEndian(n, k)) == n
  {
    hide Number, Low8, ByteValue;
    if k == 0 {
      assert Number([]) == 0 by { NoNumber(); }
    } else {
      NumberOfBigEndian(n / 256, k - 1);
      NumberPush(BigEndian(n / 256, k - 1), Low8(n));
      Low8Value(n);
    }
  }

  lemma NoNumber()
    ensures Number([]) == 0
  {
  }

  lemma NumberPush(bytes: seq<byte>, b: byte)
    ensures Number(bytes + [b]) == Number(bytes) * 256 + ByteValue(b)
  {
    hide ByteValue;
    assert (bytes + [b])[..|bytes|] == bytes;
  }

  lemma {:induction false} BigEndianAt(n: nat, k: nat, i: nat)
    requires i < k
    ensures BigEndian(n, k)[i] == Low8(ShiftBytes(n, k - 1 - i))
  {
    if i < k - 1 {
      BigEndianAt(n / 256, k - 1, i);
    }
  }

  // ----- masking -----

  /** Byte `j` of the masking key, most significant first. */
  function KeyByte(key: bv32, j: nat): byte
    requires j < 4
  {
    if j == 0 then ((key >> 24) & 0xFF) as byte
    else if j == 1 then ((key >> 16) & 0xFF) as byte
    else if j == 2 then ((key >> 8) & 0xFF) as byte
    else (key & 0xFF) as byte
  }

  function KeyBytes(key: bv32): seq<byte> {
    [KeyByte(key, 0), KeyByte(key, 1), KeyByte(key, 2), KeyByte(key, 3)]
  }

  /** The key after reading some of its bytes. */
  function KeyOf(bytes: seq<byte>): bv32 {
    if bytes == [] then 0 else Shifted(KeyOf(bytes[..|bytes| - 1]), bytes[|bytes| - 1])
  }

  function Shifted(key: bv32, b: byte): bv32 {
    (key << 8) | (b as bv32)
  }

  lemma KeyOfBytes(key: bv32)
    ensures KeyOf(KeyBytes(key)) == key
  {
    hide KeyOf, KeyByte, Shifted;
    NoKey();
    var k := KeyBytes(key);
    KeyOfPush([], k[0]);
    KeyOfPush([k[0]], k[1]);
    KeyOfPush([k[0], k[1]], k[2]);
    KeyOfPush([k[0], k[1], k[2]], k[3]);
    assert [] + [k[0]] == [k[0]] && [k[0]] + [k[1]] == [k[0], k[1]];
    assert [k[0], k[1]] + [k[2]] == [k[0], k[1], k[2]] && [k[0], k[1], k[2]] + [k[3]] == k;
    KeyBits(key);
  }

  lemma KeyOfPush(bytes: seq<byte>, b: byte)
    ensures KeyOf(bytes + [b]) == Shifted(KeyOf(bytes), b)
  {
    assert (bytes + [b])[..|bytes|] == bytes;
  }

  lemma KeyBits(key: bv32)
    ensures var k2 := Shifted(Shifted(0, KeyByte(key, 0)), KeyByte(key, 1));
            Shifted(Shifted(k2, KeyByte(key, 2)), KeyByte(key, 3)) == key
  {
  }

  /** XOR with the key, byte by byte and four bytes around. */
  function Masked(payload: seq<byte>, key: bv32): (out: seq<byte>)
    ensures |out| == |payload|
  {
    seq(|payload|, i requires 0 <= i < |payload| => payload[i] ^ KeyByte(key, i % 4))
  }

  lemma MaskTwice(payload: seq<byte>, key: bv32)
    ensures Masked(Masked(payload, key), key) == payload
  {
    forall i | 0 <= i < |payload|
      ensures Masked(Masked(payload, key), key)[i] == payload[i]
    {
      XorTwice(payload[i], KeyByte(key, i % 4));
    }
  }

  lemma XorTwice(a: byte, k: byte)
    ensures (a ^ k) ^ k == a
  {
  }

  // ----- the frame format -----

  function FirstByte(fin: bool, opcode: byte): byte {
    (if fin then 0x80 else 0x00) | (opcode & 0x0F)
  }

  function SecondByte(mask: bool, len7: nat): byte
    requires len7 < 128
  {
    (if mask then 0x80 else 0x00) | Low8(len7)
  }

  function Length7(n: nat): (len7: nat)
    ensures len7 < 128
  {
    if n < 126 then n else if n <= 0xFFFF then 126 else 127
  }

  /** How many bytes of extended length follow. */
  function ExtendedSize(len7: nat): nat {
    if len7 == 126 then 2 else if len7 == 127 then 8 else 0
  }

  function Header(fin: bool, opcode: byte, mask: bool, key: bv32, n: nat): seq<byte> {
    [FirstByte(fin, opcode), SecondByte(mask, Length7(n))]
    + BigEndian(n, ExtendedSize(Length7(n)))
    + (if mask then KeyBytes(key) else [])
  }

  function Encode(fin: bool, opcode: byte, mask: bool, key: bv32, payload: seq<byte>): seq<byte> {
    Header(fin, opcode, mask, key, |payload|) + (if mask then Masked(payload, key) else payload)
  }

  /** What the second byte of a frame announces. */
  function HeaderSize(len7: nat, mask: bool): nat {
    2 + ExtendedSize(len7) + (if mask then 4 else 0)
  }

  predicate TopBit(b: byte) {
    b & 0x80 != 0
  }

  function Low4(b: byte): byte {
    b & 0x0F
  }

  function Low7(b: byte): (n: nat)
    ensures n < 128
  {
    Low7Small(b);
    ByteValue(b & 0x7F)
  }

  lemma Low7Small(b: byte)
    ensures ByteValue(b & 0x7F) < 128
  {
  }

  /** The payload from `start` on, unmasked if there is a key. */
  function PayloadAt(data: seq<byte>, fin: bool, opcode: byte, maskingKey: Option<bv32>, start: nat, len: nat)
    : ParseResult
  {
    if |data| < (start + len) % TWO_64 then Rejected(IncompleteFramePayload)
    else if start + len >= TWO_64 then Unbounded
    else
      var raw := data[start..start + len];
      Parsed(Frame(fin, opcode, maskingKey.Some?, len, maskingKey,
                   if maskingKey.Some? then Masked(raw, maskingKey.value) else raw))
  }

  /** What follows the first two bytes: the length, the key and the payload. */
  function DecodeRest(data: seq<byte>, fin: bool, opcode: byte, mask: bool, len7: nat): ParseResult
    requires |data| >= 2
  {
    var ext, start := ExtendedSize(len7), HeaderSize(len7, mask);
    if |data| < start then Rejected(InvalidFrameLength)
    else
      PayloadAt(data, fin, opcode, if mask then Some(KeyOf(data[2 + ext..start])) else None, start,
                if ext == 0 then len7 else Number(data[2..2 + ext]))
  }

  function Decode(data: seq<byte>): ParseResult {
    if |data| < 2 then Rejected(FrameTooShort)
    else DecodeRest(data, TopBit(data[0]), Low4(data[0]), TopBit(data[1]), Low7(data[1]))
  }

  // ----- round trip -----

  lemma HeaderBits(fin: bool, opcode: byte, mask: bool, len7: nat)
    requires len7 < 128
    ensures TopBit(FirstByte(fin, opcode)) == fin && Low4(FirstByte(fin, opcode)) == Low4(opcode)
    ensures TopBit(SecondByte(mask, len7)) == mask && Low7(SecondByte(mask, len7)) == len7
  {
    var low := Low8(len7);
    Low8Value(len7);
    assert low < 0x80 by { SmallByte(low); }
    SecondBits(mask, low);
  }

  lemma SmallByte(b: byte)
    requires ByteValue(b) < 128
    ensures b < 0x80
  {
  }

  lemma SecondBits(mask: bool, low: byte)
    requires low < 0x80
    ensures var b: byte := (if mask then 0x80 else 0x00) | low; (b & 0x80 != 0) == mask && b & 0x7F == low
  {
  }

  /** The header of a frame says where the payload starts and how long it is. */
  lemma HeaderParts(fin: bool, opcode: byte, mask: bool, key: bv32, n: nat, tail: seq<byte>)
    ensures var h, len7 := Header(fin, opcode, mask, key, n), Length7(n);
            var ext, start, data := ExtendedSize(len7), HeaderSize(len7, mask), h + tail;
            && |h| == start
            && data[0] == FirstByte(fin, opcode) && data[1] == SecondByte(mask, len7)
            && data[2..2 + ext] == BigEndian(n, ext)
            && (mask ==> data[2 + ext..start] == KeyBytes(key))
            && data[start..] == tail
  {
  }

  lemma LengthRoundTrip(n: nat)
    requires n < TWO_64
    ensures var ext := ExtendedSize(Length7(n));
            n == if ext == 0 then Length7(n) else Number(BigEndian(n, ext))
  {
    if 126 <= n <= 0xFFFF {
      assert Pow256(2) == 0x1_0000 by { Powers(); }
      NumberOfBigEndian(n, 2);
    } else if n > 0xFFFF {
      assert Pow256(8) == TWO_64 by { Powers(); }
      NumberOfBigEndian(n, 8);
    }
  }

  lemma Powers()
    ensures Pow256(2) == 0x1_0000 && Pow256(8) == TWO_64
  {
    assert Pow256(1) == 256;
    assert Pow256(2) == 256 * 256;
    assert Pow256(3) == 256 * Pow256(2);
    assert Pow256(4) == 256 * Pow256(3);
    assert Pow256(5) == 256 * Pow256(4);
    assert Pow256(6) == 256 * Pow256(5);
    assert Pow256(7) == 256 * Pow256(6);
    assert Pow256(8) == 256 * Pow256(7);
  }

  /** The largest payload whose frame size still fits the 64-bit sums. */
  predicate Sizeable(n: nat) {
    n < TWO_64 - 14
  }

  /** Parsing what was created, whatever follows it, gives back every field and the unmasked payload. */
  lemma RoundTrip(fin: bool, opcode: byte, mask: bool, key: bv32, payload: seq<byte>, rest: seq<byte>)
    requires Sizeable(|payload|)
    ensures Decode(Encode(fin, opcode, mask, key, payload) + rest) ==
            Parsed(Frame(fin, Low4(opcode), mask, |payload|, if mask then Some(key) else None, payload))
  {
    hide Number, BigEndian, KeyOf, KeyBytes, Masked, DecodeRest, Pow256, TopBit, Low4, Low7, FirstByte, SecondByte;
    var n := |payload|;
    var raw := if mask then Masked(payload, key) else payload;
    var data := Encode(fin, opcode, mask, key, payload) + rest;
    assert data == Header(fin, opcode, mask, key, n) + (raw + rest);
    HeaderParts(fin, opcode, mask, key, n, raw + rest);
    HeaderBits(fin, opcode, mask, Length7(n));
    LengthRoundTrip(n);
    KeyOfBytes(key);
    MaskTwice(payload, key);
    var start := HeaderSize(Length7(n), mask);
    assert data[start..start + n] == raw by {
      assert data[start..start + n] == data[start..][..n] == (raw + rest)[..n];
    }
    hide Header, Encode, HeaderSize;
    RestIs(data, fin, Low4(opcode), mask, Length7(n), n, raw);
  }

  lemma RestIs(data: seq<byte>, fin: bool, opcode: byte, mask: bool, len7: nat, len: nat, raw: seq<byte>)
    requires Sizeable(len) && |data| >= HeaderSize(len7, mask) + len
    requires var ext := ExtendedSize(len7); len == if ext == 0 then len7 else Number(data[2..2 + ext])
    requires raw == data[HeaderSize(len7, mask)..HeaderSize(len7, mask) + len]
    ensures DecodeRest(data, fin, opcode, mask, len7) ==
            if mask then
              var key := KeyOf(data[2 + ExtendedSize(len7)..HeaderSize(len7, mask)]);
              Parsed(Frame(fin, opcode, true, len, Some(key), Masked(raw, key)))
            else Parsed(Frame(fin, opcode, false, len, None, raw))
  {
    hide Number, KeyOf, Masked;
  }

  /** Frames delimit themselves: no proper prefix of a created frame is accepted. */
  lemma PrefixRejected(fin: bool, opcode: byte, mask: bool, key: bv32, payload: seq<byte>, k: nat)
    requires Sizeable(|payload|) && k < |Encode(fin, opcode, mask, key, payload)|
    ensures Decode(Encode(fin, opcode, mask, key, payload)[..k]).Rejected?
  {
    var n, len7 := |payload|, Length7(|payload|);
    var raw := if mask then Masked(payload, key) else payload;
    HeaderParts(fin, opcode, mask, key, n, raw);
    HeaderBits(fin, opcode, mask, len7);
    LengthRoundTrip(n);
    var full := Encode(fin, opcode, mask, key, payload);
    var data := full[..k];
    var ext, start := ExtendedSize(len7), HeaderSize(len7, mask);
    assert |full| == start + n;
    if k >= start {
      PrefixSlice(full, k, 2, 2 + ext);
    }
    if k >= 2 {
      assert data[0] == full[0] && data[1] == full[1];
      hide DecodeRest, Header, Encode, BigEndian, Number, Length7, FirstByte, SecondByte;
      ShortRest(data, fin, Low4(opcode), mask, len7, n);
    }
  }

  lemma PrefixSlice(full: seq<byte>, k: nat, a: nat, b: nat)
    requires a <= b <= k <= |full|
    ensures full[..k][a..b] == full[a..b]
  {
  }

  lemma ShortRest(data: seq<byte>, fin: bool, opcode: byte, mask: bool, len7: nat, len: nat)
    requires Sizeable(len) && 2 <= |data| < HeaderSize(len7, mask) + len
    requires |data| >= HeaderSize(len7, mask) ==>
               var ext := ExtendedSize(len7); len == if ext == 0 then len7 else Number(data[2..2 + ext])
    ensures DecodeRest(data, fin, opcode, mask, len7).Rejected?
  {
    hide Number, KeyOf, Masked;
  }

  /** What an accepted frame says about the buffer it was read from. */
  lemma DecodedSize(data: seq<byte>)
    requires Decode(data).Parsed? && Sizeable(Decode(data).frame.payloadLength)
    ensures var f := Decode(data).frame;
            && |f.payload| == f.payloadLength && f.opcode == Low4(f.opcode) && f.mask == f.maskingKey.Some?
            && HeaderSize(Length7(f.payloadLength), f.mask) + f.payloadLength <= |data|
  {
    hide Number, KeyOf, Masked, TopBit, Low4, Low7, Pow256;
    var len7 := Low7(data[1]);
    var n := Decode(data).frame.payloadLength;
    assert len7 == 126 ==> n < 0x1_0000 by { Powers(); }
    Low4Twice(data[0]);
  }

  lemma Low4Twice(b: byte)
    ensures Low4(Low4(b)) == Low4(b)
  {
  }

  /**
   Encoding an accepted frame again yields a frame that is never longer than the buffer it came from
   and that parses to the same frame.
   */
  lemma Canonical(data: seq<byte>, key: bv32)
    requires Decode(data).Parsed? && Sizeable(Decode(data).frame.payloadLength)
    requires var f := Decode(data).frame; f.mask ==> key == f.maskingKey.value
    ensures var f := Decode(data).frame;
            var again := Encode(f.fin, f.opcode, f.mask, key, f.payload);
            |again| <= |data| && Decode(again) == Parsed(f)
  {
    var f := Decode(data).frame;
    DecodedSize(data);
    hide Decode;
    HeaderParts(f.fin, f.opcode, f.mask, key, f.payloadLength, []);
    RoundTrip(f.fin, f.opcode, f.mask, key, f.payload, []);
    assert Encode(f.fin, f.opcode, f.mask, key, f.payload) + [] == Encode(f.fin, f.opcode, f.mask, key, f.payload);
  }

  // ----- the format, byte by byte -----

  // Two, four and eight bytes of `data` from `i` on as one number.

  function Two(data: seq<byte>, i: nat): nat
    requires i + 2 <= |data|
  {
    ByteValue(data[i]) * 0x100 + ByteValue(data[i + 1])
  }

  function Four(data: seq<byte>, i: nat): nat
    requires i + 4 <= |data|
  {
    Two(data, i) * 0x1_0000 + Two(data, i + 2)
  }

  function Eight(data: seq<byte>, i: nat): nat
    requires i + 8 <= |data|
  {
    Four(data, i) * 0x1_0000_0000 + Four(data, i + 4)
  }

  /** The bits of the first two bytes, as numbers. */
  lemma ByteBits(b: byte)
    ensures TopBit(b) <==> ByteValue(b) >= 128
    ensures Low7(b) == ByteValue(b) % 128
    ensures ByteValue(Low4(b)) == ByteValue(b) % 16
  {
    LowBits(b);
  }

  lemma LowBits(b: byte)
    ensures (b & 0x80 != 0) <==> (b as int) >= 128
    ensures (b & 0x7F) as int == (b as int) % 128
    ensures (b & 0x0F) as int == (b as int) % 16
  {
  }

  lemma NumberMore(bytes: seq<byte>, k: nat)
    requires k + 2 <= |bytes|
    ensures Number(bytes[..k + 2]) == Number(bytes[..k]) * 0x1_0000 + Two(bytes, k)
  {
    hide Number, ByteValue;
    NumberPush(bytes[..k], bytes[k]);
    NumberPush(bytes[..k + 1], bytes[k + 1]);
    assert bytes[..k] + [bytes[k]] == bytes[..k + 1] && bytes[..k + 1] + [bytes[k + 1]] == bytes[..k + 2];
  }

  lemma NumberEight(bytes: seq<byte>)
    ensures |bytes| == 2 ==> Number(bytes) == Two(bytes, 0)
    ensures |bytes| == 8 ==> Number(bytes) == Eight(bytes, 0)
  {
    hide Number, Two;
    NoNumber();
    if |bytes| >= 2 {
      NumberMore(bytes, 0);
      assert bytes[..0] == [];
    }
    if |bytes| == 2 {
      assert bytes[..2] == bytes;
    } else if |bytes| == 8 {
      NumberMore(bytes, 2);
      NumberMore(bytes, 4);
      NumberMore(bytes, 6);
      assert bytes[..8] == bytes;
    }
  }

  /** The key of four bytes gives them back, most significant first. */
  lemma KeyOfFour(bytes: seq<byte>)
    requires |bytes| == 4
    ensures KeyBytes(KeyOf(bytes)) == bytes
  {
    hide KeyOf, KeyByte, Shifted;
    NoKey();
    KeyOfPush([], bytes[0]);
    KeyOfPush(bytes[..1], bytes[1]);
    KeyOfPush(bytes[..2], bytes[2]);
    KeyOfPush(bytes[..3], bytes[3]);
    assert [] + [bytes[0]] == bytes[..1] && bytes[..1] + [bytes[1]] == bytes[..2];
    assert bytes[..2] + [bytes[2]] == bytes[..3] && bytes[..3] + [bytes[3]] == bytes;
    FourBits(bytes[0], bytes[1], bytes[2], bytes[3],
             KeyOf(bytes[..1]), KeyOf(bytes[..2]), KeyOf(bytes[..3]), KeyOf(bytes));
  }

  lemma NoKey()
    ensures KeyOf([]) == 0
  {
  }

  lemma FourBits(a: byte, b: byte, c: byte, d: byte, k1: bv32, k2: bv32, k3: bv32, key: bv32)
    requires k1 == Shifted(0, a) && k2 == Shifted(k1, b) && k3 == Shifted(k2, c) && key == Shifted(k3, d)
    ensures KeyByte(key, 0) == a && KeyByte(key, 1) == b && KeyByte(key, 2) == c && KeyByte(key, 3) == d
  {
  }

  /** Where the payload of a frame starts, by the second byte. */
  function StartOf(second: nat): nat {
    2 + (if second % 128 == 126 then 2 else if second % 128 == 127 then 8 else 0) + (if second >= 128 then 4 else 0)
  }

  /** How long the payload of a frame is, by the second byte and those after it. */
  function LengthOf(data: seq<byte>): nat
    requires |data| >= 2 && |data| >= StartOf(ByteValue(data[1]))
  {
    var len7 := ByteValue(data[1]) % 128;
    if len7 < 126 then len7
    else if len7 == 126 then Two(data, 2)
    else Eight(data, 2)
  }

  /** What the bytes of a frame say (sections 5.2 and 5.3 of RFC 6455), `len` of them from `start` on its payload. */
  predicate Says(data: seq<byte>, f: Frame, start: nat, len: nat) {
    && 2 <= start && start + len <= |data|
    && (f.fin <==> ByteValue(data[0]) >= 128) && ByteValue(f.opcode) == ByteValue(data[0]) % 16
    && (f.mask <==> ByteValue(data[1]) >= 128) && f.payloadLength == len
    && if f.mask
       then f.maskingKey.Some? && SaysKey(data, f.maskingKey.value, start) && SaysMasked(data, f.payload, start, len)
       else f.maskingKey.None? && f.payload == data[start..start + len]
  }

  /** The key is the four bytes before the payload, most significant first. */
  predicate SaysKey(data: seq<byte>, key: bv32, start: nat) {
    && 4 <= start <= |data|
    && ((key >> 24) & 0xFF) as byte == data[start - 4] && ((key >> 16) & 0xFF) as byte == data[start - 3]
    && ((key >> 8) & 0xFF) as byte == data[start - 2] && (key & 0xFF) as byte == data[start - 1]
  }

  /** Byte `i` of the payload is XORed with byte `i % 4` of the key. */
  predicate SaysMasked(data: seq<byte>, payload: seq<byte>, start: nat, len: nat) {
    && 4 <= start && start + len <= |data| && |payload| == len
    && forall i | 0 <= i < len :: payload[i] == data[start + i] ^ data[start - 4 + i % 4]
  }

  /** Parsing, byte by byte: every buffer is refused for the first thing it lacks, or says the frame that is parsed. */
  lemma DecodeBytes(data: seq<byte>)
    ensures var r := Decode(data);
            if |data| < 2 then r == Rejected(FrameTooShort)
            else
              var start := StartOf(ByteValue(data[1]));
              if |data| < start then r == Rejected(InvalidFrameLength)
              else
                var len := LengthOf(data);
                if start + len >= TWO_64 then
                  r == if |data| < start + len - TWO_64 then Rejected(IncompleteFramePayload) else Unbounded
                else if |data| < start + len then r == Rejected(IncompleteFramePayload)
                else r.Parsed? && Says(data, r.frame, start, len)
  {
    hide Number, KeyOf, TopBit, Low4, Low7, ByteValue, PayloadAt, LengthOf, StartOf, HeaderSize, Says;
    if |data| >= 2 {
      StartIs(data);
      var start, mask := StartOf(ByteValue(data[1])), TopBit(data[1]);
      if |data| >= start {
        LengthBytes(data);
        LengthFits(data);
        var key := if mask then Some(KeyOf(data[start - 4..start])) else None;
        PayloadSays(data, TopBit(data[0]), Low4(data[0]), key, start, LengthOf(data));
      }
    }
  }

  lemma StartIs(data: seq<byte>)
    requires |data| >= 2
    ensures TopBit(data[1]) <==> ByteValue(data[1]) >= 128
    ensures var start, ext := StartOf(ByteValue(data[1])), ExtendedSize(Low7(data[1]));
            && start == HeaderSize(Low7(data[1]), TopBit(data[1])) >= 2 + ext
            && start == 2 + ext + (if TopBit(data[1]) then 4 else 0)
  {
    hide ByteValue, TopBit, Low7;
    ByteBits(data[1]);
  }

  lemma LengthFits(data: seq<byte>)
    requires |data| >= 2 && |data| >= StartOf(ByteValue(data[1]))
    ensures StartOf(ByteValue(data[1])) + LengthOf(data) < TWO_64 + TWO_64
  {
    hide ByteValue;
  }

  lemma LengthBytes(data: seq<byte>)
    requires |data| >= 2 && |data| >= StartOf(ByteValue(data[1]))
    ensures var ext := ExtendedSize(Low7(data[1]));
            LengthOf(data) == if ext == 0 then Low7(data[1]) else Number(data[2..2 + ext])
  {
    hide Number, ByteValue, Low7, Eight;
    ByteBits(data[1]);
    var len7 := Low7(data[1]);
    if len7 == 126 {
      NumberEight(data[2..4]);
      assert Two(data[2..4], 0) == Two(data, 2);
    } else if len7 == 127 {
      NumberEight(data[2..10]);
      EightSlice(data);
    }
  }

  lemma EightSlice(data: seq<byte>)
    requires |data| >= 10
    ensures Eight(data[2..10], 0) == Eight(data, 2)
  {
    hide ByteValue;
    var bytes := data[2..10];
    assert bytes[0] == data[2] && bytes[1] == data[3] && bytes[2] == data[4] && bytes[3] == data[5];
    assert bytes[4] == data[6] && bytes[5] == data[7] && bytes[6] == data[8] && bytes[7] == data[9];
  }

  lemma PayloadSays(data: seq<byte>, fin: bool, opcode: byte, key: Option<bv32>, start: nat, len: nat)
    requires |data| >= 2 && fin == TopBit(data[0]) && opcode == Low4(data[0])
    requires start >= 2 && key.Some? == TopBit(data[1])
    requires key.Some? ==> 6 <= start <= |data| && key.value == KeyOf(data[start - 4..start])
    requires start + len < TWO_64 + TWO_64
    ensures var r := PayloadAt(data, fin, opcode, key, start, len);
            if start + len >= TWO_64 then
              r == if |data| < start + len - TWO_64 then Rejected(IncompleteFramePayload) else Unbounded
            else if |data| < start + len then r == Rejected(IncompleteFramePayload)
            else r.Parsed? && Says(data, r.frame, start, len)
  {
    hide TopBit, Low4, ByteValue, Masked, KeyOf, SaysKey, SaysMasked;
    ByteBits(data[0]);
    ByteBits(data[1]);
    if start + len <= |data| && key.Some? {
      KeyOfFour(data[start - 4..start]);
      KeySaid(data, key.value, start);
      PayloadUnmasked(data, key.value, start, len);
    }
  }

  lemma KeySaid(data: seq<byte>, key: bv32, start: nat)
    requires 4 <= start <= |data| && KeyBytes(key) == data[start - 4..start]
    ensures SaysKey(data, key, start)
  {
    var bytes := data[start - 4..start];
    KeyParts(key, bytes);
    hide KeyBytes, KeyByte;
    assert bytes[0] == data[start - 4] && bytes[1] == data[start - 3];
    assert bytes[2] == data[start - 2] && bytes[3] == data[start - 1];
  }

  lemma PayloadUnmasked(data: seq<byte>, key: bv32, start: nat, len: nat)
    requires 4 <= start && start + len <= |data| && KeyBytes(key) == data[start - 4..start]
    ensures SaysMasked(data, Masked(data[start..start + len], key), start, len)
  {
    hide KeyByte;
    KeyParts(key, data[start - 4..start]);
    forall i | 0 <= i < len
      ensures KeyByte(key, i % 4) == data[start - 4 + i % 4]
    {
      assert data[start - 4..start][i % 4] == data[start - 4 + i % 4];
    }
  }

  lemma KeyParts(key: bv32, bytes: seq<byte>)
    requires KeyBytes(key) == bytes
    ensures |bytes| == 4 && forall j | 0 <= j < 4 :: KeyByte(key, j) == bytes[j]
    ensures ((key >> 24) & 0xFF) as byte == bytes[0] && ((key >> 16) & 0xFF) as byte == bytes[1]
    ensures ((key >> 8) & 0xFF) as byte == bytes[2] && (key & 0xFF) as byte == bytes[3]
  {
    assert KeyBytes(key)[0] == KeyByte(key, 0) && KeyBytes(key)[1] == KeyByte(key, 1);
    assert KeyBytes(key)[2] == KeyByte(key, 2) && KeyBytes(key)[3] == KeyByte(key, 3);
  }

  /** Creating, byte by byte: no reserved bit is set, and the length takes the shortest of its three forms. */
  lemma EncodeBytes(fin: bool, opcode: byte, mask: bool, key: bv32, payload: seq<byte>)
    requires |payload| < TWO_64
    ensures var e, n := Encode(fin, opcode, mask, key, payload), |payload|;
            && |e| >= 2
            && ByteValue(e[0]) == (if fin then 128 else 0) + ByteValue(opcode) % 16
            && ByteValue(e[1]) == (if mask then 128 else 0) + (if n < 126 then n else if n < 0x1_0000 then 126 else 127)
            && var start := StartOf(ByteValue(e[1]));
               && |e| == start + n && LengthOf(e) == n
               && if mask
                  then SaysKey(e, key, start)
                       && forall i | 0 <= i < n :: e[start + i] == payload[i] ^ e[start - 4 + i % 4]
                  else e[start..] == payload
  {
    hide Encode, KeyBytes, KeyByte, Masked, ByteValue, LengthOf, Header, SaysKey;
    EncodeHead(fin, opcode, mask, key, payload);
    if mask {
      var e, start := Encode(fin, opcode, mask, key, payload), HeaderSize(Length7(|payload|), mask);
      KeySaid(e, key, start);
      MaskedBytes(e, payload, key, start);
    }
  }

  lemma EncodeHead(fin: bool, opcode: byte, mask: bool, key: bv32, payload: seq<byte>)
    requires |payload| < TWO_64
    ensures var e, n, len7 := Encode(fin, opcode, mask, key, payload), |payload|, Length7(|payload|);
            var start := HeaderSize(len7, mask);
            && |e| == start + n && e[start..] == (if mask then Masked(payload, key) else payload)
            && ByteValue(e[0]) == (if fin then 128 else 0) + ByteValue(opcode) % 16
            && ByteValue(e[1]) == (if mask then 128 else 0) + len7 && StartOf(ByteValue(e[1])) == start
            && LengthOf(e) == n && (mask ==> KeyBytes(key) == e[start - 4..start])
  {
    hide Number, BigEndian, KeyBytes, Masked, Low7, ByteValue, FirstByte, SecondByte, Eight, Header, LengthOf;
    var n, e := |payload|, Encode(fin, opcode, mask, key, payload);
    var len7, raw := Length7(n), if mask then Masked(payload, key) else payload;
    HeaderParts(fin, opcode, mask, key, n, raw);
    HeaderBits(fin, opcode, mask, len7);
    HeaderNumbers(fin, opcode, mask, len7);
    LengthRoundTrip(n);
    LengthBytes(e);
  }

  lemma HeaderNumbers(fin: bool, opcode: byte, mask: bool, len7: nat)
    requires len7 < 128
    ensures ByteValue(FirstByte(fin, opcode)) == (if fin then 128 else 0) + ByteValue(opcode) % 16
    ensures ByteValue(SecondByte(mask, len7)) == (if mask then 128 else 0) + len7
  {
    FirstBits(fin, opcode);
    HeaderBits(fin, opcode, mask, len7);
    ByteBits(SecondByte(mask, len7));
  }

  lemma FirstBits(fin: bool, opcode: byte)
    ensures FirstByte(fin, opcode) as int == (if fin then 128 else 0) + (opcode as int) % 16
  {
  }

  lemma MaskedBytes(e: seq<byte>, payload: seq<byte>, key: bv32, start: nat)
    requires 6 <= start <= |e| && KeyBytes(key) == e[start - 4..start] && e[start..] == Masked(payload, key)
    ensures |e| == start + |payload|
    ensures forall i | 0 <= i < |payload| :: e[start + i] == payload[i] ^ e[start - 4 + i % 4]
  {
    hide KeyByte;
    KeyParts(key, e[start - 4..start]);
    forall i | 0 <= i < |payload|
      ensures e[start + i] == payload[i] ^ e[start - 4 + i % 4]
    {
      assert e[start..][i] == e[start + i];
      assert e[start - 4..start][i % 4] == e[start - 4 + i % 4];
    }
  }

  // ----- the code -----

  lemma {:induction false} ShiftStep(n: nat, k: nat)
    ensures ShiftBytes(n, k + 1) == ShiftBytes(n, k) / 256
  {
    if k > 0 {
      ShiftStep(n / 256, k - 1);
    }
  }

  /** XORs the payload, which fills the end of the frame, with the masking key. */
  method MaskTail(frame: seq<byte>, key: bv32, size: nat) returns (out: seq<byte>)
    requires size <= |frame|
    ensures out == frame[..|frame| - size] + Masked(frame[|frame| - size..], key)
  {
    out := frame;
    var start := |frame| - size;
    for i := 0 to size
      invariant |out| == |frame| && out[..start] == frame[..start]
      invariant forall j :: start <= j < start + i ==> out[j] == frame[j] ^ KeyByte(key, (j - start) % 4)
      invariant forall j :: start + i <= j < |frame| ==> out[j] == frame[j]
    {
      out := out[start + i := out[start + i] ^ KeyByte(key, i % 4)];
    }
    assert out[start..] == Masked(frame[start..], key);
    assert out == out[..start] + out[start..];
  }

  /** The second byte and the extended length. */
  method CreateLength(mask: bool, size: nat) returns (frame: seq<byte>)
    ensures frame == [SecondByte(mask, Length7(size))] + BigEndian(size, ExtendedSize(Length7(size)))
  {
    hide SecondByte;
    frame := [];
    if size < 126 {
      frame := frame + [SecondByte(mask, size)];
      assert BigEndian(size, 0) == [];
    } else if size <= 0xFFFF {
      frame := frame + [SecondByte(mask, 126), Low8(ShiftBytes(size, 1)), Low8(size)];
      BigEndianAt(size, 2, 0);
      BigEndianAt(size, 2, 1);
      assert BigEndian(size, 2)[..] == [Low8(ShiftBytes(size, 1)), Low8(size)];
    } else {
      frame := frame + [SecondByte(mask, 127)];
      ghost var head := frame;
      var i := 8;
      while i > 0
        invariant 0 <= i <= 8
        invariant frame == head + BigEndian(size, 8)[..8 - i]
      {
        i := i - 1;
        BigEndianAt(size, 8, 7 - i);
        frame := frame + [Low8(ShiftBytes(size, i))];
      }
      assert BigEndian(size, 8)[..8] == BigEndian(size, 8);
    }
  }

  method CreateFrame(fin: bool, opcode: byte, mask: bool, key: bv32, payload: seq<byte>) returns (frame: seq<byte>)
    ensures frame == Encode(fin, opcode, mask, key, payload)
  {
    hide KeyByte, KeyBytes, FirstByte, SecondByte, BigEndian, Length7;
    var size := |payload|;
    var lengthBytes := CreateLength(mask, size);
    frame := [FirstByte(fin, opcode)] + lengthBytes;
    if mask {
      frame := frame + KeyBytes(key);
    }
    ghost var header := frame;
    assert header == Header(fin, opcode, mask, key, size);
    frame := frame + payload;
    if mask {
      frame := MaskTail(frame, key, size);
    }
  }

  /** A length or a key is accumulated byte by byte. */
  method ReadNumber(data: seq<byte>, pos: nat, k: nat) returns (n: nat)
    requires pos + k <= |data| && k <= 8
    ensures n == Number(data[pos..pos + k])
  {
    n := 0;
    for i := 0 to k
      invariant n == Number(data[pos..pos + i])
    {
      assert data[pos..pos + i + 1][..i] == data[pos..pos + i];
      n := n * 256 + ByteValue(data[pos + i]);
    }
  }

  method ReadKey(data: seq<byte>, pos: nat) returns (key: bv32)
    requires pos + 4 <= |data|
    ensures key == KeyOf(data[pos..pos + 4])
  {
    key := 0;
    for i := 0 to 4
      invariant key == KeyOf(data[pos..pos + i])
    {
      assert data[pos..pos + i + 1][..i] == data[pos..pos + i];
      key := Shifted(key, data[pos + i]);
    }
  }

  method Parse(data: seq<byte>) returns (result: ParseResult)
    ensures result == Decode(data)
  {
    hide Number, KeyOf, PayloadAt, KeyByte, TopBit, Low4, Low7, Pow256, ByteValue;
    if |data| < 2 {
      return Rejected(FrameTooShort);
    }
    var fin, opcode := TopBit(data[0]), Low4(data[0]);
    var mask, len := TopBit(data[1]), Low7(data[1]);
    var pos := 2;
    if len == 126 || len == 127 {
      var ext := if len == 126 then 2 else 8;
      if |data| < pos + ext {
        return Rejected(InvalidFrameLength);
      }
      len := ReadNumber(data, pos, ext);
      pos := pos + ext;
    }
    var maskingKey: Option<bv32> := None;
    if mask {
      if |data| < pos + 4 {
        return Rejected(InvalidFrameLength);
      }
      var key := ReadKey(data, pos);
      maskingKey := Some(key);
      pos := pos + 4;
    }
    result := ParsePayload(data, fin, opcode, maskingKey, pos, len);
  }

  method ParsePayload(data: seq<byte>, fin: bool, opcode: byte, maskingKey: Option<bv32>, pos: nat, len: nat)
    returns (result: ParseResult)
    ensures result == PayloadAt(data, fin, opcode, maskingKey, pos, len)
  {
    hide Masked;
    if |data| < (pos + len) % TWO_64 {
      return Rejected(IncompleteFramePayload);
    }
    if pos + len >= TWO_64 {
      return Unbounded;
    }
    var payload := data[pos..pos + len];
    if maskingKey.Some? {
      payload := MaskTail(payload, maskingKey.value, len);
    }
    result := Parsed(Frame(fin, opcode, maskingKey.Some?, len, maskingKey, payload));
  }
}
