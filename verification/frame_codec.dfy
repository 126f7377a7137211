/**
 The frames of section 5.2 of RFC 6455 as the test server's echo endpoint reads and writes them: an
 incremental parser over a growing buffer, and a printer that picks among three length forms.
 */
module FrameCodec {
  import opened Sequences

  type Byte = b: int | 0 <= b < 256

  /** Buffer lengths are exact JavaScript numbers. */
  const BUFFER_LIMIT: nat := 0x20_0000_0000_0000

  datatype Frame = Frame(opcode: nat, data: seq<Byte>)

  datatype Parsed = Incomplete | Complete(frame: Frame, consumed: nat)

  // ----- Numbers -----

  /** Exclusive or on the lowest `width` bits. */
  function XorBits(a: nat, b: nat, width: nat): nat {
    if width == 0 then 0 else 2 * XorBits(a / 2, b / 2, width - 1) + (a % 2 + b % 2) % 2
  }

  lemma {:induction false} XorBitsInvolution(a: nat, b: nat, width: nat)
    ensures XorBits(XorBits(a, b, width), b, width) == XorBits(a, 0, width)
  {
    if width > 0 {
      var x, high, low := XorBits(a, b, width), XorBits(a / 2, b / 2, width - 1), (a % 2 + b % 2) % 2;
      assert x / 2 == high && x % 2 == low;
      XorBitsInvolution(a / 2, b / 2, width - 1);
      assert (low + b % 2) % 2 == a % 2;
    }
  }

  function PowerOf2(width: nat): nat {
    if width == 0 then 1 else 2 * PowerOf2(width - 1)
  }

  lemma {:induction false} XorBitsBound(a: nat, b: nat, width: nat)
    ensures XorBits(a, b, width) < PowerOf2(width)
  {
    if width > 0 {
      XorBitsBound(a / 2, b / 2, width - 1);
    }
  }

  lemma {:induction false} XorBitsZero(a: nat, width: nat)
    requires a < PowerOf2(width)
    ensures XorBits(a, 0, width) == a
  {
    if width > 0 {
      XorBitsZero(a / 2, width - 1);
    }
  }

  function Xor(a: Byte, b: Byte): Byte {
    XorBitsBound(a, b, 8);
    assert PowerOf2(8) == 256 by { assert PowerOf2(4) == 16; }
    XorBits(a, b, 8)
  }

  lemma XorInvolution(a: Byte, b: Byte)
    ensures Xor(Xor(a, b), b) == a
  {
    assert PowerOf2(8) == 256 by { assert PowerOf2(4) == 16; }
    XorBitsInvolution(a, b, 8);
    XorBitsZero(a, 8);
  }

  /** Bit `k` of a number, the lowest being bit 0. */
  function Bit(a: nat, k: nat): nat {
    if k == 0 then a % 2 else Bit(a / 2, k - 1)
  }

  lemma {:induction false} XorBitsBit(a: nat, b: nat, width: nat, k: nat)
    requires k < width
    ensures Bit(XorBits(a, b, width), k) == (Bit(a, k) + Bit(b, k)) % 2
  {
    var x, high, low := XorBits(a, b, width), XorBits(a / 2, b / 2, width - 1), (a % 2 + b % 2) % 2;
    assert x / 2 == high && x % 2 == low;
    if k > 0 {
      XorBitsBit(a / 2, b / 2, width - 1, k - 1);
    }
  }

  /** The value of a big-endian byte sequence. */
  function ReadUInt(bytes: seq<Byte>): nat {
    if bytes == [] then 0
    else 256 * ReadUInt(bytes[..|bytes| - 1]) + bytes[|bytes| - 1]
  }

  function WriteUInt(n: nat, width: nat): (bytes: seq<Byte>)
    ensures |bytes| == width
  {
    if width == 0 then [] else WriteUInt(n / 256, width - 1) + [n % 256]
  }

  function Power256(width: nat): (p: nat)
    ensures p > 0
  {
    if width == 0 then 1 else 256 * Power256(width - 1)
  }

  lemma {:induction false} ReadsWhatWasWritten(n: nat, width: nat)
    requires n < Power256(width)
    ensures ReadUInt(WriteUInt(n, width)) == n
  {
    if width > 0 {
      ReadsWhatWasWritten(n / 256, width - 1);
      var bytes := WriteUInt(n, width);
      assert bytes[..|bytes| - 1] == WriteUInt(n / 256, width - 1);
    }
  }

  lemma {:induction false} ReadUIntBound(bytes: seq<Byte>)
    ensures ReadUInt(bytes) < Power256(|bytes|)
  {
    if bytes != [] {
      ReadUIntBound(bytes[..|bytes| - 1]);
    }
  }

  /** The spacing of JavaScript numbers near `n`. */
  function Spacing(n: nat): (u: nat)
    ensures u > 0
  {
    if n < BUFFER_LIMIT then 1 else 2 * Spacing(n / 2)
  }

  /** The multiple of `u` nearest to `n`, as a factor; ties go to the even one. */
  function NearestFactor(n: nat, u: nat): nat
    requires u > 0
  {
    var q, r := n / u, n % u;
    if 2 * r < u || (2 * r == u && q % 2 == 0) then q else q + 1
  }

  /** `Number(n)` for a big integer: the nearest double. */
  function JsNumber(n: nat): nat {
    NearestFactor(n, Spacing(n)) * Spacing(n)
  }

  /** Doubles have 53 significant bits: between 2^52 and 2^53 times a power of two, that is their spacing. */
  lemma {:induction false} SpacingMeans(n: nat) returns (k: nat)
    ensures Spacing(n) == PowerOf2(k)
    ensures n < 9007199254740992 ==> k == 0
    ensures n >= 9007199254740992 ==> 4503599627370496 * PowerOf2(k) <= n < 9007199254740992 * PowerOf2(k)
  {
    if n < BUFFER_LIMIT {
      k := 0;
    } else {
      var j := SpacingMeans(n / 2);
      k := j + 1;
      assert PowerOf2(k) == 2 * PowerOf2(j);
    }
  }

  lemma FactorIsNearest(n: nat, u: nat)
    requires u > 0
    ensures var q := NearestFactor(n, u);
      && 2 * n - u <= 2 * (q * u) <= 2 * n + u
      && (q % 2 == 1 ==> 2 * n - u < 2 * (q * u) < 2 * n + u)
  {
    var below, r := n / u, n % u;
    assert n == below * u + r && (below + 1) * u == below * u + u;
  }

  /** The result is a multiple of the spacing, no other is nearer, and of two that are as near it is the even one. */
  lemma JsNumberMeans(n: nat) returns (k: nat, q: nat)
    ensures n < 9007199254740992 ==> k == 0
    ensures n >= 9007199254740992 ==> 4503599627370496 * PowerOf2(k) <= n < 9007199254740992 * PowerOf2(k)
    ensures JsNumber(n) == q * PowerOf2(k)
    ensures 2 * n - PowerOf2(k) <= 2 * JsNumber(n) <= 2 * n + PowerOf2(k)
    ensures q % 2 == 1 ==> 2 * n - PowerOf2(k) < 2 * JsNumber(n) < 2 * n + PowerOf2(k)
  {
    k := SpacingMeans(n);
    q := NearestFactor(n, Spacing(n));
    FactorIsNearest(n, Spacing(n));
  }

  lemma JsNumberExact(n: nat)
    requires n < BUFFER_LIMIT
    ensures JsNumber(n) == n
  {
  }

  lemma {:induction false} SpacingDivides(n: nat)
    ensures n >= BUFFER_LIMIT ==> (n / Spacing(n)) * Spacing(n) >= BUFFER_LIMIT
    ensures n >= BUFFER_LIMIT ==> n / Spacing(n) >= BUFFER_LIMIT / 2
  {
    if n >= 2 * BUFFER_LIMIT {
      SpacingDivides(n / 2);
      HalfThenDivide(n, Spacing(n / 2));
    }
  }

  lemma HalfThenDivide(n: nat, u: nat)
    requires u > 0
    ensures n / (2 * u) == (n / 2) / u
    ensures (n / (2 * u)) * (2 * u) >= ((n / 2) / u) * u
  {
    var q, r := (n / 2) / u, (n / 2) % u;
    assert n / 2 == q * u + r;
    assert n == q * (2 * u) + (2 * r + n % 2);
    DivideUnique(n, 2 * u, q, 2 * r + n % 2);
  }

  lemma MultipleGrows(k: int, d: int)
    requires d > 0
    ensures k >= 1 ==> k * d >= d
    ensures k <= -1 ==> k * d <= -d
  {
  }

  lemma DivideUnique(n: nat, d: nat, q: nat, r: nat)
    requires n == q * d + r && r < d
    ensures n / d == q
  {
    var k := n / d - q;
    assert k * d == (n / d) * d - q * d;
    MultipleGrows(k, d);
  }

  /** A length that is not exact as a number still exceeds every buffer. */
  lemma JsNumberLarge(n: nat)
    requires n >= BUFFER_LIMIT
    ensures JsNumber(n) >= BUFFER_LIMIT
  {
    SpacingDivides(n);
    var u := Spacing(n);
    assert (n / u + 1) * u == (n / u) * u + u;
  }

  // ----- Masking -----

  /** Section 5.3: byte `i` is combined with byte `i % 4` of the key. */
  function Unmasked(payload: seq<Byte>, key: seq<Byte>): (data: seq<Byte>)
    requires |key| == 4
    ensures |data| == |payload|
  {
    seq(|payload|, i requires 0 <= i < |payload| => Xor(payload[i], key[i % 4]))
  }

  /** Section 5.3, bit by bit: each bit is the sum modulo 2 of that of byte `i` and that of key byte `i` modulo 4. */
  lemma UnmaskedBits(payload: seq<Byte>, key: seq<Byte>, i: nat, k: nat)
    requires |key| == 4 && i < |payload| && k < 8
    ensures Bit(Unmasked(payload, key)[i], k) == (Bit(payload[i], k) + Bit(key[i % 4], k)) % 2
  {
    XorBitsBit(payload[i], key[i % 4], 8, k);
  }

  /** The same function masks and unmasks. */
  lemma UnmaskInvolution(data: seq<Byte>, key: seq<Byte>)
    requires |key| == 4
    ensures Unmasked(Unmasked(data, key), key) == data
  {
    forall i | 0 <= i < |data| ensures Unmasked(Unmasked(data, key), key)[i] == data[i] {
      XorInvolution(data[i], key[i % 4]);
    }
  }

  // ----- Parsing -----

  function LengthBytes(second: Byte): nat {
    if second % 128 == 126 then 2 else if second % 128 == 127 then 8 else 0
  }

  predicate IsMasked(second: Byte) {
    second >= 128
  }

  function MaskEnd(second: Byte): nat {
    2 + LengthBytes(second) + if IsMasked(second) then 4 else 0
  }

  /** The payload length that a header announces. */
  function PayloadLength(buffer: seq<Byte>): nat
    requires |buffer| >= 2 && |buffer| >= 2 + LengthBytes(buffer[1])
  {
    match LengthBytes(buffer[1])
    case 2 => ReadUInt(buffer[2..4])
    case 8 => JsNumber(ReadUInt(buffer[2..10]))
    case _ => buffer[1] % 128
  }

  /** The payload between two offsets, unmasked with the key in front of it if there is one. */
  function Payload(buffer: seq<Byte>, maskEnd: nat, frameEnd: nat): (data: seq<Byte>)
    requires 2 <= maskEnd <= frameEnd <= |buffer| && (IsMasked(buffer[1]) ==> maskEnd >= 4)
    ensures |data| == frameEnd - maskEnd
  {
    var payload := buffer[maskEnd..frameEnd];
    if IsMasked(buffer[1]) then Unmasked(payload, buffer[maskEnd - 4..maskEnd]) else payload
  }

  function ParseFrame(buffer: seq<Byte>): (p: Parsed)
    ensures p.Complete? ==> 2 <= p.consumed <= |buffer| && |p.frame.data| <= p.consumed - 2
  {
    if |buffer| < 2 || |buffer| < 2 + LengthBytes(buffer[1]) || |buffer| < MaskEnd(buffer[1]) then Incomplete
    else
      var maskEnd := MaskEnd(buffer[1]);
      var frameEnd := maskEnd + PayloadLength(buffer);
      if |buffer| < frameEnd then Incomplete
      else
        Complete(Frame(buffer[0] % 16, Payload(buffer, maskEnd, frameEnd)), frameEnd)
  }

  lemma SliceOfConcat<T>(a: seq<T>, b: seq<T>, i: nat, j: nat)
    requires i <= j <= |a|
    ensures (a + b)[i..j] == a[i..j]
  {
  }

  lemma HeaderIgnoresRest(buffer: seq<Byte>, rest: seq<Byte>)
    requires |buffer| >= 2 && |buffer| >= 2 + LengthBytes(buffer[1])
    ensures (buffer + rest)[0] == buffer[0] && (buffer + rest)[1] == buffer[1]
    ensures PayloadLength(buffer + rest) == PayloadLength(buffer)
  {
    SliceOfConcat(buffer, rest, 2, 2 + LengthBytes(buffer[1]));
  }

  /** A frame that is complete stays the same whatever follows it. */
  lemma ParseIgnoresRest(buffer: seq<Byte>, rest: seq<Byte>)
    requires ParseFrame(buffer).Complete?
    ensures ParseFrame(buffer + rest) == ParseFrame(buffer)
  {
    var maskEnd := MaskEnd(buffer[1]);
    HeaderIgnoresRest(buffer, rest);
    PayloadIgnoresRest(buffer, rest, maskEnd, maskEnd + PayloadLength(buffer));
  }

  lemma PayloadIgnoresRest(buffer: seq<Byte>, rest: seq<Byte>, maskEnd: nat, frameEnd: nat)
    requires 2 <= maskEnd <= frameEnd <= |buffer| && (IsMasked(buffer[1]) ==> maskEnd >= 4)
    ensures Payload(buffer + rest, maskEnd, frameEnd) == Payload(buffer, maskEnd, frameEnd)
  {
    SliceOfConcat(buffer, rest, maskEnd, frameEnd);
    if IsMasked(buffer[1]) {
      SliceOfConcat(buffer, rest, maskEnd - 4, maskEnd);
    }
  }

  /** All complete frames at the front of a buffer. */
  function Frames(buffer: seq<Byte>): seq<Frame>
    decreases |buffer|
  {
    match ParseFrame(buffer)
    case Incomplete => []
    case Complete(frame, n) => [frame] + Frames(buffer[n..])
  }

  /** The bytes of those frames, frame by frame. */
  function RawFrames(buffer: seq<Byte>): seq<seq<Byte>>
    decreases |buffer|
  {
    match ParseFrame(buffer)
    case Incomplete => []
    case Complete(_, n) => [buffer[..n]] + RawFrames(buffer[n..])
  }

  /** What is left of the buffer behind them. */
  function Leftover(buffer: seq<Byte>): seq<Byte>
    decreases |buffer|
  {
    match ParseFrame(buffer)
    case Incomplete => buffer
    case Complete(_, n) => Leftover(buffer[n..])
  }

  /** Handled bytes and leftover are the bytes received, and nothing complete is left over. */
  lemma {:induction false} BytesAccountedFor(buffer: seq<Byte>)
    ensures Flatten(RawFrames(buffer)) + Leftover(buffer) == buffer
    ensures ParseFrame(Leftover(buffer)).Incomplete?
    ensures |RawFrames(buffer)| == |Frames(buffer)|
    decreases |buffer|
  {
    match ParseFrame(buffer)
    case Incomplete =>
    case Complete(frame, n) =>
      BytesAccountedFor(buffer[n..]);
      TakeFrame(buffer, frame, n);
      Reassemble(buffer, n, RawFrames(buffer[n..]), Leftover(buffer[n..]));
  }

  lemma TakeFrame(buffer: seq<Byte>, frame: Frame, n: nat)
    requires ParseFrame(buffer) == Complete(frame, n)
    ensures n <= |buffer|
    ensures Frames(buffer) == [frame] + Frames(buffer[n..]) && Leftover(buffer) == Leftover(buffer[n..])
    ensures RawFrames(buffer) == [buffer[..n]] + RawFrames(buffer[n..])
  {
  }

  /** The first frame can be taken before the rest of the bytes has arrived. */
  lemma TakeFrameEarly(first: seq<Byte>, second: seq<Byte>, frame: Frame, n: nat)
    requires ParseFrame(first) == Complete(frame, n)
    ensures n <= |first|
    ensures Frames(first) == [frame] + Frames(first[n..])
    ensures Leftover(first) == Leftover(first[n..])
    ensures Frames(first + second) == [frame] + Frames(first[n..] + second)
    ensures Leftover(first + second) == Leftover(first[n..] + second)
  {
    TakeFrame(first, frame, n);
    ParseIgnoresRest(first, second);
    TakeFrame(first + second, frame, n);
    assert (first + second)[n..] == first[n..] + second;
  }

  /** Parsing in two instalments handles the same frames and leaves the same bytes as parsing at once. */
  lemma {:induction false} ParseInInstalments(first: seq<Byte>, second: seq<Byte>)
    ensures Frames(first + second) == Frames(first) + Frames(Leftover(first) + second)
    ensures Leftover(first + second) == Leftover(Leftover(first) + second)
    decreases |first|
  {
    match ParseFrame(first)
    case Incomplete =>
    case Complete(frame, n) =>
      ParseInInstalments(first[n..], second);
      TakeFrameEarly(first, second, frame, n);
      Associate([frame], Frames(first[n..]), Frames(Leftover(first[n..]) + second));
  }

  // ----- Printing -----

  function LengthHeader(n: nat): (header: seq<Byte>)
    ensures |header| == if n < 126 then 1 else if n < 65536 then 3 else 9
  {
    if n < 126 then [n]
    else if n < 65536 then [126] + WriteUInt(n, 2)
    else [127] + WriteUInt(n, 8)
  }

  /** An unmasked, final frame. */
  function EncodeFrame(opcode: nat, data: seq<Byte>): seq<Byte> {
    [128 + opcode % 16] + LengthHeader(|data|) + data
  }

  /** The frame a client sends: masked with its key. */
  function EncodeMasked(opcode: nat, key: seq<Byte>, data: seq<Byte>): seq<Byte>
    requires |key| == 4
  {
    var header := LengthHeader(|data|);
    [128 + opcode % 16, header[0] + 128] + header[1..] + key + Unmasked(data, key)
  }

  lemma Power256Values()
    ensures Power256(2) == 65536 && Power256(8) >= BUFFER_LIMIT
  {
  }

  /** A buffer that starts with a length header announces the length it was made from. */
  lemma HeaderAnnouncesLength(buffer: seq<Byte>, n: nat, mask: int)
    requires n < BUFFER_LIMIT && (mask == 0 || mask == 128)
    requires var header := LengthHeader(n);
      |buffer| > |header| && buffer[1] == header[0] + mask && buffer[2..1 + |header|] == header[1..]
    ensures LengthBytes(buffer[1]) == |LengthHeader(n)| - 1
    ensures IsMasked(buffer[1]) <==> mask == 128
    ensures PayloadLength(buffer) == n
  {
    Power256Values();
    if 126 <= n < 65536 {
      ReadsWhatWasWritten(n, 2);
      assert LengthHeader(n)[1..] == WriteUInt(n, 2);
    } else if n >= 65536 {
      ReadsWhatWasWritten(n, 8);
      assert LengthHeader(n)[1..] == WriteUInt(n, 8);
      JsNumberExact(n);
    }
  }

  /** Reading back a printed frame yields its opcode and payload, for every length. */
  lemma RoundTrip(opcode: nat, data: seq<Byte>, rest: seq<Byte>)
    requires |data| < BUFFER_LIMIT
    ensures ParseFrame(EncodeFrame(opcode, data) + rest)
         == Complete(Frame(opcode % 16, data), |EncodeFrame(opcode, data)|)
  {
    var frame := EncodeFrame(opcode, data);
    var header := LengthHeader(|data|);
    assert frame[2..1 + |header|] == header[1..];
    HeaderAnnouncesLength(frame, |data|, 0);
    assert frame[1 + |header|..] == data;
    ParseIgnoresRest(frame, rest);
  }

  lemma MaskedRoundTrip(opcode: nat, key: seq<Byte>, data: seq<Byte>, rest: seq<Byte>)
    requires |key| == 4 && |data| < BUFFER_LIMIT
    ensures ParseFrame(EncodeMasked(opcode, key, data) + rest)
         == Complete(Frame(opcode % 16, data), |EncodeMasked(opcode, key, data)|)
  {
    var frame := EncodeMasked(opcode, key, data);
    var header := LengthHeader(|data|);
    assert frame[2..1 + |header|] == header[1..];
    HeaderAnnouncesLength(frame, |data|, 128);
    assert frame[1 + |header|..5 + |header|] == key;
    assert frame[5 + |header|..] == Unmasked(data, key);
    UnmaskInvolution(data, key);
    ParseIgnoresRest(frame, rest);
  }

  // ----- Frames byte by byte -----

  lemma DivideTwice(n: nat, d: nat)
    requires d > 0
    ensures n / 256 / d == n / (256 * d)
  {
    var q, r := n / 256 / d, n / 256 % d;
    assert n / 256 == q * d + r;
    assert n == q * (256 * d) + (256 * r + n % 256);
    DivideUnique(n, 256 * d, q, 256 * r + n % 256);
  }

  /** Byte `i` of `width` bytes, the most significant first. */
  lemma {:induction false} BigEndianByte(n: nat, width: nat, i: nat)
    requires i < width
    ensures WriteUInt(n, width)[i] == n / Power256(width - 1 - i) % 256
  {
    if i < width - 1 {
      BigEndianByte(n / 256, width - 1, i);
      DivideTwice(n, Power256(width - 2 - i));
    }
  }

  /** The first byte counts most. */
  lemma {:induction false} BigEndianValue(first: Byte, rest: seq<Byte>)
    ensures ReadUInt([first] + rest) == first * Power256(|rest|) + ReadUInt(rest)
  {
    var bytes := [first] + rest;
    if rest != [] {
      var n := |rest| - 1;
      assert bytes[..|bytes| - 1] == [first] + rest[..n];
      BigEndianValue(first, rest[..n]);
    }
  }

  lemma PowersOf256()
    ensures Power256(0) == 1 && Power256(1) == 0x100 && Power256(2) == 0x1_0000 && Power256(3) == 0x100_0000
    ensures Power256(4) == 0x1_0000_0000 && Power256(5) == 0x100_0000_0000
    ensures Power256(6) == 0x1_0000_0000_0000 && Power256(7) == 0x100_0000_0000_0000
  {
    assert Power256(3) == 256 * Power256(2) && Power256(5) == 256 * Power256(4) && Power256(7) == 256 * Power256(6);
  }

  function EightBytes(n: nat): seq<Byte> {
    [n / 0x100_0000_0000_0000 % 256, n / 0x1_0000_0000_0000 % 256, n / 0x100_0000_0000 % 256,
     n / 0x1_0000_0000 % 256, n / 0x100_0000 % 256, n / 0x1_0000 % 256, n / 0x100 % 256, n % 256]
  }

  lemma EightBytesWritten(n: nat)
    ensures WriteUInt(n, 8) == EightBytes(n)
  {
    PowersOf256();
    forall i | 0 <= i < 8 ensures WriteUInt(n, 8)[i] == EightBytes(n)[i] {
      BigEndianByte(n, 8, i);
    }
  }

  /** What `sendFrame` writes: the final bit and the opcode, the length in one of three forms, the payload. */
  lemma WrittenBytes(opcode: nat, data: seq<Byte>)
    ensures |data| <= 125 ==> EncodeFrame(opcode, data) == [0x80 + opcode % 16, |data|] + data
    ensures 126 <= |data| <= 65535 ==>
      EncodeFrame(opcode, data) == [0x80 + opcode % 16, 126, |data| / 256 % 256, |data| % 256] + data
    ensures 65536 <= |data| ==> EncodeFrame(opcode, data) == [0x80 + opcode % 16, 127] + EightBytes(|data|) + data
  {
    var n := |data|;
    if 126 <= n <= 65535 {
      assert WriteUInt(n, 2) == [n / 256 % 256, n % 256];
    } else if n >= 65536 {
      EightBytesWritten(n);
    }
  }

  /** The three forms of a length; a client may use a longer one than it needs. */
  datatype LengthForm = SevenBits | TwoBytes | EightBytesLong

  predicate Fits(form: LengthForm, n: nat) {
    match form
    case SevenBits => n <= 125
    case TwoBytes => n <= 65535
    case EightBytesLong => n < BUFFER_LIMIT
  }

  function FormHeader(form: LengthForm, n: nat): (header: seq<Byte>)
    requires Fits(form, n)
    ensures |header| >= 1 && header[0] < 128
  {
    match form
    case SevenBits => [n]
    case TwoBytes => [126] + WriteUInt(n, 2)
    case EightBytesLong => [127] + WriteUInt(n, 8)
  }

  predicate ValidKey(key: seq<Byte>) {
    |key| == 0 || |key| == 4
  }

  /** Any frame of section 5.2: any first byte, any form of the length, a key or none. */
  function AnyFrame(first: Byte, form: LengthForm, key: seq<Byte>, data: seq<Byte>): seq<Byte>
    requires Fits(form, |data|) && ValidKey(key)
  {
    var header := FormHeader(form, |data|);
    Assemble(first, header[0] + if key == [] then 0 else 128, header[1..], key,
             if key == [] then data else Unmasked(data, key))
  }

  function Assemble(first: Byte, second: Byte, length: seq<Byte>, key: seq<Byte>, payload: seq<Byte>): seq<Byte> {
    [first, second] + length + key + payload
  }

  lemma AssembledParts(first: Byte, second: Byte, length: seq<Byte>, key: seq<Byte>, payload: seq<Byte>)
    ensures var frame, i, j := Assemble(first, second, length, key, payload), 2 + |length|, 2 + |length| + |key|;
      && |frame| == j + |payload| && frame[0] == first && frame[1] == second
      && frame[2..i] == length && frame[i..j] == key && frame[j..j + |payload|] == payload
  {
    SliceParts([first, second], length, key, payload);
  }

  /** What the second byte and the bytes behind it say about the length. */
  predicate Announces(buffer: seq<Byte>, size: nat, masked: bool, n: nat)
    requires |buffer| >= 2 && |buffer| >= 2 + LengthBytes(buffer[1])
  {
    LengthBytes(buffer[1]) == size && IsMasked(buffer[1]) == masked && PayloadLength(buffer) == n
  }

  lemma TwoBytesAnnounce(buffer: seq<Byte>, n: nat, masked: bool)
    requires n <= 65535 && |buffer| >= 4 && buffer[2..4] == WriteUInt(n, 2)
    requires buffer[1] == 126 + if masked then 128 else 0
    ensures Announces(buffer, 2, masked, n)
  {
    Power256Values();
    ReadsWhatWasWritten(n, 2);
  }

  lemma EightBytesAnnounce(buffer: seq<Byte>, n: nat, masked: bool)
    requires n < BUFFER_LIMIT && |buffer| >= 10 && buffer[2..10] == WriteUInt(n, 8)
    requires buffer[1] == 127 + if masked then 128 else 0
    ensures Announces(buffer, 8, masked, n)
  {
    Power256Values();
    ReadsWhatWasWritten(n, 8);
    JsNumberExact(n);
  }

  lemma FormAnnouncesLength(buffer: seq<Byte>, form: LengthForm, n: nat, masked: bool)
    requires Fits(form, n)
    requires var header := FormHeader(form, n);
      && |buffer| > |header| && buffer[1] == header[0] + (if masked then 128 else 0)
      && buffer[2..1 + |header|] == header[1..]
    ensures LengthBytes(buffer[1]) == |FormHeader(form, n)| - 1
    ensures Announces(buffer, |FormHeader(form, n)| - 1, masked, n)
  {
    match form {
      case SevenBits =>
      case TwoBytes =>
        assert FormHeader(form, n)[1..] == WriteUInt(n, 2);
        TwoBytesAnnounce(buffer, n, masked);
      case EightBytesLong =>
        assert FormHeader(form, n)[1..] == WriteUInt(n, 8);
        EightBytesAnnounce(buffer, n, masked);
    }
  }

  lemma SlicesWithHeader(first: Byte, header: seq<Byte>, key: seq<Byte>, payload: seq<Byte>)
    requires |header| >= 1 && header[0] < 128
    ensures var frame := Assemble(first, header[0] + if key == [] then 0 else 128, header[1..], key, payload);
      var maskEnd := 1 + |header| + |key|;
      && |frame| == maskEnd + |payload| && frame[0] == first
      && frame[1] == header[0] + (if key == [] then 0 else 128)
      && frame[2..1 + |header|] == header[1..]
      && frame[maskEnd - |key|..maskEnd] == key
      && frame[maskEnd..maskEnd + |payload|] == payload
  {
    AssembledParts(first, header[0] + if key == [] then 0 else 128, header[1..], key, payload);
  }

  lemma FrameSlices(first: Byte, form: LengthForm, key: seq<Byte>, data: seq<Byte>)
    requires Fits(form, |data|) && ValidKey(key)
    ensures var frame, header := AnyFrame(first, form, key, data), FormHeader(form, |data|);
      var maskEnd := 1 + |header| + |key|;
      && |frame| == maskEnd + |data| && frame[0] == first
      && frame[1] == header[0] + (if key == [] then 0 else 128)
      && |header| >= 1 && frame[2..1 + |header|] == header[1..]
      && frame[maskEnd - |key|..maskEnd] == key
      && frame[maskEnd..maskEnd + |data|] == if key == [] then data else Unmasked(data, key)
  {
    SlicesWithHeader(first, FormHeader(form, |data|), key, if key == [] then data else Unmasked(data, key));
  }

  lemma SliceParts<T>(a: seq<T>, b: seq<T>, c: seq<T>, d: seq<T>)
    ensures var all, i, j := a + b + c + d, |a| + |b|, |a| + |b| + |c|;
      all[..|a|] == a && all[|a|..i] == b && all[i..j] == c && all[j..j + |d|] == d && |all| == j + |d|
  {
  }

  lemma AnyFrameParses(first: Byte, form: LengthForm, key: seq<Byte>, data: seq<Byte>)
    requires Fits(form, |data|) && ValidKey(key)
    ensures var frame := AnyFrame(first, form, key, data);
      ParseFrame(frame) == Complete(Frame(first % 16, data), |frame|)
  {
    var frame := AnyFrame(first, form, key, data);
    FrameSlices(first, form, key, data);
    FormAnnouncesLength(frame, form, |data|, key != []);
    AloneParses(frame, data, key);
  }

  /** Every frame parses: the first byte counts modulo 16, the payload comes out unmasked. */
  lemma EveryFrameParses(first: Byte, form: LengthForm, key: seq<Byte>, data: seq<Byte>, rest: seq<Byte>)
    requires Fits(form, |data|) && ValidKey(key)
    ensures ParseFrame(AnyFrame(first, form, key, data) + rest)
         == Complete(Frame(first % 16, data), |AnyFrame(first, form, key, data)|)
  {
    AnyFrameParses(first, form, key, data);
    ParseIgnoresRest(AnyFrame(first, form, key, data), rest);
  }

  lemma AloneParses(frame: seq<Byte>, data: seq<Byte>, key: seq<Byte>)
    requires |frame| >= 2 && ValidKey(key) && (key != [] <==> IsMasked(frame[1]))
    requires |frame| == MaskEnd(frame[1]) + |data| && PayloadLength(frame) == |data|
    requires key == [] || frame[MaskEnd(frame[1]) - 4..MaskEnd(frame[1])] == key
    requires frame[MaskEnd(frame[1])..|frame|] == if key == [] then data else Unmasked(data, key)
    ensures ParseFrame(frame) == Complete(Frame(frame[0] % 16, data), |frame|)
  {
    if key != [] {
      UnmaskInvolution(data, key);
    }
  }

  lemma {:induction false} WritesWhatWasRead(bytes: seq<Byte>)
    ensures WriteUInt(ReadUInt(bytes), |bytes|) == bytes
  {
    if bytes != [] {
      var n := |bytes| - 1;
      WritesWhatWasRead(bytes[..n]);
      assert ReadUInt(bytes) / 256 == ReadUInt(bytes[..n]) && ReadUInt(bytes) % 256 == bytes[n];
    }
  }

  /** The parts that the parser cuts a complete frame into. */
  lemma ParsedParts(buffer: seq<Byte>)
    requires ParseFrame(buffer).Complete?
    ensures var p, maskEnd := ParseFrame(buffer), MaskEnd(buffer[1]);
      && p.consumed == maskEnd + PayloadLength(buffer) && p.frame.opcode == buffer[0] % 16
      && p.frame.data == Payload(buffer, maskEnd, p.consumed)
  {
  }

  lemma PayloadIsMasked(buffer: seq<Byte>, maskEnd: nat, frameEnd: nat, key: seq<Byte>)
    requires 2 <= maskEnd <= frameEnd <= |buffer| && (IsMasked(buffer[1]) ==> maskEnd >= 4)
    requires key == if IsMasked(buffer[1]) then buffer[maskEnd - 4..maskEnd] else []
    ensures var data := Payload(buffer, maskEnd, frameEnd);
      buffer[maskEnd..frameEnd] == if key == [] then data else Unmasked(data, key)
  {
    if key != [] {
      UnmaskInvolution(buffer[maskEnd..frameEnd], key);
    }
  }

  lemma PartsOfPrefix(buffer: seq<Byte>, a: nat, b: nat, c: nat)
    requires 2 <= a <= b <= c <= |buffer|
    ensures buffer[..c] == [buffer[0], buffer[1]] + buffer[2..a] + buffer[a..b] + buffer[b..c]
  {
  }

  /** No other bytes parse: what was consumed is the frame that the parser says it is. */
  lemma EveryParseIsAFrame(buffer: seq<Byte>) returns (form: LengthForm, key: seq<Byte>)
    requires ParseFrame(buffer).Complete? && |buffer| < BUFFER_LIMIT
    ensures var p := ParseFrame(buffer);
      && Fits(form, |p.frame.data|) && ValidKey(key) && p.frame.opcode == buffer[0] % 16
      && buffer[..p.consumed] == AnyFrame(buffer[0], form, key, p.frame.data)
  {
    var p, size, maskEnd := ParseFrame(buffer), LengthBytes(buffer[1]), MaskEnd(buffer[1]);
    form := if size == 2 then TwoBytes else if size == 8 then EightBytesLong else SevenBits;
    key := buffer[2 + size..maskEnd];
    ParsedParts(buffer);
    LengthIsWritten(buffer, form);
    PayloadIsMasked(buffer, maskEnd, p.consumed, key);
    PartsOfPrefix(buffer, 2 + size, maskEnd, p.consumed);
    FrameFromParts(buffer[0], buffer[1], buffer[2..2 + size], form, key, p.frame.data);
  }

  lemma AssembledFrom(first: Byte, second: Byte, header: seq<Byte>, length: seq<Byte>, key: seq<Byte>,
                      payload: seq<Byte>)
    requires header == [second % 128] + length && (IsMasked(second) <==> key != [])
    ensures header[0] < 128
    ensures Assemble(first, header[0] + if key == [] then 0 else 128, header[1..], key, payload)
         == [first, second] + length + key + payload
  {
    HeadAndTail(second % 128, length);
    assert second == second % 128 + if key == [] then 0 else 128;
  }

  lemma FrameFromParts(first: Byte, second: Byte, length: seq<Byte>, form: LengthForm, key: seq<Byte>, data: seq<Byte>)
    requires Fits(form, |data|) && ValidKey(key) && (IsMasked(second) <==> key != [])
    requires FormHeader(form, |data|) == [second % 128] + length
    ensures AnyFrame(first, form, key, data)
         == [first, second] + length + key + if key == [] then data else Unmasked(data, key)
  {
    var payload := if key == [] then data else Unmasked(data, key);
    AssembledFrom(first, second, [second % 128] + length, length, key, payload);
  }

  lemma HeadAndTail<T>(head: T, tail: seq<T>)
    ensures ([head] + tail)[0] == head && ([head] + tail)[1..] == tail
  {
  }

  lemma LengthIsWritten(buffer: seq<Byte>, form: LengthForm)
    requires ParseFrame(buffer).Complete? && |buffer| < BUFFER_LIMIT
    requires var size := LengthBytes(buffer[1]);
      form == if size == 2 then TwoBytes else if size == 8 then EightBytesLong else SevenBits
    ensures var size, n := LengthBytes(buffer[1]), PayloadLength(buffer);
      && Fits(form, n) && n == |ParseFrame(buffer).frame.data|
      && FormHeader(form, n) == [buffer[1] % 128] + buffer[2..2 + size]
  {
    Power256Values();
    match form {
      case SevenBits =>
        assert buffer[2..2] == [];
      case TwoBytes =>
        ReadUIntBound(buffer[2..4]);
        WritesWhatWasRead(buffer[2..4]);
      case EightBytesLong =>
        RoundingIsHarmless(ReadUInt(buffer[2..10]), MaskEnd(buffer[1]), |buffer|);
        WritesWhatWasRead(buffer[2..10]);
    }
  }

  /** No frame with the same payload, however it was printed, is shorter than the server's. */
  lemma EncodingIsShortest(buffer: seq<Byte>)
    requires ParseFrame(buffer).Complete?
    ensures var p := ParseFrame(buffer); |EncodeFrame(p.frame.opcode, p.frame.data)| <= p.consumed
  {
    if LengthBytes(buffer[1]) == 2 {
      ReadUIntBound(buffer[2..4]);
      Power256Values();
    }
  }

  /** Rounding a 64-bit length to a number never changes whether a buffer holds its frame. */
  lemma RoundingIsHarmless(length: nat, headerEnd: nat, size: nat)
    requires size < BUFFER_LIMIT
    ensures headerEnd + JsNumber(length) <= size <==> headerEnd + length <= size
    ensures headerEnd + length <= size ==> JsNumber(length) == length
  {
    if length < BUFFER_LIMIT {
      JsNumberExact(length);
    } else {
      JsNumberLarge(length);
    }
  }
}
