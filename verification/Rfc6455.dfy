/** The base framing protocol of sections 5.2 and 5.3 of RFC 6455, written from
    the standard: an encoder of abstract frames, a decoder of byte strings, and
    the proof that the two are inverse.  Nothing here follows the gateway's code;
    it is the yardstick the code is measured against. */
module Rfc6455 {
  import opened Prelude
  import opened Bytes

  const TEXT: byte := 0x1
  const CLOSE: byte := 0x8
  const PING: byte := 0x9
  const PONG: byte := 0xA

  datatype LenForm = Len7 | Len16 | Len64

  /** `rsv` keeps the three reserved bits in place; `payload` is the unmasked payload. */
  datatype Frame = Frame(fin: bool, rsv: byte, opcode: byte, mask: Option<seq<byte>>,
                         form: LenForm, payload: seq<byte>)

  predicate Fits(form: LenForm, n: nat) {
    match form
    case Len7 => n <= 125
    case Len16 => n < 0x1_0000
    case Len64 => n < 0x8000_0000_0000_0000
  }

  /** The minimal number of bytes must be used to encode the length. */
  function Shortest(n: nat): LenForm {
    if Fits(Len7, n) then Len7 else if Fits(Len16, n) then Len16 else Len64
  }

  predicate ValidFrame(f: Frame) {
    && f.rsv & 0x70 == f.rsv
    && f.opcode & 0x0F == f.opcode
    && (f.mask.Some? ==> |f.mask.value| == 4)
    && Fits(f.form, |f.payload|)
  }

  function FirstByte(f: Frame): byte {
    (if f.fin then 0x80 else 0) | f.rsv | f.opcode
  }

  function LenCode(form: LenForm, n: nat): byte
    requires Fits(form, n)
  {
    match form
    case Len7 => n as byte
    case Len16 => 126
    case Len64 => 127
  }

  function ExtBytes(form: LenForm): nat {
    match form
    case Len7 => 0
    case Len16 => 2
    case Len64 => 8
  }

  function SecondByte(f: Frame): byte
    requires ValidFrame(f)
  {
    (if f.mask.Some? then 0x80 else 0) | LenCode(f.form, |f.payload|)
  }

  function KeyBytes(f: Frame): seq<byte> {
    if f.mask.Some? then f.mask.value else []
  }

  function Body(f: Frame): seq<byte>
    requires ValidFrame(f)
  {
    if f.mask.Some? then Mask(f.mask.value, f.payload) else f.payload
  }

  function Encode(f: Frame): (b: seq<byte>)
    requires ValidFrame(f)
    ensures |b| == 2 + ExtBytes(f.form) + |KeyBytes(f)| + |f.payload|
  {
    [FirstByte(f), SecondByte(f)] + BigEndian(|f.payload|, ExtBytes(f.form)) + KeyBytes(f) + Body(f)
  }

  datatype Header = Header(fin: bool, rsv: byte, opcode: byte, masked: bool, form: LenForm, length: nat)

  function FormOf(second: byte): LenForm {
    if second & 0x7F == 126 then Len16 else if second & 0x7F == 127 then Len64 else Len7
  }

  /** The header at the front of `b`, once its two fixed bytes and its length extension are there. */
  function DecodeHeader(b: seq<byte>): Option<Header> {
    if |b| < 2 || |b| < 2 + ExtBytes(FormOf(b[1])) then None
    else
      var form := FormOf(b[1]);
      var length := if form == Len7 then (b[1] & 0x7F) as int else FromBigEndian(b[2..2 + ExtBytes(form)]);
      Some(Header(b[0] & 0x80 != 0, b[0] & 0x70, b[0] & 0x0F, b[1] & 0x80 != 0, form, length))
  }

  datatype Decoded = Incomplete | Malformed | Decoded(frame: Frame, rest: seq<byte>)

  /** Reads one frame off the front of `b`. */
  function Decode(b: seq<byte>): Decoded {
    match DecodeHeader(b)
    case None => Incomplete
    case Some(h) => if Fits(h.form, h.length) then DecodeBody(h, b) else Malformed
  }

  function DecodeBody(h: Header, b: seq<byte>): Decoded {
    var keyAt := 2 + ExtBytes(h.form);
    var bodyAt := if h.masked then keyAt + 4 else keyAt;
    var end := bodyAt + h.length;
    if |b| < end then Incomplete
    else
      var mask := if h.masked then Some(b[keyAt..bodyAt]) else None;
      var payload := if h.masked then Mask(b[keyAt..bodyAt], b[bodyAt..end]) else b[bodyAt..end];
      Decoded(Frame(h.fin, h.rsv, h.opcode, mask, h.form, payload), b[end..])
  }

  function HeaderOf(f: Frame): Header {
    Header(f.fin, f.rsv, f.opcode, f.mask.Some?, f.form, |f.payload|)
  }

  // ---- header bits -------------------------------------------------------

  lemma FirstByteBits(f: Frame)
    requires ValidFrame(f)
    ensures (FirstByte(f) & 0x80 != 0) == f.fin
    ensures FirstByte(f) & 0x70 == f.rsv
    ensures FirstByte(f) & 0x0F == f.opcode
  {
  }

  lemma FirstByteOfBits(b: byte)
    ensures (if b & 0x80 != 0 then 0x80 else 0) | (b & 0x70) | (b & 0x0F) == b
    ensures (b & 0x70) & 0x70 == b & 0x70 && (b & 0x0F) & 0x0F == b & 0x0F
  {
  }

  lemma SmallByte(n: nat)
    requires n < 128
    ensures (n as byte) & 0x80 == 0 && (n as byte) & 0x7F == n as byte
  {
  }

  lemma MaskBit(code: byte)
    requires code & 0x80 == 0
    ensures (0x80 | code) & 0x80 != 0 && (0x80 | code) & 0x7F == code
    ensures (0 | code) & 0x80 == 0 && (0 | code) & 0x7F == code
  {
  }

  lemma SecondByteOfBits(b: byte)
    ensures (if b & 0x80 != 0 then 0x80 else 0) | (b & 0x7F) == b
    ensures (b & 0x7F) & 0x80 == 0
  {
  }

  lemma LowBits(b: byte)
    ensures 0 <= (b & 0x7F) as int < 128
    ensures ((b & 0x7F) as int) as byte == b & 0x7F
    ensures b & 0x7F != 126 && b & 0x7F != 127 ==> (b & 0x7F) as int <= 125
  {
    IntOfByte(b & 0x7F);
    assert b & 0x7F < 128;
  }

  lemma CodeOfSmall(n: nat)
    requires n <= 125
    ensures n as byte != 126 && n as byte != 127
  {
    ByteOfInt(n);
    ByteOfInt(126);
    ByteOfInt(127);
  }

  lemma SecondByteBits(f: Frame)
    requires ValidFrame(f)
    ensures FormOf(SecondByte(f)) == f.form
    ensures (SecondByte(f) & 0x80 != 0) == f.mask.Some?
    ensures f.form == Len7 ==> (SecondByte(f) & 0x7F) as int == |f.payload|
  {
    var code := LenCode(f.form, |f.payload|);
    if f.form == Len7 {
      SmallByte(|f.payload|);
      CodeOfSmall(|f.payload|);
      ByteOfInt(|f.payload|);
    }
    assert code & 0x80 == 0;
    MaskBit(code);
  }

  // ---- decoder and encoder are inverse -----------------------------------

  /** The length field reads back as the payload's length. */
  lemma LengthEncode(f: Frame)
    requires ValidFrame(f) && f.form != Len7
    ensures FromBigEndian(BigEndian(|f.payload|, ExtBytes(f.form))) == |f.payload|
  {
    Pow256Values();
    BigEndianRoundTrip(|f.payload|, ExtBytes(f.form));
  }

  lemma DecodeHeaderOf(b: seq<byte>, f: Frame)
    requires ValidFrame(f)
    requires |b| >= 2 + ExtBytes(f.form) && b[0] == FirstByte(f) && b[1] == SecondByte(f)
    requires f.form != Len7 ==> FromBigEndian(b[2..2 + ExtBytes(f.form)]) == |f.payload|
    ensures DecodeHeader(b) == Some(HeaderOf(f))
  {
    SecondByteBits(f);
    FirstByteBits(f);
  }

  lemma DecodeHeaderEncode(f: Frame, rest: seq<byte>)
    requires ValidFrame(f)
    ensures DecodeHeader(Encode(f) + rest) == Some(HeaderOf(f))
  {
    var b := Encode(f) + rest;
    var ext, tail := EncodeHead(f, rest);
    HeadSlices(FirstByte(f), SecondByte(f), ext, tail, b);
    DecodeHeaderOf(b, f);
  }

  /** The encoding starts with the two fixed bytes and the length extension. */
  lemma EncodeHead(f: Frame, rest: seq<byte>) returns (ext: seq<byte>, tail: seq<byte>)
    requires ValidFrame(f)
    ensures Encode(f) + rest == [FirstByte(f), SecondByte(f)] + ext + tail
    ensures |ext| == ExtBytes(f.form) && (f.form != Len7 ==> FromBigEndian(ext) == |f.payload|)
  {
    ext := BigEndian(|f.payload|, ExtBytes(f.form));
    tail := KeyBytes(f) + Body(f) + rest;
    Regroup([FirstByte(f), SecondByte(f)] + ext, KeyBytes(f), Body(f), rest);
    if f.form != Len7 {
      LengthEncode(f);
    }
  }

  lemma DecodeBodyEncode(f: Frame, rest: seq<byte>)
    requires ValidFrame(f)
    ensures DecodeBody(HeaderOf(f), Encode(f) + rest) == Decoded(f, rest)
  {
    var b := Encode(f) + rest;
    var keyAt := 2 + ExtBytes(f.form);
    var bodyAt := keyAt + |KeyBytes(f)|;
    assert b[keyAt..bodyAt] == KeyBytes(f);
    assert b[bodyAt..bodyAt + |f.payload|] == Body(f);
    assert b[bodyAt + |f.payload|..] == rest;
    if f.mask.Some? {
      MaskInvolution(f.mask.value, f.payload);
    }
  }

  /** Every valid frame decodes to itself, whatever follows it on the stream. */
  lemma DecodeEncode(f: Frame, rest: seq<byte>)
    requires ValidFrame(f)
    ensures Decode(Encode(f) + rest) == Decoded(f, rest)
  {
    DecodeHeaderEncode(f, rest);
    DecodeBodyEncode(f, rest);
  }

  lemma SecondByteOfHeader(second: byte, f: Frame)
    requires ValidFrame(f) && FormOf(second) == f.form && (second & 0x80 != 0) == f.mask.Some?
    requires f.form == Len7 ==> |f.payload| == (second & 0x7F) as int
    ensures SecondByte(f) == second
  {
    SecondByteOfBits(second);
    if f.form == Len7 {
      LowBits(second);
    }
    assert LenCode(f.form, |f.payload|) == second & 0x7F;
  }

  lemma HeaderBytes(b: seq<byte>, f: Frame)
    requires DecodeHeader(b) == Some(HeaderOf(f))
    requires f.mask.Some? ==> |f.mask.value| == 4
    requires Fits(f.form, |f.payload|)
    ensures ValidFrame(f) && |b| >= 2 + ExtBytes(f.form)
    ensures b[0] == FirstByte(f) && b[1] == SecondByte(f)
    ensures f.form != Len7 ==> FromBigEndian(b[2..2 + ExtBytes(f.form)]) == |f.payload|
  {
    FirstByteOfBits(b[0]);
    SecondByteOfHeader(b[1], f);
  }

  /** The header bytes are the encoding of the header's fields. */
  lemma EncodeDecodeHeader(b: seq<byte>, f: Frame)
    requires DecodeHeader(b) == Some(HeaderOf(f))
    requires f.mask.Some? ==> |f.mask.value| == 4
    requires Fits(f.form, |f.payload|)
    ensures ValidFrame(f)
    ensures b[..2 + ExtBytes(f.form)] == [FirstByte(f), SecondByte(f)] + BigEndian(|f.payload|, ExtBytes(f.form))
  {
    HeaderBytes(b, f);
    FrontOf(b, ExtBytes(f.form));
    if f.form == Len7 {
      assert BigEndian(|f.payload|, 0) == [];
    } else {
      ExtOf(b[2..2 + ExtBytes(f.form)], |f.payload|);
    }
  }

  lemma FrontOf(b: seq<byte>, k: nat)
    requires |b| >= 2 + k
    ensures b[..2 + k] == [b[0], b[1]] + b[2..2 + k]
  {
  }

  lemma ExtOf(ext: seq<byte>, n: nat)
    requires FromBigEndian(ext) == n
    ensures ext == BigEndian(n, |ext|)
  {
    FromBigEndianRoundTrip(ext);
  }

  /** The bytes after the header of a decoded frame: its key, its body as transmitted, and the rest. */
  ghost predicate BodyBytes(b: seq<byte>, h: Header, f: Frame, rest: seq<byte>) {
    && HeaderOf(f) == h && (f.mask.Some? ==> |f.mask.value| == 4) && |b| >= 2 + ExtBytes(h.form)
    && b[2 + ExtBytes(h.form)..]
       == KeyBytes(f) + (if f.mask.Some? then Mask(f.mask.value, f.payload) else f.payload) + rest
  }

  lemma EncodeMaskedBody(h: Header, b: seq<byte>)
    requires h.masked && DecodeBody(h, b).Decoded?
    ensures BodyBytes(b, h, DecodeBody(h, b).frame, DecodeBody(h, b).rest)
  {
    var keyAt := 2 + ExtBytes(h.form);
    var bodyAt, end := keyAt + 4, keyAt + 4 + h.length;
    var key, body := b[keyAt..bodyAt], b[bodyAt..end];
    MaskInvolution(key, body);
    CutInThree(b, keyAt, bodyAt, end);
  }

  lemma EncodePlainBody(h: Header, b: seq<byte>)
    requires !h.masked && DecodeBody(h, b).Decoded?
    ensures BodyBytes(b, h, DecodeBody(h, b).frame, DecodeBody(h, b).rest)
  {
    var keyAt := 2 + ExtBytes(h.form);
    CutInThree(b, keyAt, keyAt, keyAt + h.length);
    assert b[keyAt..keyAt] == [];
  }

  lemma EncodeFromParts(b: seq<byte>, h: Header, f: Frame, rest: seq<byte>)
    requires ValidFrame(f) && BodyBytes(b, h, f, rest)
    requires b[..2 + ExtBytes(f.form)] == [FirstByte(f), SecondByte(f)] + BigEndian(|f.payload|, ExtBytes(f.form))
    ensures Encode(f) + rest == b
  {
    var cut := 2 + ExtBytes(h.form);
    assert b == b[..cut] + b[cut..];
    Regroup(b[..cut], KeyBytes(f), Body(f), rest);
  }

  /** Whatever the decoder accepts is the encoding of the frame it reports. */
  lemma EncodeDecode(b: seq<byte>)
    requires Decode(b).Decoded?
    ensures ValidFrame(Decode(b).frame)
    ensures Encode(Decode(b).frame) + Decode(b).rest == b
  {
    var h := DecodeHeader(b).value;
    var f := Decode(b).frame;
    if h.masked {
      EncodeMaskedBody(h, b);
    } else {
      EncodePlainBody(h, b);
    }
    EncodeDecodeHeader(b, f);
    EncodeFromParts(b, h, f, Decode(b).rest);
  }

  /** A proper prefix of a frame is never taken for a frame or for an error. */
  lemma DecodePrefix(f: Frame, k: nat)
    requires ValidFrame(f) && k < |Encode(f)|
    ensures Decode(Encode(f)[..k]).Incomplete?
  {
    var b := Encode(f);
    assert b + [] == b;
    DecodeHeaderEncode(f, []);
    DecodeHeaderLocal(b, k);
  }

  /** A truncated stream shows the same header or none. */
  lemma DecodeHeaderLocal(b: seq<byte>, k: nat)
    requires k <= |b|
    ensures DecodeHeader(b[..k]).Some? ==> DecodeHeader(b[..k]) == DecodeHeader(b)
  {
    if DecodeHeader(b[..k]).Some? {
      var ext := ExtBytes(FormOf(b[1]));
      assert b[..k][2..2 + ext] == b[2..2 + ext];
    }
  }

  // ---- streams of frames -------------------------------------------------

  ghost predicate ValidFrames(fs: seq<Frame>) {
    forall i :: 0 <= i < |fs| ==> ValidFrame(fs[i])
  }

  ghost function Encodings(fs: seq<Frame>): (ss: seq<seq<byte>>)
    requires ValidFrames(fs)
    ensures |ss| == |fs|
  {
    seq(|fs|, i requires 0 <= i < |fs| => Encode(fs[i]))
  }

  ghost function EncodeAll(fs: seq<Frame>): seq<byte>
    requires ValidFrames(fs)
  {
    Flatten(Encodings(fs))
  }

  /** All whole frames at the front of `b`, and what is left when no whole frame follows. */
  function DecodeAll(b: seq<byte>): (r: (seq<Frame>, seq<byte>))
    decreases |b|
  {
    match Decode(b)
    case Decoded(f, rest) =>
      if |rest| < |b| then var (fs, tail) := DecodeAll(rest); ([f] + fs, tail) else ([], b)
    case _ => ([], b)
  }

  lemma EncodeAllCons(fs: seq<Frame>)
    requires ValidFrames(fs) && fs != []
    ensures EncodeAll(fs) == Encode(fs[0]) + EncodeAll(fs[1..])
  {
    assert Encodings(fs)[1..] == Encodings(fs[1..]);
  }

  lemma DecodeAllStep(b: seq<byte>, f: Frame, rest: seq<byte>)
    requires Decode(b) == Decoded(f, rest) && |rest| < |b|
    ensures DecodeAll(b) == ([f] + DecodeAll(rest).0, DecodeAll(rest).1)
  {
  }

  /** Whatever the byte string, its decoded frames encoded again, followed by the remainder, are that string. */
  lemma {:induction false} EncodeAllDecodeAll(b: seq<byte>)
    ensures ValidFrames(DecodeAll(b).0)
    ensures EncodeAll(DecodeAll(b).0) + DecodeAll(b).1 == b
    decreases |b|
  {
    if Decode(b).Decoded? && |Decode(b).rest| < |b| {
      var f, rest := Decode(b).frame, Decode(b).rest;
      EncodeDecode(b);
      EncodeAllDecodeAll(rest);
      DecodeAllStep(b, f, rest);
      EncodeAllPrepend(f, DecodeAll(rest).0, DecodeAll(rest).1);
    } else {
      assert DecodeAll(b) == ([], b);
    }
  }

  lemma EncodeAllPrepend(f: Frame, fs: seq<Frame>, tail: seq<byte>)
    requires ValidFrame(f) && ValidFrames(fs)
    ensures ValidFrames([f] + fs)
    ensures EncodeAll([f] + fs) + tail == Encode(f) + (EncodeAll(fs) + tail)
  {
    EncodeAllCons([f] + fs);
    assert ([f] + fs)[1..] == fs;
  }

  /** A stream of whole frames followed by an incomplete remainder splits exactly there. */
  lemma {:induction false} DecodeAllEncodeAll(fs: seq<Frame>, tail: seq<byte>)
    requires ValidFrames(fs)
    requires Decode(tail).Incomplete?
    ensures DecodeAll(EncodeAll(fs) + tail) == (fs, tail)
  {
    if fs == [] {
      assert EncodeAll(fs) + tail == tail;
    } else {
      DecodeAllEncodeAll(fs[1..], tail);
      EncodeAllPrepend(fs[0], fs[1..], tail);
      DecodeFrameThenRest(fs[0], EncodeAll(fs[1..]) + tail);
      assert fs == [fs[0]] + fs[1..];
    }
  }

  lemma DecodeFrameThenRest(f: Frame, rest: seq<byte>)
    requires ValidFrame(f)
    ensures DecodeAll(Encode(f) + rest) == ([f] + DecodeAll(rest).0, DecodeAll(rest).1)
  {
    DecodeEncode(f, rest);
    DecodeAllStep(Encode(f) + rest, f, rest);
  }

  /** The bounds of the three length forms, in numbers. */
  lemma LengthForms(n: nat)
    ensures n <= 125 ==> Shortest(n) == Len7
    ensures 126 <= n <= 65535 ==> Shortest(n) == Len16
    ensures n >= 65536 ==> Shortest(n) == Len64
    ensures Fits(Len64, n) <==> n <= 0x7FFF_FFFF_FFFF_FFFF
  {
  }

  // ---- the examples of section 5.7 of RFC 6455 --------------------------------------

  const HELLO: seq<byte> := [0x48, 0x65, 0x6C, 0x6C, 0x6F]
  const HELLO_KEY: seq<byte> := [0x37, 0xFA, 0x21, 0x3D]

  lemma MaskedHello()
    ensures Mask(HELLO_KEY, HELLO) == [0x7F, 0x9F, 0x4D, 0x51, 0x58]
  {
    assert 0x48 ^ 0x37 == 0x7F as byte && 0x65 ^ 0xFA == 0x9F as byte && 0x6C ^ 0x21 == 0x4D as byte;
    assert 0x6C ^ 0x3D == 0x51 as byte && 0x6F ^ 0x37 == 0x58 as byte;
  }

  /** The standard's own bytes: an unmasked and a masked text, a fragmented one, a ping
      and its masked pong. */
  lemma Examples()
    ensures Encode(Frame(true, 0, 0x1, None, Len7, HELLO)) == [0x81, 0x05] + HELLO
    ensures Encode(Frame(true, 0, 0x1, Some(HELLO_KEY), Len7, HELLO))
            == [0x81, 0x85] + HELLO_KEY + [0x7F, 0x9F, 0x4D, 0x51, 0x58]
    ensures Encode(Frame(false, 0, 0x1, None, Len7, HELLO[..3])) == [0x01, 0x03] + HELLO[..3]
    ensures Encode(Frame(true, 0, 0x9, None, Len7, HELLO)) == [0x89, 0x05] + HELLO
    ensures Encode(Frame(true, 0, 0xA, Some(HELLO_KEY), Len7, HELLO))
            == [0x8A, 0x85] + HELLO_KEY + [0x7F, 0x9F, 0x4D, 0x51, 0x58]
  {
    MaskedHello();
  }

  /** And its binary messages of 256 bytes and of 64 kibibytes, in their two longer length forms. */
  lemma LongExamples(payload: seq<byte>)
    ensures |payload| == 256 ==>
              && Shortest(256) == Len16
              && Encode(Frame(true, 0, 0x2, None, Len16, payload)) == [0x82, 0x7E, 1, 0] + payload
    ensures |payload| == 65536 ==>
              && Shortest(65536) == Len64
              && Encode(Frame(true, 0, 0x2, None, Len64, payload)) == [0x82, 0x7F, 0, 0, 0, 0, 0, 1, 0, 0] + payload
  {
    BigEndianExamples();
  }

  lemma BigEndianExamples()
    ensures BigEndian(256, 2) == [1, 0]
    ensures BigEndian(65536, 8) == [0, 0, 0, 0, 0, 1, 0, 0]
  {
    BigEndianOne(2);
    BigEndianOne(6);
    BigEndianShift(1, 1);
    BigEndianShift(1, 6);
    BigEndianShift(256, 7);
  }

  lemma BigEndianShift(n: nat, k: nat)
    ensures BigEndian(256 * n, k + 1) == BigEndian(n, k) + [0]
  {
  }

  lemma {:induction false} BigEndianOne(k: nat)
    ensures k > 0 ==> BigEndian(1, k) == seq(k - 1, _ => 0) + [1]
    ensures BigEndian(0, k) == seq(k, _ => 0)
  {
    if k > 0 {
      BigEndianOne(k - 1);
    }
  }
}
