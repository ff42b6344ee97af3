/** The gateway's hand-written frame reader and writer (`wsConn`), proved
    against specification functions that follow the code branch by branch, and
    those functions proved against the standard in module Rfc6455. */
module WsConn {
  import opened Prelude
  import opened Bytes
  import Rfc = Rfc6455

  const MAX_PAYLOAD: nat := 0x7FFF_FFFF
  /** Lengths of Go slices are below 2^63. */
  const MAX_SLICE: nat := 0x7FFF_FFFF_FFFF_FFFF

  /** An application-level message: the opcode and the (unmasked) payload. */
  datatype Msg = Msg(opcode: byte, payload: seq<byte>)

  datatype ReadError = ShortRead | NotMasked | TooLarge

  /** What one call of the reader yields, and the bytes it leaves unread. */
  datatype ReadOutcome = Got(msg: Msg, rest: seq<byte>) | Failed(error: ReadError, rest: seq<byte>)

  // ---- reading -----------------------------------------------------------

  /** The reader as a function of the unread bytes.  A short read drains the stream. */
  function ReadSpec(b: seq<byte>): ReadOutcome {
    if |b| < 2 then Failed(ShortRead, [])
    else if b[1] & 0x80 == 0 then Failed(NotMasked, b[2..])
    else ReadExtension(b[0] & 0x0F, (b[1] & 0x7F) as int, b[2..])
  }

  function ReadExtension(opcode: byte, code: nat, b: seq<byte>): ReadOutcome {
    if code == 126 then
      if |b| < 2 then Failed(ShortRead, [])
      else ReadBody(opcode, FromBigEndian(b[..2]), b[2..])
    else if code == 127 then
      if |b| < 8 then Failed(ShortRead, [])
      else if FromBigEndian(b[..8]) > MAX_PAYLOAD then Failed(TooLarge, b[8..])
      else ReadBody(opcode, FromBigEndian(b[..8]), b[8..])
    else ReadBody(opcode, code, b)
  }

  function ReadBody(opcode: byte, n: nat, b: seq<byte>): ReadOutcome {
    if |b| < 4 + n then Failed(ShortRead, [])
    else Got(Msg(opcode, Mask(b[..4], b[4..4 + n])), b[4 + n..])
  }

  /** The messages obtained by calling a reader until it fails, and how it fails. */
  function ReadAll(read: seq<byte> -> ReadOutcome, b: seq<byte>): (r: (seq<Msg>, ReadOutcome))
    decreases |b|
  {
    var o := read(b);
    if o.Got? && |o.rest| < |b| then
      var (ms, last) := ReadAll(read, o.rest);
      ([o.msg] + ms, last)
    else ([], o)
  }

  // ---- writing -----------------------------------------------------------

  function WriteHead(op: byte, n: nat): seq<byte> {
    if n <= 125 then [0x80 | op, n as byte]
    else if n <= 65535 then [0x80 | op, 126] + BigEndian(n, 2)
    else [0x80 | op, 127] + BigEndian(n, 8)
  }

  /** The bytes one call of the writer is to put on the connection. */
  function WriteSpec(op: byte, payload: seq<byte>): seq<byte> {
    WriteHead(op, |payload|) + payload
  }

  /** How the network takes the two `Write` calls of one frame. */
  datatype NetOutcome = AllAccepted | HeadCut(accepted: nat) | BodyCut(accepted: nat)

  class Conn {
    /** Bytes the client has sent that are still unread. */
    var input: seq<byte>
    /** Bytes the network has accepted from the server. */
    var output: seq<byte>

    constructor (input: seq<byte>)
      ensures this.input == input && this.output == []
    {
      this.input, this.output := input, [];
    }

    method ReadFull(buf: array<byte>) returns (ok: bool)
      modifies this`input, buf
      ensures ok == (|old(input)| >= buf.Length)
      ensures ok ==> buf[..] == old(input)[..buf.Length] && input == old(input)[buf.Length..]
      ensures !ok ==> input == []
    {
      ok := |input| >= buf.Length;
      if ok {
        forall i | 0 <= i < buf.Length {
          buf[i] := input[i];
        }
        input := input[buf.Length..];
      } else {
        input := [];
      }
    }

    /** The last stage of the reader: key, payload, and unmasking in place. */
    method ReadMasked(opcode: byte, n: nat) returns (r: Result<Msg, ReadError>)
      modifies this`input
      ensures var o := ReadBody(opcode, n, old(input));
              && input == o.rest
              && r == if o.Got? then Ok(o.msg) else Err(o.error)
    {
      var maskKey := new byte[4];
      var ok := ReadFull(maskKey);
      if !ok { return Err(ShortRead); }
      var payload := new byte[n];
      ok := ReadFull(payload);
      if !ok { return Err(ShortRead); }
      ghost var key, body := old(input)[..4], old(input)[4..4 + n];
      assert maskKey[..] == key && payload[..] == body;
      var i := 0;
      while i < n
        invariant 0 <= i <= n
        invariant maskKey[..] == key
        invariant forall j :: 0 <= j < i ==> payload[j] == body[j] ^ key[j % 4]
        invariant forall j :: i <= j < n ==> payload[j] == body[j]
        invariant input == old(input)[4 + n..]
      {
        assert maskKey[i % 4] == key[i % 4];
        payload[i] := payload[i] ^ maskKey[i % 4];
        i := i + 1;
      }
      assert payload[..] == Mask(key, body);
      return Ok(Msg(opcode, payload[..]));
    }

    method ReadFrame() returns (r: Result<Msg, ReadError>)
      modifies this`input
      ensures var o := ReadSpec(old(input));
              && input == o.rest
              && r == if o.Got? then Ok(o.msg) else Err(o.error)
    {
      var hdr := new byte[2];
      var ok := ReadFull(hdr);
      if !ok { return Err(ShortRead); }
      assert hdr[0] == old(input)[0] && hdr[1] == old(input)[1];
      var opcode := hdr[0] & 0x0F;
      if hdr[1] & 0x80 == 0 { return Err(NotMasked); }
      var payloadLen := (hdr[1] & 0x7F) as int;
      r := ReadLength(opcode, payloadLen);
    }

    method ReadLength(opcode: byte, code: nat) returns (r: Result<Msg, ReadError>)
      modifies this`input
      ensures var o := ReadExtension(opcode, code, old(input));
              && input == o.rest
              && r == if o.Got? then Ok(o.msg) else Err(o.error)
    {
      var payloadLen := code;
      if code == 126 {
        var ext := new byte[2];
        var ok := ReadFull(ext);
        if !ok { return Err(ShortRead); }
        payloadLen := FromBigEndian(ext[..]);
      } else if code == 127 {
        var ext := new byte[8];
        var ok := ReadFull(ext);
        if !ok { return Err(ShortRead); }
        var payloadLen64 := FromBigEndian(ext[..]);
        if payloadLen64 > MAX_PAYLOAD { return Err(TooLarge); }
        payloadLen := payloadLen64;
      }
      r := ReadMasked(opcode, payloadLen);
    }

    method Write(data: seq<byte>, accepted: nat) returns (ok: bool)
      requires accepted <= |data|
      modifies this`output
      ensures ok == (accepted == |data|)
      ensures output == old(output) + data[..accepted]
    {
      output := output + data[..accepted];
      ok := accepted == |data|;
    }

    /** Fills the two-byte header and extends it by the length bytes. */
    static method BuildHead(op: byte, n: nat) returns (head: seq<byte>)
      ensures head == WriteHead(op, n)
    {
      head := [0x80 | op, 0];
      if n <= 125 {
        head := head[1 := n as byte];
      } else if n <= 65535 {
        head := head[1 := 126];
        head := head + BigEndian(n, 2);
      } else {
        head := head[1 := 127];
        head := head + BigEndian(n, 8);
      }
    }

    /** Whatever the network does, a prefix of the frame is appended, and the
        call succeeds exactly when that prefix is the whole frame. */
    method WriteFrame(op: byte, payload: seq<byte>, net: NetOutcome) returns (ok: bool, ghost written: nat)
      requires |payload| <= MAX_SLICE
      modifies this`output
      ensures written <= |WriteSpec(op, payload)|
      ensures output == old(output) + WriteSpec(op, payload)[..written]
      ensures ok == (written == |WriteSpec(op, payload)|)
      ensures net.AllAccepted? ==> ok
    {
      var n := |payload|;
      var head := BuildHead(op, n);
      ok, written := WriteParts(head, payload, net);
    }

    /** The two `Write` calls; the second is skipped when there is no payload. */
    method WriteParts(head: seq<byte>, payload: seq<byte>, net: NetOutcome) returns (ok: bool, ghost written: nat)
      modifies this`output
      ensures written <= |head + payload|
      ensures output == old(output) + (head + payload)[..written]
      ensures ok == (written == |head + payload|)
      ensures net.AllAccepted? ==> ok
    {
      var headTaken := if net.HeadCut? && net.accepted < |head| then net.accepted else |head|;
      ok := Write(head, headTaken);
      written := headTaken;
      assert (head + payload)[..headTaken] == head[..headTaken];
      if !ok { return; }
      if |payload| > 0 {
        var bodyTaken := if net.BodyCut? && net.accepted < |payload| then net.accepted else |payload|;
        ok := Write(payload, bodyTaken);
        written := written + bodyTaken;
        assert (head + payload)[..written] == head + payload[..bodyTaken];
      }
    }
  }

  // ---- the writer produces the standard's shortest unmasked frame ----------

  /** The frame the server means by a message. */
  function ServerFrame(m: Msg): Rfc.Frame {
    Rfc.Frame(true, 0, m.opcode, None, Rfc.Shortest(|m.payload|), m.payload)
  }

  predicate Sendable(m: Msg) {
    m.opcode & 0x0F == m.opcode && |m.payload| <= MAX_SLICE
  }

  lemma HeaderByte(op: byte)
    requires op & 0x0F == op
    ensures 0x80 | 0 | op == 0x80 | op
    ensures 0 & 0x70 == (0 as byte)
  {
  }

  lemma ZeroOr(b: byte)
    ensures 0 | b == b
  {
  }

  lemma WriteIsShortestFrame(m: Msg)
    requires Sendable(m)
    ensures Rfc.ValidFrame(ServerFrame(m))
    ensures WriteSpec(m.opcode, m.payload) == Rfc.Encode(ServerFrame(m))
  {
    var f := ServerFrame(m);
    HeaderByte(m.opcode);
    ZeroOr(Rfc.LenCode(f.form, |m.payload|));
    assert Rfc.FirstByte(f) == 0x80 | m.opcode;
    assert BigEndian(|m.payload|, 0) == [];
  }

  // ---- the reader accepts exactly the standard's masked frames -------------

  predicate ClientFrame(f: Rfc.Frame) {
    Rfc.ValidFrame(f) && f.mask.Some? && |f.payload| <= MAX_PAYLOAD
  }

  lemma ReadBodyAgrees(h: Rfc.Header, b: seq<byte>)
    requires h.masked && |b| >= 2 + Rfc.ExtBytes(h.form)
    ensures var o := ReadBody(h.opcode, h.length, b[2 + Rfc.ExtBytes(h.form)..]);
            match Rfc.DecodeBody(h, b)
            case Decoded(f, rest) => o == Got(Msg(f.opcode, f.payload), rest) && f.mask.Some?
                                     && |f.payload| == h.length
            case _ => o == Failed(ShortRead, [])
  {
    var at := 2 + Rfc.ExtBytes(h.form);
    var r := b[at..];
    if |r| >= 4 + h.length {
      assert r[..4] == b[at..at + 4];
      assert r[4..4 + h.length] == b[at + 4..at + 4 + h.length];
      assert r[4 + h.length..] == b[at + 4 + h.length..];
    }
  }

  /** With a complete masked header, the reader goes straight to the body, unless the length is too large. */
  lemma ReadHeaderAgrees(b: seq<byte>)
    requires Rfc.DecodeHeader(b).Some?
    ensures var h := Rfc.DecodeHeader(b).value;
            var at := 2 + Rfc.ExtBytes(h.form);
            ReadSpec(b) ==
            if !h.masked then Failed(NotMasked, b[2..])
            else if h.form == Rfc.Len64 && h.length > MAX_PAYLOAD then Failed(TooLarge, b[10..])
            else ReadBody(h.opcode, h.length, b[at..])
  {
    var h := Rfc.DecodeHeader(b).value;
    var code := (b[1] & 0x7F) as int;
    CodeValues(b[1]);
    var r := b[2..];
    if h.form == Rfc.Len16 {
      assert r[..2] == b[2..4] && r[2..] == b[4..];
    } else if h.form == Rfc.Len64 {
      assert r[..8] == b[2..10] && r[8..] == b[10..];
    }
  }

  lemma CodeValues(b: byte)
    ensures (b & 0x7F == 126) == ((b & 0x7F) as int == 126)
    ensures (b & 0x7F == 127) == ((b & 0x7F) as int == 127)
  {
    IntOfByte(b & 0x7F);
    ByteOfInt(126);
    ByteOfInt(127);
  }

  /** Without a complete header the reader fails, for want of bytes or for want of the mask bit. */
  lemma ReadNoHeader(b: seq<byte>)
    requires Rfc.DecodeHeader(b).None?
    ensures ReadSpec(b).Failed?
    ensures |b| < 2 || b[1] & 0x80 != 0 ==> ReadSpec(b) == Failed(ShortRead, [])
  {
    if |b| >= 2 {
      CodeValues(b[1]);
    }
  }

  lemma HeaderLengths(b: seq<byte>)
    requires Rfc.DecodeHeader(b).Some?
    ensures var h := Rfc.DecodeHeader(b).value;
            h.form != Rfc.Len64 ==> h.length <= MAX_PAYLOAD && Rfc.Fits(h.form, h.length)
  {
    var h := Rfc.DecodeHeader(b).value;
    if h.form == Rfc.Len7 {
      Rfc.LowBits(b[1]);
    } else if h.form == Rfc.Len16 {
      FromBigEndianRoundTrip(b[2..4]);
      Pow256Values();
    }
  }

  /** The reader returns a message exactly when the standard's decoder finds a
      masked frame of at most 2^31 - 1 bytes there, and then it is that frame's
      opcode and payload and the same remainder. */
  lemma ReadAgreesWithRfc(b: seq<byte>)
    ensures ReadSpec(b).Got? <==> Rfc.Decode(b).Decoded? && ClientFrame(Rfc.Decode(b).frame)
    ensures ReadSpec(b).Got? ==>
              var f := Rfc.Decode(b).frame;
              ReadSpec(b) == Got(Msg(f.opcode, f.payload), Rfc.Decode(b).rest)
  {
    match Rfc.DecodeHeader(b)
    case None => ReadNoHeader(b);
    case Some(h) =>
      ReadHeaderAgrees(b);
      HeaderLengths(b);
      if h.masked {
        ReadBodyAgrees(h, b);
      }
      if Rfc.Decode(b).Decoded? {
        Rfc.EncodeDecode(b);
      }
  }

  // ---- what follows for streams of client frames ---------------------------

  function Messages(fs: seq<Rfc.Frame>): (ms: seq<Msg>)
    ensures |ms| == |fs|
  {
    seq(|fs|, i requires 0 <= i < |fs| => Msg(fs[i].opcode, fs[i].payload))
  }

  /** One call on a stream that starts with a client frame returns it and stops right after it. */
  lemma ReadOneFrame(f: Rfc.Frame, rest: seq<byte>)
    requires ClientFrame(f)
    ensures ReadSpec(Rfc.Encode(f) + rest) == Got(Msg(f.opcode, f.payload), rest)
  {
    Rfc.DecodeEncode(f, rest);
    ReadAgreesWithRfc(Rfc.Encode(f) + rest);
  }

  ghost predicate ClientFrames(fs: seq<Rfc.Frame>)
    ensures ClientFrames(fs) ==> Rfc.ValidFrames(fs)
  {
    forall i :: 0 <= i < |fs| ==> ClientFrame(fs[i])
  }

  lemma ReadAllStep(read: seq<byte> -> ReadOutcome, b: seq<byte>, m: Msg, rest: seq<byte>)
    requires read(b) == Got(m, rest) && |rest| < |b|
    ensures ReadAll(read, b) == ([m] + ReadAll(read, rest).0, ReadAll(read, rest).1)
  {
  }

  /** Any list of client frames, in any length forms and with any keys, is read
      back exactly, and nothing is left over. */
  lemma {:induction false} ReadAllFrames(fs: seq<Rfc.Frame>)
    requires ClientFrames(fs)
    ensures ReadAll(ReadSpec, Rfc.EncodeAll(fs)) == (Messages(fs), Failed(ShortRead, []))
  {
    if fs != [] {
      Rfc.EncodeAllCons(fs);
      ReadFrameThenRest(fs[0], Rfc.EncodeAll(fs[1..]));
      ReadAllFrames(fs[1..]);
      MessagesCons(fs);
    }
  }

  lemma ReadFrameThenRest(f: Rfc.Frame, rest: seq<byte>)
    requires ClientFrame(f)
    ensures ReadAll(ReadSpec, Rfc.Encode(f) + rest)
            == ([Msg(f.opcode, f.payload)] + ReadAll(ReadSpec, rest).0, ReadAll(ReadSpec, rest).1)
  {
    ReadOneFrame(f, rest);
    ReadAllStep(ReadSpec, Rfc.Encode(f) + rest, Msg(f.opcode, f.payload), rest);
  }

  lemma MessagesCons(fs: seq<Rfc.Frame>)
    requires fs != []
    ensures Messages(fs) == [Msg(fs[0].opcode, fs[0].payload)] + Messages(fs[1..])
  {
  }

  /** A successful read consumes exactly one encoded client frame, does not depend
      on what follows it, and fails for want of bytes on every proper prefix. */
  lemma ReadBoundaries(b: seq<byte>)
    requires ReadSpec(b).Got?
    ensures Rfc.Decode(b).Decoded?
    ensures var f := Rfc.Decode(b).frame;
            ClientFrame(f) && b == Rfc.Encode(f) + ReadSpec(b).rest
    ensures var f := Rfc.Decode(b).frame;
            |b| - |ReadSpec(b).rest| == 2 + Rfc.ExtBytes(f.form) + 4 + |ReadSpec(b).msg.payload|
    ensures forall x: seq<byte> :: ReadSpec(b + x) == Got(ReadSpec(b).msg, ReadSpec(b).rest + x)
    ensures forall k: nat :: k < |b| - |ReadSpec(b).rest| ==> ReadSpec(b[..k]) == Failed(ShortRead, [])
  {
    ReadConsumesOneFrame(b);
    forall x: seq<byte>
      ensures ReadSpec(b + x) == Got(ReadSpec(b).msg, ReadSpec(b).rest + x)
    {
      ReadIgnoresWhatFollows(b, x);
    }
    forall k: nat | k < |b| - |ReadSpec(b).rest|
      ensures ReadSpec(b[..k]) == Failed(ShortRead, [])
    {
      ReadFailsOnPrefix(b, k);
    }
  }

  lemma ReadConsumesOneFrame(b: seq<byte>)
    requires ReadSpec(b).Got?
    ensures Rfc.Decode(b).Decoded? && ClientFrame(Rfc.Decode(b).frame)
    ensures var (f, o) := (Rfc.Decode(b).frame, ReadSpec(b));
            && o.msg == Msg(f.opcode, f.payload)
            && b == Rfc.Encode(f) + o.rest
            && |b| - |o.rest| == 2 + Rfc.ExtBytes(f.form) + 4 + |o.msg.payload|
  {
    ReadAgreesWithRfc(b);
    Rfc.EncodeDecode(b);
  }

  lemma ReadIgnoresWhatFollows(b: seq<byte>, x: seq<byte>)
    requires ReadSpec(b).Got?
    ensures ReadSpec(b + x) == Got(ReadSpec(b).msg, ReadSpec(b).rest + x)
  {
    ReadConsumesOneFrame(b);
    var f, rest := Rfc.Decode(b).frame, ReadSpec(b).rest;
    assert b + x == Rfc.Encode(f) + (rest + x);
    ReadOneFrame(f, rest + x);
  }

  lemma ReadFailsOnPrefix(b: seq<byte>, k: nat)
    requires ReadSpec(b).Got? && k < |b| - |ReadSpec(b).rest|
    ensures ReadSpec(b[..k]) == Failed(ShortRead, [])
  {
    ReadConsumesOneFrame(b);
    var f := Rfc.Decode(b).frame;
    assert b[..k] == Rfc.Encode(f)[..k];
    ReadShort(f, k);
  }

  lemma ReadShort(f: Rfc.Frame, k: nat)
    requires ClientFrame(f) && k < |Rfc.Encode(f)|
    ensures ReadSpec(Rfc.Encode(f)[..k]) == Failed(ShortRead, [])
  {
    var b := Rfc.Encode(f);
    var p := b[..k];
    assert b + [] == b;
    Rfc.DecodeHeaderEncode(f, []);
    Rfc.DecodeHeaderLocal(b, k);
    Rfc.DecodePrefix(f, k);
    if Rfc.DecodeHeader(p).Some? {
      ReadHeaderAgrees(p);
      ReadBodyAgrees(Rfc.HeaderOf(f), p);
    } else {
      if k >= 2 {
        assert p[1] == b[1];
        assert Rfc.DecodeHeader(b).value.masked;
      }
      ReadNoHeader(p);
    }
  }

  // ---- the reader's limits, in numbers -------------------------------------------

  /** Masked frames of up to 2^31 - 1 bytes are read, whatever their length form. */
  lemma ReadsUpToLimit(f: Rfc.Frame, rest: seq<byte>)
    requires Rfc.ValidFrame(f) && f.mask.Some? && |f.payload| <= 0x7FFF_FFFF
    ensures ReadSpec(Rfc.Encode(f) + rest) == Got(Msg(f.opcode, f.payload), rest)
  {
    ReadOneFrame(f, rest);
  }

  /** Exactly when the reader fails, and how: an unmasked frame is refused after two
      bytes, a longer masked one after ten, and everything else fails for want of bytes. */
  lemma ReadErrors(b: seq<byte>)
    ensures ReadSpec(b) == Failed(NotMasked, b[if |b| < 2 then |b| else 2..]) <==> |b| >= 2 && b[1] < 0x80
    ensures |b| >= 10 && b[1] == 0xFF && FromBigEndian(b[2..10]) > 0x7FFF_FFFF <==>
              |b| >= 10 && ReadSpec(b) == Failed(TooLarge, b[10..])
    ensures ReadSpec(b).Failed? && !(|b| >= 2 && b[1] < 0x80)
            && !(|b| >= 10 && b[1] == 0xFF && FromBigEndian(b[2..10]) > 0x7FFF_FFFF) ==>
              ReadSpec(b) == Failed(ShortRead, [])
  {
    if |b| >= 2 {
      MaskBitIsTop(b[1]);
      CodeValues(b[1]);
      if |b| >= 10 {
        assert b[2..][..8] == b[2..10] && b[2..][8..] == b[10..];
      }
    }
  }

  lemma MaskBitIsTop(b: byte)
    ensures b & 0x80 == 0 <==> b < 0x80
    ensures b == 0xFF <==> b & 0x80 != 0 && b & 0x7F == 127
  {
  }
}
