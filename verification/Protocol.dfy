/** The 0x55AA frame codec of system_service/protocol.c.

    `Wire` is the documented frame layout with an arbitrary checksum field; `Encode` is what the
    encoder emits (checksum zero).  `Walk` is the reading of a byte buffer as a run of frames. */
module Protocol {
  import opened Bytes

  const MAGIC_0: byte := 0x55
  const MAGIC_1: byte := 0xAA
  const HDR_LEN: nat := 10
  const PAYLOAD_MAX: nat := 256

  const TYPE_REQ: byte := 0
  const TYPE_RESP: byte := 1

  datatype Status = Short | Magic | Trunc | NoSpace | Arg

  datatype Frame = Frame(crc: word, kind: byte, seqNo: byte, commandSet: byte, commandId: byte,
                         payload: seq<byte>)
  {
    /** The encoder's own precondition: the payload length fits the 16-bit length field. */
    predicate Representable() {
      |payload| < 0x1_0000
    }

    /** The decoder accepts the frame. */
    predicate Valid() {
      |payload| <= PAYLOAD_MAX
    }

    function Size(): nat {
      HDR_LEN + |payload|
    }
  }

  datatype Decoded = Ok(frame: Frame) | Err(status: Status)

  function BigEndian(hi: byte, lo: byte): word {
    256 * hi as int + lo as int
  }

  function Header(f: Frame): seq<byte>
    requires f.Representable()
  {
    [MAGIC_0, MAGIC_1, f.crc / 256, f.crc % 256, f.kind, f.seqNo, f.commandSet, f.commandId,
     |f.payload| / 256, |f.payload| % 256]
  }

  function Wire(f: Frame): seq<byte>
    requires f.Representable()
  {
    Header(f) + f.payload
  }

  function Encode(f: Frame): seq<byte>
    requires f.Representable()
  {
    Wire(f.(crc := 0))
  }

  function Decode(data: seq<byte>): Decoded {
    if |data| < HDR_LEN then Err(Short)
    else if data[0] != MAGIC_0 || data[1] != MAGIC_1 then Err(Magic)
    else
      var plen := BigEndian(data[8], data[9]);
      if HDR_LEN + plen > |data| then Err(Trunc)
      else if plen > PAYLOAD_MAX then Err(Trunc)
      else Ok(Frame(BigEndian(data[2], data[3]), data[4], data[5], data[6], data[7],
                    data[HDR_LEN..HDR_LEN + plen]))
  }

  /** The decoder inverts the layout on exactly the frames whose payload fits, whatever follows. */
  lemma DecodeWire(f: Frame, tail: seq<byte>)
    requires f.Representable()
    ensures Decode(Wire(f) + tail) == if f.Valid() then Ok(f) else Err(Trunc)
  {
    var data := Wire(f) + tail;
    assert data[..HDR_LEN] == Header(f);
    assert forall i :: 0 <= i < HDR_LEN ==> data[i] == data[..HDR_LEN][i];
    assert data[HDR_LEN..HDR_LEN + |f.payload|] == f.payload;
  }

  /** Decoding what was encoded gives the same frame with a zero checksum, or nothing. */
  lemma DecodeEncode(f: Frame, tail: seq<byte>)
    requires f.Representable()
    ensures Decode(Encode(f) + tail) == if f.Valid() then Ok(f.(crc := 0)) else Err(Trunc)
  {
    DecodeWire(f.(crc := 0), tail);
  }

  /** Every accepted frame is re-laid-out to the bytes it came from. */
  lemma WireDecode(data: seq<byte>)
    requires Decode(data).Ok?
    ensures Decode(data).frame.Valid()
    ensures Decode(data).frame.Size() <= |data|
    ensures Wire(Decode(data).frame) == data[..Decode(data).frame.Size()]
  {
    var f := Decode(data).frame;
    var n := f.Size();
    assert data[..n] == data[..HDR_LEN] + data[HDR_LEN..n];
    assert data[..HDR_LEN] == Header(f);
  }

  /** Re-encoding an accepted frame gives its bytes with the two checksum bytes cleared. */
  lemma EncodeDecode(data: seq<byte>)
    requires Decode(data).Ok?
    ensures Decode(data).frame.Valid() && Decode(data).frame.Size() <= |data|
    ensures Encode(Decode(data).frame) == data[..Decode(data).frame.Size()][2 := 0][3 := 0]
  {
    WireDecode(data);
    var f := Decode(data).frame;
    assert Encode(f) == Wire(f)[2 := 0][3 := 0];
  }

  // ---------- buffers of frames ----------

  ghost predicate AllRepresentable(frames: seq<Frame>) {
    forall i :: 0 <= i < |frames| ==> frames[i].Representable()
  }

  ghost predicate AllValid(frames: seq<Frame>) {
    forall i :: 0 <= i < |frames| ==> frames[i].Valid()
  }

  ghost function WireAll(frames: seq<Frame>): seq<byte>
    requires AllRepresentable(frames)
  {
    if frames == [] then [] else Wire(frames[0]) + WireAll(frames[1..])
  }

  datatype Walked = Walked(frames: seq<Frame>, rest: seq<byte>)

  /** The frames at the front of a buffer, up to the first byte that does not start one. */
  function Walk(data: seq<byte>): Walked
    decreases |data|
  {
    match Decode(data)
    case Err(_) => Walked([], data)
    case Ok(f) =>
      assert f.Size() <= |data|;
      var w := Walk(data[f.Size()..]);
      Walked([f] + w.frames, w.rest)
  }

  /** A run of frames followed by bytes that start no frame is read as exactly that run. */
  lemma {:induction false} WalkWireAll(frames: seq<Frame>, tail: seq<byte>)
    requires AllValid(frames)
    requires Decode(tail).Err?
    ensures Walk(WireAll(frames) + tail) == Walked(frames, tail)
  {
    if frames == [] {
      assert WireAll(frames) + tail == tail;
    } else {
      var f, more := frames[0], frames[1..];
      var data := WireAll(frames) + tail;
      assert data == Wire(f) + (WireAll(more) + tail);
      DecodeWire(f, WireAll(more) + tail);
      assert data[f.Size()..] == WireAll(more) + tail;
      WalkWireAll(more, tail);
    }
  }

  lemma WireAllCons(f: Frame, more: seq<Frame>, rest: seq<byte>)
    requires f.Representable() && AllRepresentable(more)
    ensures WireAll([f] + more) + rest == Wire(f) + (WireAll(more) + rest)
  {
    assert ([f] + more)[1..] == more;
    assert WireAll([f] + more) == Wire(f) + WireAll(more);
  }

  lemma WalkStep(data: seq<byte>) returns (f: Frame, next: seq<byte>)
    requires Decode(data).Ok?
    ensures f.Valid() && Wire(f) + next == data && |next| < |data|
    ensures Walk(data) == Walked([f] + Walk(next).frames, Walk(next).rest)
  {
    f := Decode(data).frame;
    WireDecode(data);
    next := data[f.Size()..];
    assert data == data[..f.Size()] + next;
  }

  /** Every buffer splits into the frames read from it and the unread rest. */
  lemma {:induction false} WalkSound(data: seq<byte>)
    ensures AllValid(Walk(data).frames)
    ensures WireAll(Walk(data).frames) + Walk(data).rest == data
    ensures Decode(Walk(data).rest).Err?
    decreases |data|
  {
    if Decode(data).Ok? {
      var f, next := WalkStep(data);
      WalkSound(next);
      WireAllCons(f, Walk(next).frames, Walk(next).rest);
    } else {
      assert Walk(data) == Walked([], data);
      assert WireAll([]) + data == data;
    }
  }

  lemma {:induction false} WireAllAppend(a: seq<Frame>, b: seq<Frame>)
    requires AllRepresentable(a) && AllRepresentable(b)
    ensures WireAll(a + b) == WireAll(a) + WireAll(b)
  {
    if a == [] {
      assert a + b == b;
    } else {
      assert (a + b)[1..] == a[1..] + b;
      WireAllAppend(a[1..], b);
    }
  }

  // ---------- the C functions ----------

  /** The struct that the decoder fills.  The payload is a position in the source buffer, not a copy. */
  class FrameView {
    var crc: word
    var kind: byte
    var seqNo: byte
    var commandSet: byte
    var commandId: byte
    var msgLen: word
    var payloadAt: Option<nat>
    var frameSize: nat

    constructor ()
    {
      crc, kind, seqNo, commandSet, commandId := 0, 0, 0, 0, 0;
      msgLen, payloadAt, frameSize := 0, None, 0;
    }

    /** The view denotes frame `f` of buffer `data`. */
    ghost predicate Denotes(data: array<byte>, f: Frame)
      reads this, data
    {
      && f.crc == crc && f.kind == kind && f.seqNo == seqNo
      && f.commandSet == commandSet && f.commandId == commandId
      && |f.payload| == msgLen && frameSize == f.Size()
      && (payloadAt.None? <==> msgLen == 0)
      && (payloadAt.Some? ==> payloadAt.value + msgLen <= data.Length
                              && data[payloadAt.value..payloadAt.value + msgLen] == f.payload)
    }
  }

  /** Decodes one frame at the start of the `len` bytes of `data` from `off` on. */
  method ProtoDecode(data: array?<byte>, off: nat, len: nat, out: FrameView?) returns (st: Option<Status>)
    requires data != null ==> off + len <= data.Length
    modifies out
    ensures data == null || out == null ==> st == Some(Arg)
    ensures data != null && out != null ==>
              match Decode(data[off..off + len])
              case Ok(f) => st == None && out.Denotes(data, f)
              case Err(e) => st == Some(e)
    ensures st.Some? && out != null ==> unchanged(out)
  {
    if data == null || out == null {
      return Some(Arg);
    }
    ghost var s := data[off..off + len];
    if len < HDR_LEN {
      return Some(Short);
    }
    if data[off] != MAGIC_0 || data[off + 1] != MAGIC_1 {
      return Some(Magic);
    }
    var plen := BigEndian(data[off + 8], data[off + 9]);
    var frameSize := HDR_LEN + plen;
    if frameSize > len {
      return Some(Trunc);
    }
    if plen > PAYLOAD_MAX {
      return Some(Trunc);
    }
    ghost var body := data[off + HDR_LEN..off + HDR_LEN + plen];
    SliceSlice(data[..], off, off + len, HDR_LEN, HDR_LEN + plen);
    assert s[HDR_LEN..HDR_LEN + plen] == body;
    out.crc := BigEndian(data[off + 2], data[off + 3]);
    out.kind := data[off + 4];
    out.seqNo := data[off + 5];
    out.commandSet := data[off + 6];
    out.commandId := data[off + 7];
    out.msgLen := plen;
    out.payloadAt := if plen > 0 then Some(off + HDR_LEN) else None;
    out.frameSize := frameSize;
    assert data[off + HDR_LEN..off + HDR_LEN + plen] == body;
    return None;
  }

  /** The encoder's result: bytes written, or the reason for refusing. */
  datatype Encoded = Written(bytes: nat) | Refused(status: Status)

  method PutHeader(out: array<byte>, kind: byte, seqNo: byte, commandSet: byte, commandId: byte, plen: word)
    requires HDR_LEN <= out.Length
    modifies out
    ensures out[..HDR_LEN] == [MAGIC_0, MAGIC_1, 0, 0, kind, seqNo, commandSet, commandId,
                               plen / 256, plen % 256]
    ensures out[HDR_LEN..] == old(out[HDR_LEN..])
  {
    out[0], out[1], out[2], out[3] := MAGIC_0, MAGIC_1, 0, 0;
    out[4], out[5], out[6], out[7] := kind, seqNo, commandSet, commandId;
    out[8], out[9] := plen / 256, plen % 256;
  }

  method PutPayload(out: array<byte>, payload: array<byte>, plen: word)
    requires HDR_LEN + plen <= out.Length && plen <= payload.Length && out != payload
    modifies out
    ensures out[..HDR_LEN + plen] == old(out[..HDR_LEN]) + payload[..plen]
    ensures out[..HDR_LEN] == old(out[..HDR_LEN])
    ensures out[HDR_LEN + plen..] == old(out[HDR_LEN + plen..])
  {
    forall i | 0 <= i < plen {
      out[HDR_LEN + i] := payload[i];
    }
  }

  method ProtoEncode(out: array?<byte>, cap: nat, kind: byte, seqNo: byte, commandSet: byte,
                     commandId: byte, payload: array?<byte>, plen: word)
    returns (r: Encoded)
    requires out != null ==> cap <= out.Length
    requires payload != null ==> plen <= payload.Length
    requires out != null && payload != null ==> out != payload
    modifies out
    ensures out == null || (plen > 0 && payload == null) ==> r == Refused(Arg)
    ensures out != null && (plen > 0 ==> payload != null) && HDR_LEN + plen > cap ==> r == Refused(NoSpace)
    ensures r.Refused? && out != null ==> out[..] == old(out[..])
    ensures out != null && (plen > 0 ==> payload != null) && HDR_LEN + plen <= cap ==>
              && r == Written(HDR_LEN + plen)
              && out[..HDR_LEN + plen]
                 == Encode(Frame(0, kind, seqNo, commandSet, commandId,
                                 if payload == null then [] else payload[..plen]))
              && out[HDR_LEN + plen..] == old(out[HDR_LEN + plen..])
  {
    if out == null {
      return Refused(Arg);
    }
    if plen > 0 && payload == null {
      return Refused(Arg);
    }
    var total := HDR_LEN + plen;
    if total > cap {
      return Refused(NoSpace);
    }
    PutHeader(out, kind, seqNo, commandSet, commandId, plen);
    ghost var body := if payload == null then [] else payload[..plen];
    ghost var f := Frame(0, kind, seqNo, commandSet, commandId, body);
    assert out[..HDR_LEN] == Header(f);
    if plen > 0 {
      PutPayload(out, payload, plen);
    }
    assert out[..total] == out[..HDR_LEN] + body;
    return Written(total);
  }
}
