/** Cutting a byte stream into transport frames (egts/packet/reader.go). */
module Reader {
  import opened Bytes
  import opened Flags
  import opened Packets
  import Crc

  /** A frame with what follows it; a clean end of the stream; or an error, after which the
      connection is given up. */
  datatype Framing = Frame(raw: seq<byte>, rest: seq<byte>) | EndOfStream | Broken

  /** The frame at the front of a stream. */
  function NextFrame(s: seq<byte>): Framing {
    if s == [] then EndOfStream
    else if |s| < 10 then Broken
    else
      var hl := HeaderLength(Bits8(s[2])[2]);
      if s[0] != 1 || s[3] != hl || |s| < hl as nat || Crc.Crc8(s[..hl - 1]) != s[hl - 1] then Broken
      else
        var length := PacketLength(hl, U16(s[5..7]));
        if length > 65535 || |s| < length then Broken else Frame(s[..length], s[length..])
  }

  /** An io.Reader over octets already on the wire. */
  class Stream {
    var data: seq<byte>

    constructor (data: seq<byte>)
      ensures this.data == data
    {
      this.data := data;
    }

    /** io.ReadFull: all n octets, or failure; `empty` tells a clean end from a short read. */
    method ReadFull(n: nat) returns (b: Result<seq<byte>>, empty: bool)
      modifies this
      ensures b == if |old(data)| < n then Err else Ok(old(data)[..n])
      ensures b.Ok? ==> data == old(data)[n..]
      ensures empty <==> old(data) == [] && n > 0
    {
      empty := data == [] && n > 0;
      if |data| < n {
        b := Err;
      } else {
        b := Ok(data[..n]);
        data := data[n..];
      }
    }

    /** ReadFrame: the fixed part of the header, the rest of it, then the data it announces. */
    method ReadFrame() returns (r: Framing)
      modifies this
      ensures r == NextFrame(old(data))
      ensures r.Frame? ==> data == r.rest
    {
      hide Crc.Crc8, Bits8;
      ghost var s := data;
      var header, empty := ReadFull(10);
      if header.Err? {
        return if empty then EndOfStream else Broken;
      }
      var hl := HeaderLength(Bits8(header.value[2])[2]);
      if header.value[0] != 1 || header.value[3] != hl {
        return Broken;
      }
      var more, _ := ReadFull(hl - 10);
      if more.Err? {
        return Broken;
      }
      var raw := header.value + more.value;
      assert raw == s[..hl];
      assert raw[..hl - 1] == s[..hl - 1] && raw[5..7] == s[5..7];
      if Crc.Crc8(raw[..hl - 1]) != raw[hl - 1] {
        return Broken;
      }
      var bodyLength: nat := U16(raw[5..7]);
      if bodyLength > 0 {
        bodyLength := bodyLength + 2;
      }
      if hl + bodyLength > 65535 {
        return Broken;
      }
      var body, _ := ReadFull(bodyLength);
      if body.Err? {
        return Broken;
      }
      assert raw + body.value == s[..hl + bodyLength];
      return Frame(raw + body.value, data);
    }
  }

  /** A packet ReadPacket accepts, followed by anything, is read as exactly that packet. */
  lemma AcceptedIsFramed(b: seq<byte>, rest: seq<byte>)
    requires ReadPacket(b).Accepted?
    ensures NextFrame(b + rest) == Frame(b, rest)
  {
    hide ReadPacket;
    AcceptedEnvelope(b, ReadPacket(b).p);
    EnvelopeIsFramed(b, rest);
  }

  lemma EnvelopeIsFramed(b: seq<byte>, rest: seq<byte>)
    requires Envelope(b)
    ensures NextFrame(b + rest) == Frame(b, rest)
  {
    hide Crc.Crc8, Crc.Crc16, Bits8;
    var s := b + rest;
    var n: nat := b[3] - 1;
    assert s[2] == b[2] && s[3] == b[3] && s[n] == b[n];
    assert s[5..7] == b[5..7] && s[..n] == b[..n];
    assert s[..|b|] == b && s[|b|..] == rest;
  }

  /** All frames of a stream that ends cleanly. */
  function AllFrames(s: seq<byte>): Result<seq<seq<byte>>>
    decreases |s|
  {
    match NextFrame(s)
    case EndOfStream => Ok([])
    case Broken => Err
    case Frame(raw, rest) =>
      FrameShortens(s);
      Prepend([raw], AllFrames(rest))
  }

  lemma FrameShortens(s: seq<byte>)
    requires NextFrame(s).Frame?
    ensures |NextFrame(s).rest| < |s|
  {
    hide Crc.Crc8;
  }

  function Flatten(packets: seq<seq<byte>>): seq<byte> {
    if packets == [] then [] else packets[0] + Flatten(packets[1..])
  }

  /** A concatenation of accepted packets splits back into the same list. */
  lemma {:induction false} FramesOfConcatenation(packets: seq<seq<byte>>)
    requires forall i :: 0 <= i < |packets| ==> ReadPacket(packets[i]).Accepted?
    ensures AllFrames(Flatten(packets)) == Ok(packets)
    decreases |packets|
  {
    FlattenStep(packets);
    hide ReadPacket, NextFrame, AllFrames, Flatten;
    if packets == [] {
      NothingFramed();
    } else {
      var rest := Flatten(packets[1..]);
      AcceptedIsFramed(packets[0], rest);
      FrameThenRest(packets[0], rest);
      FramesOfConcatenation(packets[1..]);
      assert [packets[0]] + packets[1..] == packets;
    }
  }

  lemma FlattenStep(packets: seq<seq<byte>>)
    ensures Flatten(packets) == if packets == [] then [] else packets[0] + Flatten(packets[1..])
  {
  }

  lemma NothingFramed()
    ensures AllFrames([]) == Ok([])
  {
  }

  lemma FrameThenRest(b: seq<byte>, rest: seq<byte>)
    requires NextFrame(b + rest) == Frame(b, rest)
    ensures AllFrames(b + rest) == Prepend([b], AllFrames(rest))
  {
    hide NextFrame;
  }

  /** A frame ReadFrame returns never fails ReadPacket for its length, its header checksum or its
      protocol version, and its type and identifier are always known to the answer. */
  lemma FramePassesHeader(s: seq<byte>, raw: seq<byte>)
    requires NextFrame(s).Frame? && raw == NextFrame(s).raw
    ensures |raw| >= 11
    ensures var r := ReadPacket(raw);
            r.Rejected? ==>
              r.code != PC_INVDATALEN && r.code != PC_HEADERCRC_ERROR && r.code != PC_UNS_PROTOCOL
              && r.pt == raw[9] && r.pid == U16(raw[7..9])
  {
    hide Crc.Crc8, Crc.Crc16, DecodeFrame, Bits8;
    var hl := HeaderLength(Bits8(s[2])[2]);
    assert raw[2] == s[2] && raw[3] == s[3] && raw[5..7] == s[5..7] && raw[..hl - 1] == s[..hl - 1];
    assert HeaderFault(raw, Header(raw)) != PC_INVDATALEN;
  }
}
