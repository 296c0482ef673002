/** AMS/TCP framing: the 6-byte TCP header, the 32-byte AMS header, the packet,
    and reading packets off a byte stream. */
module Ams {
  import opened Bytes
  import opened Outcomes

  type NetID = s: seq<byte> | |s| == 6 witness [0, 0, 0, 0, 0, 0]

  datatype TCPHeader = TCPHeader(reserved: u16, length: u32)

  datatype Header = Header(
    targetNetID: NetID, targetPort: u16,
    sourceNetID: NetID, sourcePort: u16,
    commandID: u16, stateFlags: u16,
    dataLength: u32, errorCode: u32, invokeID: u32)

  datatype PacketValue = PacketValue(tcp: TCPHeader, header: Header, data: seq<byte>)

  const STATE_FLAG_ADS: u16 := 0x0004
  const STATE_FLAGS_TCP_REQUEST: u16 := STATE_FLAG_ADS

  // ---------- wire format ----------

  function EncodeTCP(h: TCPHeader): (bs: seq<byte>)
    ensures |bs| == 6
  {
    Put16(h.reserved) + Put32(h.length)
  }

  function DecodeTCP(bs: seq<byte>): TCPHeader
    requires |bs| >= 6
  {
    TCPHeader(Get16(bs[0..2]), Get32(bs[2..6]))
  }

  function EncodeHeader(h: Header): (bs: seq<byte>)
    ensures |bs| == 32
  {
    h.targetNetID + Put16(h.targetPort) + h.sourceNetID + Put16(h.sourcePort)
    + Put16(h.commandID) + Put16(h.stateFlags)
    + Put32(h.dataLength) + Put32(h.errorCode) + Put32(h.invokeID)
  }

  function DecodeHeader(bs: seq<byte>): Header
    requires |bs| >= 32
  {
    Header(bs[0..6], Get16(bs[6..8]), bs[8..14], Get16(bs[14..16]),
           Get16(bs[16..18]), Get16(bs[18..20]),
           Get32(bs[20..24]), Get32(bs[24..28]), Get32(bs[28..32]))
  }

  function EncodePacket(p: PacketValue): (bs: seq<byte>)
    ensures |bs| == 38 + |p.data|
  {
    EncodeTCP(p.tcp) + EncodeHeader(p.header) + p.data
  }

  lemma DecodeEncodeTCP(h: TCPHeader, tail: seq<byte>)
    ensures DecodeTCP(EncodeTCP(h) + tail) == h
  {
    var bs := EncodeTCP(h) + tail;
    assert bs[0..2] == Put16(h.reserved);
    assert bs[2..6] == Put32(h.length);
  }

  lemma EncodeDecodeTCP(bs: seq<byte>)
    requires |bs| >= 6
    ensures EncodeTCP(DecodeTCP(bs)) == bs[..6]
  {
    PutGet16(bs[0..2]);
    PutGet32(bs[2..6]);
    assert bs[..6] == bs[0..2] + bs[2..6];
  }

  lemma DecodeEncodeHeader(h: Header, tail: seq<byte>)
    ensures DecodeHeader(EncodeHeader(h) + tail) == h
  {
    hide Put16, Put32, Get16, Get32;
    var bs := EncodeHeader(h) + tail;
    assert bs[0..6] == h.targetNetID;
    assert bs[6..8] == Put16(h.targetPort);
    assert bs[8..14] == h.sourceNetID;
    assert bs[14..16] == Put16(h.sourcePort);
    assert bs[16..18] == Put16(h.commandID);
    assert bs[18..20] == Put16(h.stateFlags);
    assert bs[20..24] == Put32(h.dataLength);
    assert bs[24..28] == Put32(h.errorCode);
    assert bs[28..32] == Put32(h.invokeID);
  }

  lemma EncodeDecodeHeader(bs: seq<byte>)
    requires |bs| >= 32
    ensures EncodeHeader(DecodeHeader(bs)) == bs[..32]
  {
    hide Put16, Put32, Get16, Get32;
    PutGet16(bs[6..8]);
    PutGet16(bs[14..16]);
    PutGet16(bs[16..18]);
    PutGet16(bs[18..20]);
    PutGet32(bs[20..24]);
    PutGet32(bs[24..28]);
    PutGet32(bs[28..32]);
    SliceJoin(bs, 0, 6, 8);
    SliceJoin(bs, 0, 8, 14);
    SliceJoin(bs, 0, 14, 16);
    SliceJoin(bs, 0, 16, 18);
    SliceJoin(bs, 0, 18, 20);
    SliceJoin(bs, 0, 20, 24);
    SliceJoin(bs, 0, 24, 28);
    SliceJoin(bs, 0, 28, 32);
  }

  /** Where the fields of a packet stand on the wire. */
  lemma PacketLayout(p: PacketValue)
    ensures var bs := EncodePacket(p);
            && Get16(bs[0..2]) == p.tcp.reserved && Get32(bs[2..6]) == p.tcp.length
            && bs[6..12] == p.header.targetNetID && Get16(bs[12..14]) == p.header.targetPort
            && bs[14..20] == p.header.sourceNetID && Get16(bs[20..22]) == p.header.sourcePort
            && Get16(bs[22..24]) == p.header.commandID && Get16(bs[24..26]) == p.header.stateFlags
            && Get32(bs[26..30]) == p.header.dataLength && Get32(bs[30..34]) == p.header.errorCode
            && Get32(bs[34..38]) == p.header.invokeID && bs[38..] == p.data
  {
    hide Put16, Put32, Get16, Get32;
    var h, bs := p.header, EncodePacket(p);
    assert bs[0..2] == Put16(p.tcp.reserved);
    assert bs[2..6] == Put32(p.tcp.length);
    assert bs[12..14] == Put16(h.targetPort);
    assert bs[20..22] == Put16(h.sourcePort);
    assert bs[22..24] == Put16(h.commandID);
    assert bs[24..26] == Put16(h.stateFlags);
    assert bs[26..30] == Put32(h.dataLength);
    assert bs[30..34] == Put32(h.errorCode);
    assert bs[34..38] == Put32(h.invokeID);
  }

  /** Both decoders look only at their own bytes. */
  lemma DecodePrefix(bs: seq<byte>)
    ensures |bs| >= 6 ==> DecodeTCP(bs[0..6]) == DecodeTCP(bs)
    ensures |bs| >= 32 ==> DecodeHeader(bs[0..32]) == DecodeHeader(bs)
  {
    if |bs| >= 6 {
      assert bs[0..6][0..2] == bs[0..2] && bs[0..6][2..6] == bs[2..6];
    }
    if |bs| >= 32 {
      EncodeDecodeHeader(bs);
      DecodeEncodeHeader(DecodeHeader(bs), []);
      assert EncodeHeader(DecodeHeader(bs)) + [] == bs[0..32];
    }
  }

  /** The two length fields agree with the payload. */
  predicate Consistent(p: PacketValue) {
    && p.header.dataLength == |p.data|
    && p.tcp.length == 32 + |p.data|
  }

  // ---------- header codecs, filling a buffer ----------

  method MarshalTCP(h: TCPHeader) returns (bytes: seq<byte>)
    ensures bytes == EncodeTCP(h)
  {
    var buf := MakeBuffer(6);
    CopyInto(buf, 0, Put16(h.reserved));
    CopyInto(buf, 2, Put32(h.length));
    bytes := buf[..];
  }

  method UnmarshalTCP(data: seq<byte>) returns (r: Outcome<TCPHeader>)
    ensures r == if |data| < 6 then Err else Ok(DecodeTCP(data))
    ensures |data| >= 6 ==> EncodeTCP(r.value) == data[..6]
  {
    if |data| < 6 {
      return Err;
    }
    EncodeDecodeTCP(data);
    r := Ok(TCPHeader(Get16(data[0..2]), Get32(data[2..6])));
  }

  method MarshalHeader(h: Header) returns (bytes: seq<byte>)
    ensures bytes == EncodeHeader(h)
  {
    hide Put16, Put32, Overlay;
    var buf := MakeBuffer(32);
    CopyInto(buf, 0, h.targetNetID);
    CopyInto(buf, 6, Put16(h.targetPort));
    CopyInto(buf, 8, h.sourceNetID);
    CopyInto(buf, 14, Put16(h.sourcePort));
    CopyInto(buf, 16, Put16(h.commandID));
    CopyInto(buf, 18, Put16(h.stateFlags));
    assert buf[..20] == h.targetNetID + Put16(h.targetPort) + h.sourceNetID + Put16(h.sourcePort)
                        + Put16(h.commandID) + Put16(h.stateFlags);
    CopyInto(buf, 20, Put32(h.dataLength));
    CopyInto(buf, 24, Put32(h.errorCode));
    CopyInto(buf, 28, Put32(h.invokeID));
    assert buf[..32] == buf[..];
    bytes := buf[..];
  }

  method UnmarshalHeader(data: seq<byte>) returns (r: Outcome<Header>)
    ensures r == if |data| < 32 then Err else Ok(DecodeHeader(data))
    ensures |data| >= 32 ==> EncodeHeader(r.value) == data[..32]
  {
    if |data| < 32 {
      return Err;
    }
    EncodeDecodeHeader(data);
    r := Ok(DecodeHeader(data));
  }

  // ---------- packets ----------

  /** What Packet.UnmarshalBinary leaves in the receiver: a zero data length keeps the old data. */
  function Unmarshalled(before: PacketValue, data: seq<byte>): (r: Outcome<PacketValue>)
  {
    if |data| < 38 then Err
    else
      var tcp := DecodeTCP(data);
      var header := DecodeHeader(data[6..38]);
      if Wrap32(|data|) < Wrap32(6 + tcp.length) then Err
      else if header.dataLength == 0 then Ok(PacketValue(tcp, header, before.data))
      else
        var end := Wrap32(38 + header.dataLength);
        if end < 38 || end > |data| then Panic
        else Ok(PacketValue(tcp, header, data[38..end] + Zeros(header.dataLength - (end - 38))))
  }

  /** The receiver after Packet.UnmarshalBinary, also when that fails: the headers are assigned before the
      lengths are checked, and the data is a fresh zeroed buffer before it is filled. */
  function Receiver(before: PacketValue, data: seq<byte>): PacketValue {
    match Unmarshalled(before, data)
    case Ok(p) => p
    case Err => if |data| < 38 then before else PacketValue(DecodeTCP(data), DecodeHeader(data[6..38]), before.data)
    case Panic =>
      var header := DecodeHeader(data[6..38]);
      PacketValue(DecodeTCP(data), header, Zeros(header.dataLength))
  }

  /** Decoding a marshalled packet, with any bytes following, returns it exactly when: a packet without data
      goes to a receiver without data, since a zero data length keeps the old data; the packet's size fits
      32 bits; and the buffer's size, taken in 32 bits, covers it. */
  lemma UnmarshalMarshal(p: PacketValue, before: PacketValue, tail: seq<byte>)
    requires Consistent(p)
    ensures Unmarshalled(before, EncodePacket(p) + tail) == Ok(p) <==>
              && (p.data == [] ==> before.data == [])
              && 38 + |p.data| < U32_MODULUS
              && 38 + |p.data| <= Wrap32(38 + |p.data| + |tail|)
  {
    hide EncodeTCP, DecodeTCP, EncodeHeader, DecodeHeader;
    var bs := EncodePacket(p) + tail;
    assert bs == EncodeTCP(p.tcp) + (EncodeHeader(p.header) + p.data + tail);
    DecodeEncodeTCP(p.tcp, EncodeHeader(p.header) + p.data + tail);
    assert bs[6..38] == EncodeHeader(p.header) + [];
    DecodeEncodeHeader(p.header, []);
    assert bs[38..38 + |p.data|] + Zeros(0) == p.data;
  }

  /** Marshalling a decoded packet returns the bytes exactly when the data length describes them; if it is
      zero, when what follows the header is what the receiver held. */
  lemma MarshalUnmarshal(bs: seq<byte>, before: PacketValue)
    requires Unmarshalled(before, bs).Ok?
    ensures var dataLength := DecodeHeader(bs[6..38]).dataLength;
            EncodePacket(Unmarshalled(before, bs).value) == bs <==>
              if dataLength == 0 then bs[38..] == before.data else |bs| == 38 + dataLength
  {
    hide EncodeTCP, DecodeTCP, EncodeHeader, DecodeHeader;
    EncodeDecodeTCP(bs);
    EncodeDecodeHeader(bs[6..38]);
    var p := Unmarshalled(before, bs).value;
    assert bs[6..38][..32] == bs[6..38];
    assert EncodePacket(p)[38..] == p.data;
    assert bs == bs[..6] + bs[6..38] + bs[38..];
    if |bs| == 38 + p.header.dataLength && p.header.dataLength > 0 {
      assert p.data == bs[38..];
    }
  }

  class Packet {
    var tcp: TCPHeader
    var header: Header
    var data: seq<byte>

    function View(): PacketValue
      reads this
    {
      PacketValue(tcp, header, data)
    }

    /** NewRequestPacket: the lengths are computed in uint32. */
    constructor Request(targetNetID: NetID, targetPort: u16, sourceNetID: NetID, sourcePort: u16,
                        commandID: u16, invokeID: u32, payload: seq<byte>)
      ensures View() == PacketValue(
                          TCPHeader(0, Wrap32(32 + |payload|)),
                          Header(targetNetID, targetPort, sourceNetID, sourcePort, commandID,
                                 STATE_FLAGS_TCP_REQUEST, Wrap32(|payload|), 0, invokeID),
                          payload)
      ensures header.stateFlags == 0x0004
      ensures 32 + |payload| < U32_MODULUS <==> Consistent(View())
    {
      tcp := TCPHeader(0, Wrap32(32 + Wrap32(|payload|)));
      header := Header(targetNetID, targetPort, sourceNetID, sourcePort, commandID,
                       STATE_FLAGS_TCP_REQUEST, Wrap32(|payload|), 0, invokeID);
      data := payload;
    }

    method MarshalBinary() returns (bytes: seq<byte>)
      ensures bytes == EncodePacket(View())
    {
      hide EncodeTCP, DecodeTCP, EncodeHeader, DecodeHeader;
      var tcpBuf := MarshalTCP(tcp);
      var amsBuf := MarshalHeader(header);
      var buf := MakeBuffer(|tcpBuf| + |amsBuf| + |data|);
      var offset := 0;
      CopyInto(buf, offset, tcpBuf);
      offset := offset + |tcpBuf|;
      CopyInto(buf, offset, amsBuf);
      offset := offset + |amsBuf|;
      CopyInto(buf, offset, data);
      bytes := buf[..];
    }

    /** Assigns the receiver's fields; the outcome is that of Unmarshalled. */
    method UnmarshalBinary(bytes: seq<byte>) returns (r: Outcome<()>)
      modifies this
      ensures match Unmarshalled(old(View()), bytes)
              case Ok(_) => r == Ok(())
              case Err => r == Err
              case Panic => r == Panic
      ensures View() == Receiver(old(View()), bytes)
    {
      hide EncodeTCP, DecodeTCP, EncodeHeader, DecodeHeader;
      if |bytes| < 38 {
        return Err;
      }
      var t := UnmarshalTCP(bytes[0..6]);
      DecodePrefix(bytes);
      tcp := t.value;
      var h := UnmarshalHeader(bytes[6..38]);
      header := h.value;
      var expectedLen := Wrap32(6 + tcp.length);
      if Wrap32(|bytes|) < expectedLen {
        return Err;
      }
      var dataLen := header.dataLength;
      if dataLen > 0 {
        var end := Wrap32(38 + dataLen);
        var fresh' := MakeBuffer(dataLen);
        data := fresh'[..];
        if end < 38 || end > |bytes| {
          return Panic;
        }
        CopyInto(fresh', 0, bytes[38..end]);
        data := fresh'[..];
        assert data == bytes[38..end] + Zeros(dataLen - (end - 38));
      }
      r := Ok(());
    }
  }

  // ---------- reading from a stream ----------

  /** One ReadPacket on the unread bytes of a stream: its outcome and what stays unread.
      A stream that ends early is read to its end. */
  function ReadOne(s: seq<byte>): (r: (Outcome<PacketValue>, seq<byte>))
    ensures |r.1| <= |s|
    ensures r.0.Ok? ==> |r.1| <= |s| - 38
  {
    if |s| < 6 then (Err, [])
    else
      var tcp := DecodeTCP(s);
      var rest := s[6..];
      if |rest| < tcp.length then (Err, [])
      else
        var payload := rest[..tcp.length];
        var unread := rest[tcp.length..];
        if tcp.length < 32 then (Panic, unread)
        else
          var header := DecodeHeader(payload);
          if header.dataLength == 0 then (Ok(PacketValue(tcp, header, [])), unread)
          else
            var end := Wrap32(32 + header.dataLength);
            if tcp.length < end then (Err, unread)
            else if end < 32 then (Panic, unread)
            else (Ok(PacketValue(tcp, header, payload[32..end])), unread)
  }

  /** Exactly the streams on which ReadPacket panics: the announced payload is there, and it is shorter than
      an AMS header or its data length overflows 32 bits with the header's. */
  lemma ReadPanicsExactly(s: seq<byte>)
    ensures ReadOne(s).0 == Panic <==>
              && |s| >= 6
              && var tcp := DecodeTCP(s);
              && 6 + tcp.length <= |s|
              && (tcp.length < 32 || DecodeHeader(s[6..6 + tcp.length]).dataLength >= U32_MODULUS - 32)
  {
    hide DecodeTCP, DecodeHeader;
    if |s| >= 6 && 6 + DecodeTCP(s).length <= |s| {
      assert s[6..][..DecodeTCP(s).length] == s[6..6 + DecodeTCP(s).length];
    }
  }

  /** Exactly the streams on which it returns an error: they end before the announced payload does, or the data
      length reaches beyond that. Any other returns the packet, with the data the header announces. */
  lemma ReadErrsExactly(s: seq<byte>)
    ensures ReadOne(s).0 == Err <==>
              || |s| < 6 || |s| < 6 + DecodeTCP(s).length
              || (DecodeTCP(s).length >= 32
                  && var needed := 32 + DecodeHeader(s[6..6 + DecodeTCP(s).length]).dataLength;
                  needed < U32_MODULUS && DecodeTCP(s).length < needed)
    ensures ReadOne(s).0.Ok? ==>
              var p, length := ReadOne(s).0.value, DecodeTCP(s).length;
              && 38 <= 6 + length <= |s| && p.tcp == DecodeTCP(s) && p.header == DecodeHeader(s[6..6 + length])
              && 38 + p.header.dataLength <= 6 + length && p.data == s[38..38 + p.header.dataLength]
              && ReadOne(s).1 == s[6 + length..]
  {
    hide DecodeTCP, DecodeHeader;
    if |s| >= 6 && 6 + DecodeTCP(s).length <= |s| {
      var length := DecodeTCP(s).length;
      assert s[6..][..length] == s[6..6 + length] && s[6..][length..] == s[6 + length..];
      if ReadOne(s).0.Ok? {
        var n := ReadOne(s).0.value.header.dataLength;
        assert s[6..6 + length][32..32 + n] == s[38..38 + n];
      }
    }
  }

  /** Six zero bytes announce an empty payload. */
  lemma ZeroFramePanics()
    ensures ReadOne([0, 0, 0, 0, 0, 0]).0 == Panic
  {
    var s: seq<byte> := [0, 0, 0, 0, 0, 0];
    assert s[0..2] == [0, 0] && s[2..6] == [0, 0, 0, 0];
    assert GetLE([0]) == 0 && GetLE([0, 0]) == 0 && GetLE([0, 0, 0]) == 0;
    assert DecodeTCP(s).length == 0;
    ReadPanicsExactly(s);
  }

  /** Up to n packets, stopping at the first failure. */
  function ReadMany(n: nat, s: seq<byte>): (r: (seq<PacketValue>, seq<byte>))
    ensures |r.0| <= n
  {
    if n == 0 then ([], s)
    else
      var (o, rest) := ReadOne(s);
      if o.Ok? then
        var (ps, rest') := ReadMany(n - 1, rest);
        ([o.value] + ps, rest')
      else ([], rest)
  }

  function EncodeMany(ps: seq<PacketValue>): seq<byte> {
    if ps == [] then [] else EncodePacket(ps[0]) + EncodeMany(ps[1..])
  }

  lemma ReadOneOfEncoded(p: PacketValue, tail: seq<byte>)
    requires Consistent(p)
    ensures ReadOne(EncodePacket(p) + tail) == (Ok(p), tail)
  {
    hide EncodeTCP, DecodeTCP, EncodeHeader, DecodeHeader;
    var s := EncodePacket(p) + tail;
    var after := EncodeHeader(p.header) + p.data + tail;
    assert s == EncodeTCP(p.tcp) + after;
    DecodeEncodeTCP(p.tcp, after);
    assert s[6..] == after;
    var payload := EncodeHeader(p.header) + p.data;
    assert after == payload + tail;
    assert after[..p.tcp.length] == payload;
    assert after[p.tcp.length..] == tail;
    DecodeEncodeHeader(p.header, p.data);
    assert payload[32..32 + |p.data|] == p.data;
  }

  /** Framing: a stream of marshalled packets is read back packet by packet, and the
      reader stops exactly at the end of the last one. */
  lemma {:induction false} ReadManyOfEncoded(ps: seq<PacketValue>, tail: seq<byte>)
    requires forall i :: 0 <= i < |ps| ==> Consistent(ps[i])
    ensures ReadMany(|ps|, EncodeMany(ps) + tail) == (ps, tail)
  {
    hide EncodePacket, ReadOne;
    if ps == [] {
      assert EncodeMany(ps) + tail == tail;
    } else {
      var rest := EncodeMany(ps[1..]) + tail;
      assert EncodeMany(ps) + tail == EncodePacket(ps[0]) + rest;
      ReadOneOfEncoded(ps[0], rest);
      ReadManyOfEncoded(ps[1..], tail);
      assert ps == [ps[0]] + ps[1..];
    }
  }

  /** The bytes a successful read consumes are the marshalled packet, exactly when the TCP
      length covers the AMS header and the data and nothing more. */
  lemma ReadOneIsExact(s: seq<byte>)
    requires ReadOne(s).0.Ok?
    ensures var (o, rest) := ReadOne(s);
            s == EncodePacket(o.value) + rest <==> o.value.tcp.length == 32 + o.value.header.dataLength
  {
    hide EncodeTCP, DecodeTCP, EncodeHeader, DecodeHeader;
    var (o, rest) := ReadOne(s);
    var p := o.value;
    var payload := s[6..][..p.tcp.length];
    EncodeDecodeTCP(s);
    EncodeDecodeHeader(payload);
    assert s == s[..6] + payload + rest;
    if p.tcp.length == 32 + p.header.dataLength {
      assert payload == payload[..32] + p.data;
      assert EncodePacket(p) + rest == s;
    } else {
      assert |s| == 6 + p.tcp.length + |rest|;
    }
  }

  /** An io.Reader over the bytes still to come. */
  class Stream {
    var unread: seq<byte>

    constructor (bytes: seq<byte>)
      ensures unread == bytes
    {
      unread := bytes;
    }

    /** io.ReadFull: n bytes, or everything that is left and an error. */
    method ReadFull(n: nat) returns (r: Outcome<seq<byte>>)
      modifies this
      ensures if n <= |old(unread)|
              then r == Ok(old(unread)[..n]) && unread == old(unread)[n..]
              else r == Err && unread == []
    {
      if n <= |unread| {
        r, unread := Ok(unread[..n]), unread[n..];
      } else {
        r, unread := Err, [];
      }
    }
  }

  method ReadPacket(s: Stream) returns (r: Outcome<PacketValue>)
    modifies s
    ensures (r, s.unread) == ReadOne(old(s.unread))
    ensures r.Ok? && r.value.tcp.length == 32 + r.value.header.dataLength
            ==> old(s.unread) == EncodePacket(r.value) + s.unread
  {
    hide EncodeTCP, DecodeTCP, EncodeHeader, DecodeHeader;
    ghost var before := s.unread;
    if ReadOne(before).0.Ok? { ReadOneIsExact(before); }
    var tcpBuf := s.ReadFull(6);
    if !tcpBuf.Ok? {
      return Err;
    }
    var t := UnmarshalTCP(tcpBuf.value);
    DecodePrefix(before);
    assert before[..6] == before[0..6];
    var tcp := t.value;
    var payloadBuf := s.ReadFull(tcp.length);
    if !payloadBuf.Ok? {
      return Err;
    }
    var payload := payloadBuf.value;
    if |payload| < 32 {
      return Panic;
    }
    var h := UnmarshalHeader(payload[0..32]);
    DecodePrefix(payload);
    var header := h.value;
    var data: seq<byte> := [];
    if header.dataLength > 0 {
      var end := Wrap32(32 + header.dataLength);
      if Wrap32(|payload|) < end {
        return Err;
      }
      if end < 32 {
        return Panic;
      }
      data := payload[32..end];
    }
    r := Ok(PacketValue(tcp, header, data));
  }
}
