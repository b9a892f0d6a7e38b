/** From one program's packet to the other's: packing, partial sends, any chunking, reassembly, unpacking. */
module Pipeline {
  import opened Bytes
  import opened Packets
  import opened Protocol
  import opened Ring
  import opened Network

  datatype Result<+T> = NotSent | NotReceived | Got(opcode: byte, packet: T)

  /** Send a packed buffer and receive it at the other end, where `more` follows on the same connection. */
  method Transport(b: Buffer, more: seq<byte>, plan: seq<nat>, capacity: nat) returns (rc: int, r: Buffer?, opcode: byte)
    requires b.Valid() && b.size >= HEADLEN && UnBE(b.View()[1..5]) == b.size
    requires capacity >= 9 && b.size - HEADLEN <= capacity
    ensures rc == 0 || rc == -1
    ensures r != null <==> rc == 0 && !Stalls(plan)
    ensures r != null ==> fresh(r) && r.Valid() && r.pos == 0 && r.View() == b.View() && opcode == b.View()[0]
  {
    hide UnBE, RingBuffer.Contents, Lossless;
    r, opcode := null, 0;
    var outgoing := new OutSocket();
    var sent;
    rc, sent := SendAll(outgoing, b.data, b.size);
    if rc != 0 { return; }
    ghost var frame := b.View();
    assert outgoing.wire == frame;
    assert (frame + more)[1..5] == frame[1..5] && (frame + more)[..b.size] == frame;
    var incoming := new InSocket(outgoing.wire + more, plan);
    var space := new byte[capacity];
    var ring := new RingBuffer(space);
    r, opcode := RecvPacket(incoming, ring);
  }

  /** A PUBLISH arrives when the sends complete and the first receive finds something. What arrives is what was built
      exactly when the strings contain no NUL byte and the topic is shorter than 2^16 bytes. */
  method PublishEndToEnd(topic: seq<byte>, message: seq<byte>, qos: byte, retain: byte, dup: byte,
                         more: seq<byte>, plan: seq<nat>, capacity: nat)
    returns (rc: int, r: Result<Publish>)
    requires 16 + StrLen(topic) + StrLen(message) < 0x1_0000_0000
    requires capacity >= 9 && 11 + StrLen(topic) + StrLen(message) <= capacity
    ensures r.Got? <==> rc == 0 && !Stalls(plan)
    ensures r.Got? ==> r.opcode == PUBLISH
    ensures r.Got? ==>
              (r.packet == PublishPkt(topic, message, qos, retain, dup) <==> NulFree(topic) && NulFree(message) && |topic| < 0x1_0000)
    ensures r.Got? ==> (r.packet.topic == topic <==> NulFree(topic) && |topic| < 0x1_0000)
  {
    hide BE, UnBE, StrLen, Visible, HeaderBytes, NulFree, PublishBytes, ParsePublish, Stalls;
    var p := PublishPkt(topic, message, qos, retain, dup);
    var b := PackedPublish(p);
    PackedRoundTrip(topic, message, qos, retain, dup, b.View());
    var back, opcode;
    rc, back, opcode := Transport(b, more, plan, capacity);
    if rc != 0 { return rc, NotSent; }
    if back == null { return rc, NotReceived; }
    var q := UnpackPublish(back);
    r := Got(opcode, q);
  }

  lemma Rejoin(f: seq<byte>, w: seq<byte>)
    requires w <= f
    ensures f == w + f[|w|..]
  {
  }

  /** The round trip of a frame in a buffer of its size. */
  lemma PackedRoundTrip(topic: seq<byte>, message: seq<byte>, qos: byte, retain: byte, dup: byte, f: seq<byte>)
    requires 16 + StrLen(topic) + StrLen(message) < 0x1_0000_0000
    requires
      var p := PublishPkt(topic, message, qos, retain, dup);
      |f| == p.header.size && PublishBytes(|f|, p) <= f
    ensures
      var p := PublishPkt(topic, message, qos, retain, dup);
      && |f| >= HEADLEN && UnBE(f[1..5]) == |f| && f[0] == PUBLISH && PublishFits(f)
      && (ParsePublish(f) == p <==> NulFree(topic) && NulFree(message) && |topic| < 0x1_0000)
      && (ParsePublish(f).topic == topic <==> NulFree(topic) && |topic| < 0x1_0000)
  {
    hide UnBE, StrLen, Visible, NulFree, PublishBytes, ParsePublish, PublishFits, PublishPkt;
    var p := PublishPkt(topic, message, qos, retain, dup);
    PublishPktIs(topic, message, qos, retain, dup);
    PublishHeader(|f|, p, f);
    var w := PublishBytes(|f|, p);
    var pad := f[|w|..];
    Rejoin(f, w);
    VisibleLen(message);
    PublishRoundTrip(topic, message, qos, retain, dup, pad);
  }

  method SubscribeEndToEnd(topic: seq<byte>, qos: byte, more: seq<byte>, plan: seq<nat>, capacity: nat)
    returns (rc: int, r: Result<Subscribe>)
    requires 10 + StrLen(topic) < 0x1_0000_0000
    requires capacity >= 9 && 5 + StrLen(topic) <= capacity
    ensures r.Got? <==> rc == 0 && !Stalls(plan)
    ensures r.Got? ==> r.opcode == SUBSCRIBE && (r.packet == SubscribePkt(topic, qos) <==> NulFree(topic) && |topic| < 0x1_0000)
  {
    hide UnBE, StrLen, NulFree, SubscribeBytes, ParseSubscribe, Stalls;
    var p := SubscribePkt(topic, qos);
    var b := PackedSubscribe(p);
    PackedSubscribeRoundTrip(topic, qos, b.View());
    var back, opcode;
    rc, back, opcode := Transport(b, more, plan, capacity);
    if rc != 0 { return rc, NotSent; }
    if back == null { return rc, NotReceived; }
    var q := UnpackSubscribe(back);
    r := Got(opcode, q);
  }

  lemma PackedSubscribeRoundTrip(topic: seq<byte>, qos: byte, f: seq<byte>)
    requires 10 + StrLen(topic) < 0x1_0000_0000
    requires var p := SubscribePkt(topic, qos); |f| == p.header.size && SubscribeBytes(|f|, p) <= f
    ensures |f| >= HEADLEN && UnBE(f[1..5]) == |f| && f[0] == SUBSCRIBE && SubscribeFits(f)
    ensures ParseSubscribe(f) == SubscribePkt(topic, qos) <==> NulFree(topic) && |topic| < 0x1_0000
  {
    hide BE, UnBE, StrLen, Visible, HeaderBytes, NulFree, SubscribeBytes, ParseSubscribe, ParseHeader, SubscribePkt;
    var p := SubscribePkt(topic, qos);
    SubscribePktIs(topic, qos);
    VisibleLen(topic);
    var w := SubscribeBytes(|f|, p);
    SubscribeLayout(|f|, p, []);
    assert w + [] == w;
    var pad := f[|w|..];
    Rejoin(f, w);
    SubscribeLayout(|f|, p, pad);
    HeaderIs(f);
    SubscribeRoundTrip(topic, qos, pad);
  }

  method AckEndToEnd(kind: byte, id: nat, code: byte, more: seq<byte>, plan: seq<nat>, capacity: nat)
    returns (rc: int, r: Result<Ack>)
    requires capacity >= 9
    ensures r.Got? <==> rc == 0 && !Stalls(plan)
    ensures r.Got? ==> r.opcode == kind && r.packet == AckPkt(kind, id, code) && r.packet.rc == code
    ensures r.Got? ==> (r.packet.id == id <==> id < 0x1_0000)
  {
    hide BE, UnBE, HeaderBytes, Stalls;
    var p := AckPkt(kind, id, code);
    var b := PackedAck(p);
    AckRoundTrip(kind, id, code);
    assert b.View() == AckBytes(b.size, p);
    assert ParseAck(b.View()).header == p.header;
    var back, opcode;
    rc, back, opcode := Transport(b, more, plan, capacity);
    if rc != 0 { return rc, NotSent; }
    if back == null { return rc, NotReceived; }
    var q := UnpackAck(back);
    r := Got(opcode, q);
  }

  /** The broker relays a PUBLISH by unpacking it and packing it again into a buffer of the received size. A subscriber
      that receives the relayed frame unpacks what the broker unpacked exactly when no string contains a NUL byte. */
  method RelayEndToEnd(received: Buffer, more: seq<byte>, plan: seq<nat>, capacity: nat) returns (rc: int, r: Result<Publish>)
    requires received.Valid() && received.pos == 0 && GoodPublish(received.View())
    requires capacity >= 9 && received.size - HEADLEN <= capacity
    modifies received`pos
    ensures r.Got? <==> rc == 0 && !Stalls(plan)
    ensures r.Got? ==> r.opcode == received.View()[0]
    ensures r.Got? ==>
              var p := ParsePublish(received.View());
              r.packet == p <==> NulFree(p.topic) && NulFree(p.message)
  {
    hide BE, UnBE, StrLen, Visible, HeaderBytes, NulFree, PublishBytes, Stalls;
    ghost var f := received.View();
    var p := UnpackPublish(received);
    var b := PackedPublish(p);
    ghost var pad := b.View()[|PublishBytes(b.size, p)|..];
    assert b.View() == PublishBytes(b.size, p) + pad;
    RelayPreservesMeaning(f, pad);
    var back, opcode;
    rc, back, opcode := Transport(b, more, plan, capacity);
    if rc != 0 { return rc, NotSent; }
    if back == null { return rc, NotReceived; }
    var q := UnpackPublish(back);
    r := Got(opcode, q);
  }
}
