/** The wire format of src/protocol.c: what each packer writes, what each unpacker reads, and how they relate. */
module Packets {
  import opened Bytes

  const CONNECT: byte := 0x10
  const CONNACK: byte := 0x20
  const PUBLISH: byte := 0x30
  const PUBACK: byte := 0x40
  const SUBSCRIBE: byte := 0x80
  const SUBACK: byte := 0x90
  const UNSUBSCRIBE: byte := 0xA0
  const PINGREQ: byte := 0xC0
  const PINGRESP: byte := 0xD0
  const HEADLEN: nat := 5

  datatype Header = Header(opcode: byte, size: nat)
  datatype Connect = Connect(header: Header, idlen: nat, id: seq<byte>, keepalive: nat, cleanSession: byte)
  datatype Subscribe = Subscribe(header: Header, topicLen: nat, qos: byte, topic: seq<byte>)
  datatype Unsubscribe = Unsubscribe(header: Header, topicLen: nat, topic: seq<byte>)
  datatype Publish = Publish(header: Header, topicLen: nat, messageLen: nat, qos: byte, retain: byte, dup: byte,
                             topic: seq<byte>, message: seq<byte>)
  datatype Ack = Ack(header: Header, id: nat, rc: byte)

  // ----- Building packets ------------------------------------------------------------------------

  function ConnectPkt(id: seq<byte>, keepalive: byte, cleanSession: byte): Connect {
    Connect(Header(CONNECT, (HEADLEN + StrLen(id) + 6) % 0x1_0000_0000), StrLen(id) % 0x1_0000, id, keepalive, cleanSession)
  }

  function SubscribePkt(topic: seq<byte>, qos: byte): Subscribe {
    Subscribe(Header(SUBSCRIBE, (HEADLEN + StrLen(topic) + 5) % 0x1_0000_0000), StrLen(topic) % 0x1_0000, qos, topic)
  }

  function UnsubscribePkt(topic: seq<byte>): Unsubscribe {
    Unsubscribe(Header(UNSUBSCRIBE, (HEADLEN + StrLen(topic) + 3) % 0x1_0000_0000), StrLen(topic) % 0x1_0000, topic)
  }

  function PublishPkt(topic: seq<byte>, message: seq<byte>, qos: byte, retain: byte, dup: byte): Publish {
    Publish(Header(PUBLISH, (HEADLEN + StrLen(topic) + StrLen(message) + 11) % 0x1_0000_0000),
            StrLen(topic) % 0x1_0000, StrLen(message) % 0x1_0000_0000, qos, retain, dup, topic, message)
  }

  lemma PublishPktIs(topic: seq<byte>, message: seq<byte>, qos: byte, retain: byte, dup: byte)
    ensures
      var p, n := PublishPkt(topic, message, qos, retain, dup), 16 + StrLen(topic) + StrLen(message);
      && p.header.opcode == PUBLISH && p.header.size < 0x1_0000_0000 && (n < 0x1_0000_0000 <==> p.header.size == n)
      && p.topicLen == StrLen(topic) % 0x1_0000 && p.messageLen == StrLen(message) % 0x1_0000_0000
      && p.qos == qos && p.retain == retain && p.dup == dup && p.topic == topic && p.message == message
  {
    hide StrLen;
  }

  lemma SubscribePktIs(topic: seq<byte>, qos: byte)
    ensures
      var p, n := SubscribePkt(topic, qos), 10 + StrLen(topic);
      && p.header.opcode == SUBSCRIBE && p.header.size < 0x1_0000_0000 && (n < 0x1_0000_0000 ==> p.header.size == n)
      && p.topic == topic && p.qos == qos
  {
    hide StrLen;
  }

  function AckPkt(opcode: byte, id: nat, rc: byte): Ack {
    Ack(Header(opcode, HEADLEN + 3), id % 0x1_0000, rc)
  }

  // ----- What the packers write ------------------------------------------------------------------

  /** `size` is the size of the buffer written to, not of the packet. */
  function HeaderBytes(opcode: byte, size: nat): (s: seq<byte>)
    ensures |s| == HEADLEN
  {
    [opcode] + BE(4, size)
  }

  function ConnectBytes(size: nat, p: Connect): seq<byte> {
    HeaderBytes(p.header.opcode, size) + BE(2, StrLen(p.id)) + Visible(p.id) + BE(2, p.keepalive) + [p.cleanSession]
  }

  function SubscribeBytes(size: nat, p: Subscribe): seq<byte> {
    HeaderBytes(p.header.opcode, size) + BE(2, StrLen(p.topic)) + [p.qos] + Visible(p.topic)
  }

  function UnsubscribeBytes(size: nat, p: Unsubscribe): seq<byte> {
    HeaderBytes(p.header.opcode, size) + BE(2, p.topicLen) + Visible(p.topic)
  }

  function PublishBytes(size: nat, p: Publish): seq<byte> {
    HeaderBytes(p.header.opcode, size) + BE(2, StrLen(p.topic)) + BE(4, StrLen(p.message))
    + [p.qos, p.retain, p.dup] + Visible(p.topic) + Visible(p.message)
  }

  function AckBytes(size: nat, p: Ack): seq<byte> {
    HeaderBytes(p.header.opcode, size) + BE(2, p.id) + [p.rc]
  }

  // ----- What the unpackers read -----------------------------------------------------------------

  function ParseHeader(f: seq<byte>): Header
    requires |f| >= HEADLEN
  {
    Header(f[0], UnBE(f[1..5]))
  }

  /** The length fields of the frame stay within it: what the unpackers assume without checking. */
  predicate ConnectFits(f: seq<byte>) {
    |f| >= 10 && 10 + UnBE(f[5..7]) <= |f|
  }

  function ParseConnect(f: seq<byte>): Connect
    requires ConnectFits(f)
  {
    var n := UnBE(f[5..7]);
    Connect(ParseHeader(f), n, f[10..10 + n], UnBE(f[8..10]), f[7])
  }

  predicate SubscribeFits(f: seq<byte>) {
    |f| >= 8 && 8 + UnBE(f[5..7]) <= |f|
  }

  function ParseSubscribe(f: seq<byte>): Subscribe
    requires SubscribeFits(f)
  {
    var n := UnBE(f[5..7]);
    Subscribe(ParseHeader(f), n, f[7], f[8..8 + n])
  }

  predicate UnsubscribeFits(f: seq<byte>) {
    |f| >= 7 && 7 + UnBE(f[5..7]) <= |f|
  }

  function ParseUnsubscribe(f: seq<byte>): Unsubscribe
    requires UnsubscribeFits(f)
  {
    var n := UnBE(f[5..7]);
    Unsubscribe(ParseHeader(f), n, f[7..7 + n])
  }

  predicate PublishFits(f: seq<byte>) {
    |f| >= 14 && 14 + UnBE(f[5..7]) + UnBE(f[7..11]) <= |f|
  }

  function ParsePublish(f: seq<byte>): Publish
    requires PublishFits(f)
  {
    var t, m := UnBE(f[5..7]), UnBE(f[7..11]);
    Publish(ParseHeader(f), t, m, f[11], f[12], f[13], f[14..14 + t], f[14 + t..14 + t + m])
  }

  function ParseAck(f: seq<byte>): Ack
    requires |f| >= 8
  {
    Ack(ParseHeader(f), UnBE(f[5..7]), f[7])
  }

  // ----- Where the unpackers find each field -------------------------------------------------------

  /** A header, a field of two bytes, others, two strings and anything. */
  lemma Slices(h: seq<byte>, a: seq<byte>, b: seq<byte>, t: seq<byte>, m: seq<byte>, pad: seq<byte>)
    requires |h| == HEADLEN && |a| == 2
    ensures
      var f, k := h + a + b + t + m + pad, 7 + |b|;
      && |f| == k + |t| + |m| + |pad| && f[..5] == h && f[5..7] == a && f[7..k] == b
      && f[k..k + |t|] == t && f[k + |t|..k + |t| + |m|] == m
  {
  }

  lemma Read2(f: seq<byte>, i: nat, v: nat)
    requires i + 2 <= |f| && f[i..i + 2] == BE(2, v) && v < 0x1_0000
    ensures UnBE(f[i..i + 2]) == v
  {
    hide BE, UnBE;
    Field2(v);
  }

  lemma Read4(f: seq<byte>, i: nat, v: nat)
    requires i + 4 <= |f| && f[i..i + 4] == BE(4, v) && v < 0x1_0000_0000
    ensures UnBE(f[i..i + 4]) == v
  {
    hide BE, UnBE;
    Field4(v);
  }

  lemma ReadHeader(f: seq<byte>, opcode: byte, size: nat)
    requires |f| >= HEADLEN && f[..5] == [opcode] + BE(4, size) && size < 0x1_0000_0000
    ensures ParseHeader(f) == Header(opcode, size)
  {
    hide BE, UnBE;
    assert f[0] == f[..5][0] && f[1..5] == f[..5][1..] == BE(4, size);
    Read4(f, 1, size);
  }

  /** A CONNECT is read as the length of the id, clean_session, keepalive and the id, which may be followed by anything. */
  lemma ConnectIsRead(opcode: byte, size: nat, cleanSession: byte, keepalive: nat, id: seq<byte>, pad: seq<byte>)
    requires size < 0x1_0000_0000 && |id| < 0x1_0000 && keepalive < 0x1_0000
    ensures
      var f := ([opcode] + BE(4, size)) + BE(2, |id|) + ([cleanSession] + BE(2, keepalive)) + id + pad;
      ConnectFits(f) && ParseConnect(f) == Connect(Header(opcode, size), |id|, id, keepalive, cleanSession)
  {
    hide BE, UnBE, ParseHeader;
    var h, a, b := [opcode] + BE(4, size), BE(2, |id|), [cleanSession] + BE(2, keepalive);
    var f := h + a + b + id + pad;
    assert h + a + b + id + [] == h + a + b + id;
    Slices(h, a, b, id, [], pad);
    ReadHeader(f, opcode, size);
    assert f[7] == f[7..10][0] && f[8..10] == f[7..10][1..] == BE(2, keepalive);
    Read2(f, 5, |id|);
    Read2(f, 8, keepalive);
  }

  lemma SubscribeIsRead(opcode: byte, size: nat, qos: byte, topic: seq<byte>, pad: seq<byte>)
    requires size < 0x1_0000_0000 && |topic| < 0x1_0000
    ensures
      var f := ([opcode] + BE(4, size)) + BE(2, |topic|) + [qos] + topic + pad;
      SubscribeFits(f) && ParseSubscribe(f) == Subscribe(Header(opcode, size), |topic|, qos, topic)
  {
    hide BE, UnBE, ParseHeader;
    var h, a := [opcode] + BE(4, size), BE(2, |topic|);
    var f := h + a + [qos] + topic + pad;
    assert h + a + [qos] + topic + [] == h + a + [qos] + topic;
    Slices(h, a, [qos], topic, [], pad);
    ReadHeader(f, opcode, size);
    assert f[7] == f[7..8][0];
    Read2(f, 5, |topic|);
  }

  lemma UnsubscribeIsRead(opcode: byte, size: nat, topic: seq<byte>, pad: seq<byte>)
    requires size < 0x1_0000_0000 && |topic| < 0x1_0000
    ensures
      var f := ([opcode] + BE(4, size)) + BE(2, |topic|) + topic + pad;
      UnsubscribeFits(f) && ParseUnsubscribe(f) == Unsubscribe(Header(opcode, size), |topic|, topic)
  {
    hide BE, UnBE, ParseHeader;
    var h, a := [opcode] + BE(4, size), BE(2, |topic|);
    var f := h + a + topic + pad;
    assert h + a + [] == h + a && h + a + topic + [] == h + a + topic;
    Slices(h, a, [], topic, [], pad);
    ReadHeader(f, opcode, size);
    Read2(f, 5, |topic|);
  }

  lemma PublishIsRead(opcode: byte, size: nat, qos: byte, retain: byte, dup: byte, topic: seq<byte>, message: seq<byte>,
                      pad: seq<byte>)
    requires size < 0x1_0000_0000 && |topic| < 0x1_0000 && |message| < 0x1_0000_0000
    ensures
      var f := ([opcode] + BE(4, size)) + BE(2, |topic|) + (BE(4, |message|) + [qos, retain, dup]) + topic + message + pad;
      && PublishFits(f)
      && ParsePublish(f) == Publish(Header(opcode, size), |topic|, |message|, qos, retain, dup, topic, message)
  {
    hide BE, UnBE, ParseHeader, PublishFits, ParsePublish;
    var h, a, b := [opcode] + BE(4, size), BE(2, |topic|), BE(4, |message|) + [qos, retain, dup];
    var f := h + a + b + topic + message + pad;
    Slices(h, a, b, topic, message, pad);
    ReadHeader(f, opcode, size);
    FourAndThree(f, BE(4, |message|), qos, retain, dup);
    Read2(f, 5, |topic|);
    Read4(f, 7, |message|);
    PublishOfSlices(f, topic, message);
  }

  lemma FourAndThree(f: seq<byte>, a: seq<byte>, x: byte, y: byte, z: byte)
    requires |f| >= 14 && |a| == 4 && f[7..14] == a + [x, y, z]
    ensures f[7..11] == a && f[11] == x && f[12] == y && f[13] == z
  {
    assert f[7..11] == f[7..14][..4];
    assert f[11] == f[7..14][4] && f[12] == f[7..14][5] && f[13] == f[7..14][6];
  }

  lemma PublishOfSlices(f: seq<byte>, topic: seq<byte>, message: seq<byte>)
    requires |f| >= 14 + |topic| + |message| && UnBE(f[5..7]) == |topic| && UnBE(f[7..11]) == |message|
    requires f[14..14 + |topic|] == topic && f[14 + |topic|..14 + |topic| + |message|] == message
    ensures PublishFits(f)
    ensures ParsePublish(f) == Publish(ParseHeader(f), |topic|, |message|, f[11], f[12], f[13], topic, message)
  {
    hide UnBE, ParseHeader;
  }

  lemma AckIsRead(opcode: byte, size: nat, id: nat, rc: byte, pad: seq<byte>)
    requires size < 0x1_0000_0000 && id < 0x1_0000
    ensures
      var f := ([opcode] + BE(4, size)) + BE(2, id) + [rc] + pad;
      |f| >= 8 && ParseAck(f) == Ack(Header(opcode, size), id, rc)
  {
    hide BE, UnBE, ParseHeader;
    var h, a := [opcode] + BE(4, size), BE(2, id);
    var f := h + a + [rc] + pad;
    assert h + a + [rc] + [] == h + a + [rc];
    Slices(h, a, [rc], [], [], pad);
    ReadHeader(f, opcode, size);
    assert f[7] == f[7..8][0];
    Read2(f, 5, id);
  }

  // ----- Round trips -----------------------------------------------------------------------------

  lemma HeaderRoundTrip(opcode: byte, size: nat, rest: seq<byte>)
    ensures ParseHeader(HeaderBytes(opcode, size) + rest) == Header(opcode, size % 0x1_0000_0000)
  {
    var f := HeaderBytes(opcode, size) + rest;
    assert f[1..5] == BE(4, size);
    ReadBack(4, size);
    Pows();
  }

  lemma Field2(v: nat)
    ensures UnBE(BE(2, v)) == v % 0x1_0000
  {
    hide BE, UnBE;
    ReadBack(2, v);
    Pows();
  }

  lemma Field4(v: nat)
    ensures UnBE(BE(4, v)) == v % 0x1_0000_0000
  {
    hide BE, UnBE;
    ReadBack(4, v);
    Pows();
  }

  /** A slice of a concatenation. */
  lemma Middle(f: seq<byte>, a: seq<byte>, b: seq<byte>, c: seq<byte>)
    requires f == a + b + c
    ensures f[|a|..|a| + |b|] == b
  {
  }

  lemma Before(x: seq<byte>, y: seq<byte>, i: nat, j: nat)
    requires i <= j <= |x|
    ensures (x + y)[i..j] == x[i..j]
  {
  }

  /** Where each field of a packed PUBLISH lies. */
  lemma PublishLayout(size: nat, p: Publish, pad: seq<byte>)
    ensures
      var f := PublishBytes(size, p) + pad;
      var t, m := Visible(p.topic), Visible(p.message);
      && |f| == 14 + |t| + |m| + |pad|
      && f[..5] == HeaderBytes(p.header.opcode, size)
      && f[5..7] == BE(2, StrLen(p.topic)) && f[7..11] == BE(4, StrLen(p.message))
      && f[11..14] == [p.qos, p.retain, p.dup]
      && f[14..14 + |t|] == t && f[14 + |t|..14 + |t| + |m|] == m
  {
  }

  lemma HeaderOf(f: seq<byte>, opcode: byte, size: nat)
    requires |f| >= HEADLEN && f[..5] == HeaderBytes(opcode, size)
    ensures ParseHeader(f) == Header(opcode, size % 0x1_0000_0000)
  {
    HeaderRoundTrip(opcode, size, f[5..]);
    assert f == f[..5] + f[5..];
  }

  lemma VisibleLen(s: seq<byte>)
    ensures |Visible(s)| == StrLen(s)
  {
  }

  lemma PublishHeader(size: nat, p: Publish, f: seq<byte>)
    requires PublishBytes(size, p) <= f
    ensures |f| >= |PublishBytes(size, p)| == 14 + StrLen(p.topic) + StrLen(p.message)
    ensures f[0] == p.header.opcode && UnBE(f[1..5]) == size % 0x1_0000_0000
  {
    hide BE, Visible, StrLen, HeaderBytes, UnBE, PublishBytes;
    var w := PublishBytes(size, p);
    PublishLayout(size, p, []);
    assert w + [] == w;
    VisibleLen(p.topic);
    VisibleLen(p.message);
    assert f[..5] == w[..5];
    HeaderOf(f, p.header.opcode, size);
  }

  /** What is unpacked from a packed PUBLISH: lengths as their fields hold them, and the strings when those suffice. */
  lemma PublishParsed(size: nat, p: Publish, pad: seq<byte>)
    ensures
      var f, t, m := PublishBytes(size, p) + pad, StrLen(p.topic), StrLen(p.message);
      && PublishFits(f)
      && var q := ParsePublish(f);
         && q.header == Header(p.header.opcode, size % 0x1_0000_0000)
         && q.topicLen == t % 0x1_0000 && q.messageLen == m % 0x1_0000_0000
         && q.qos == p.qos && q.retain == p.retain && q.dup == p.dup
         && |q.topic| == q.topicLen && |q.message| == q.messageLen
         && (t < 0x1_0000 ==> q.topic == Visible(p.topic))
         && (t < 0x1_0000 && m < 0x1_0000_0000 ==> q.message == Visible(p.message))
  {
    hide BE, Visible, StrLen, ParseHeader, HeaderBytes, UnBE, PublishBytes;
    var f := PublishBytes(size, p) + pad;
    PublishLayout(size, p, pad);
    HeaderOf(f, p.header.opcode, size);
    VisibleLen(p.topic);
    VisibleLen(p.message);
    Field2(StrLen(p.topic));
    Field4(StrLen(p.message));
    assert f[11] == f[11..14][0] && f[12] == f[11..14][1] && f[13] == f[11..14][2];
  }

  /** Unpacking a packed PUBLISH, whatever padding follows it, gives back the packet exactly when neither string contains
      a NUL byte and both are shorter than their length fields can say: a longer topic or message is cut. The size in its
      header is that of the frame exactly when the frame has less than 2^32 bytes. */
  lemma PublishRoundTrip(topic: seq<byte>, message: seq<byte>, qos: byte, retain: byte, dup: byte, pad: seq<byte>)
    requires |pad| == 2
    ensures
      var p := PublishPkt(topic, message, qos, retain, dup);
      var f := PublishBytes(p.header.size, p) + pad;
      && (|f| == p.header.size <==> 16 + StrLen(topic) + StrLen(message) < 0x1_0000_0000)
      && PublishFits(f)
      && (ParsePublish(f) == p <==> NulFree(topic) && NulFree(message) && |topic| < 0x1_0000 && |message| < 0x1_0000_0000)
      && (ParsePublish(f).topic == topic <==> NulFree(topic) && |topic| < 0x1_0000)
  {
    hide Visible, StrLen, PublishBytes, NulFree, ParsePublish, PublishFits, PublishPkt;
    var p := PublishPkt(topic, message, qos, retain, dup);
    PublishPktIs(topic, message, qos, retain, dup);
    PublishHeader(p.header.size, p, PublishBytes(p.header.size, p));
    PublishParsed(p.header.size, p, pad);
    VisibleLen(topic);
    VisibleLen(message);
    var q := ParsePublish(PublishBytes(p.header.size, p) + pad);
    SmallMod(p.header.size, 0x1_0000_0000);
    if NulFree(topic) && NulFree(message) && |topic| < 0x1_0000 && |message| < 0x1_0000_0000 { assert q == p; }
  }

  lemma SmallMod(n: nat, m: nat)
    requires n < m
    ensures n % m == n
  {
  }

  lemma SubscribeLayout(size: nat, p: Subscribe, pad: seq<byte>)
    ensures
      var f := SubscribeBytes(size, p) + pad;
      var t := Visible(p.topic);
      && |f| == 8 + |t| + |pad|
      && ParseHeader(f) == Header(p.header.opcode, size % 0x1_0000_0000)
      && f[5..7] == BE(2, StrLen(p.topic)) && f[7] == p.qos && f[8..8 + |t|] == t
  {
    hide BE, Visible, StrLen, ParseHeader, HeaderBytes, UnBE;
    var f := SubscribeBytes(size, p) + pad;
    var h, a, t := HeaderBytes(p.header.opcode, size), BE(2, StrLen(p.topic)), Visible(p.topic);
    HeaderRoundTrip(p.header.opcode, size, a + [p.qos] + t + pad);
    assert f == h + (a + [p.qos] + t + pad);
    Middle(f, h, a, [p.qos] + t + pad);
    Middle(f, h + a + [p.qos], t, pad);
  }

  lemma SubscribeRoundTrip(topic: seq<byte>, qos: byte, pad: seq<byte>)
    requires |pad| == 2
    ensures
      var p := SubscribePkt(topic, qos);
      var f := SubscribeBytes(p.header.size, p) + pad;
      && (|f| == p.header.size <==> 10 + StrLen(topic) < 0x1_0000_0000)
      && SubscribeFits(f)
      && (ParseSubscribe(f) == p <==> NulFree(topic) && |topic| < 0x1_0000)
      && (ParseSubscribe(f).topic == topic <==> NulFree(topic) && |topic| < 0x1_0000)
  {
    hide BE, Visible, StrLen, ParseHeader, HeaderBytes, UnBE, SubscribeBytes, NulFree;
    var p := SubscribePkt(topic, qos);
    SubscribeLayout(p.header.size, p, pad);
    VisibleLen(topic);
    Field2(StrLen(topic));
  }

  lemma UnsubscribeLayout(size: nat, p: Unsubscribe, pad: seq<byte>)
    ensures
      var f := UnsubscribeBytes(size, p) + pad;
      var t := Visible(p.topic);
      && |f| == 7 + |t| + |pad|
      && ParseHeader(f) == Header(p.header.opcode, size % 0x1_0000_0000)
      && f[5..7] == BE(2, p.topicLen) && f[7..7 + |t|] == t
  {
    hide BE, Visible, StrLen, ParseHeader, HeaderBytes, UnBE;
    var f := UnsubscribeBytes(size, p) + pad;
    var h, a, t := HeaderBytes(p.header.opcode, size), BE(2, p.topicLen), Visible(p.topic);
    HeaderRoundTrip(p.header.opcode, size, a + t + pad);
    assert f == h + (a + t + pad);
    Middle(f, h, a, t + pad);
    Middle(f, h + a, t, pad);
  }

  lemma UnsubscribeRoundTrip(topic: seq<byte>, pad: seq<byte>)
    requires |pad| == 1
    ensures
      var p := UnsubscribePkt(topic);
      var f := UnsubscribeBytes(p.header.size, p) + pad;
      && (|f| == p.header.size <==> 8 + StrLen(topic) < 0x1_0000_0000)
      && UnsubscribeFits(f)
      && (ParseUnsubscribe(f) == p <==> NulFree(topic) && |topic| < 0x1_0000)
      && (ParseUnsubscribe(f).topic == topic <==> NulFree(topic) && |topic| < 0x1_0000)
  {
    hide BE, Visible, StrLen, ParseHeader, HeaderBytes, UnBE, UnsubscribeBytes, NulFree;
    var p := UnsubscribePkt(topic);
    UnsubscribeLayout(p.header.size, p, pad);
    VisibleLen(topic);
    Field2(p.topicLen);
  }

  lemma AckRoundTrip(opcode: byte, id: nat, rc: byte)
    ensures
      var p := AckPkt(opcode, id, rc);
      var f := AckBytes(p.header.size, p);
      |f| == p.header.size && ParseAck(f) == p
  {
    hide BE, ParseHeader, HeaderBytes, UnBE;
    var p := AckPkt(opcode, id, rc);
    var f := AckBytes(p.header.size, p);
    var h, a := HeaderBytes(p.header.opcode, p.header.size), BE(2, p.id);
    HeaderRoundTrip(p.header.opcode, p.header.size, a + [p.rc]);
    assert f == h + (a + [p.rc]);
    Middle(f, h, a, [p.rc]);
    Field2(p.id);
  }

  lemma ConnectLayout(size: nat, p: Connect, pad: seq<byte>)
    ensures
      var f, n := ConnectBytes(size, p) + pad, StrLen(p.id);
      && |f| == 10 + n + |pad|
      && ParseHeader(f) == Header(p.header.opcode, size % 0x1_0000_0000)
      && f[5..7] == BE(2, n) && f[7..10 + n] == Visible(p.id) + BE(2, p.keepalive) + [p.cleanSession]
  {
    hide BE, Visible, StrLen, ParseHeader, HeaderBytes, UnBE;
    var f := ConnectBytes(size, p) + pad;
    VisibleLen(p.id);
    var h, a, w := HeaderBytes(p.header.opcode, size), BE(2, StrLen(p.id)), Visible(p.id) + BE(2, p.keepalive) + [p.cleanSession];
    HeaderRoundTrip(p.header.opcode, size, a + w + pad);
    assert f == h + (a + w + pad);
    Middle(f, h, a, w + pad);
    Middle(f, h + a, w, pad);
  }

  /** The fields of a CONNECT that is not cut: `w` is what follows the length of the id. */
  lemma ConnectFields(id: seq<byte>, keepalive: byte, cleanSession: byte, f: seq<byte>, w: seq<byte>)
    requires NulFree(id) && |id| < 0x1_0000 && w == id + BE(2, keepalive) + [cleanSession]
    requires |f| == 11 + |id| && f[7..10 + |id|] == w && UnBE(f[5..7]) == |id|
    ensures
      var p := ParseConnect(f);
      (p.id == id && p.keepalive == keepalive && p.cleanSession == cleanSession) <==>
        id == [cleanSession] || (id == [] && keepalive == 0 && cleanSession == 0)
  {
    hide BE, ParseHeader, UnBE;
    var n := |id|;
    assert f[7] == f[7..10 + n][0] && f[8..10] == f[7..10 + n][1..3] && f[10..10 + n] == f[7..10 + n][3..];
    SmallField(keepalive);
    TwoBytes(w[1..3]);
    if id == [cleanSession] {
      assert w == [cleanSession, 0, keepalive, cleanSession];
      assert w[3..] == id;
    } else if id == [] {
      assert w == [0, keepalive, cleanSession];
      assert w[3..] == id;
    } else if n == 1 {
      assert w[3..] == [cleanSession];
    } else {
      assert w[1] == id[1] != 0;
    }
  }

  /** CONNECT is written as id, keepalive, clean_session and read as clean_session, keepalive, id. The two agree only
      for an empty id with both values zero, or an id that is the one byte `cleanSession`. */
  lemma ConnectRoundTrip(id: seq<byte>, keepalive: byte, cleanSession: byte, pad: seq<byte>)
    requires |pad| == 1
    ensures
      var p := ConnectPkt(id, keepalive, cleanSession);
      var f := ConnectBytes(p.header.size, p) + pad;
      && (|f| == p.header.size <==> 11 + StrLen(id) < 0x1_0000_0000)
      && ConnectFits(f)
      && (ParseConnect(f) == p <==>
            NulFree(id) && (id == [cleanSession] || (id == [] && keepalive == 0 && cleanSession == 0)))
  {
    hide BE, Visible, StrLen, ParseHeader, HeaderBytes, UnBE, ConnectBytes, NulFree;
    var p := ConnectPkt(id, keepalive, cleanSession);
    var f := ConnectBytes(p.header.size, p) + pad;
    ConnectLayout(p.header.size, p, pad);
    VisibleLen(id);
    Field2(StrLen(id));
    if NulFree(id) && |id| < 0x1_0000 {
      ConnectFields(id, keepalive, cleanSession, f, f[7..10 + |id|]);
    } else {
      assert |ParseConnect(f).id| < |id|;
    }
  }

  lemma SmallField(v: byte)
    ensures BE(2, v) == [0, v]
  {
  }

  lemma TwoBytes(s: seq<byte>)
    requires |s| == 2
    ensures UnBE(s) as int == 256 * (s[0] as int) + s[1] as int
  {
  }

  // ----- Relaying a received frame ---------------------------------------------------------------

  /** A received frame whose header gives its own length and whose fields fit in it. */
  predicate GoodPublish(f: seq<byte>) {
    PublishFits(f) && UnBE(f[1..5]) == |f|
  }

  /** Packing an unpacked PUBLISH into a buffer of the received size never overruns it. It reproduces the frame's bytes
      up to its padding exactly when neither string contains a NUL byte. */
  lemma RelayIsExact(f: seq<byte>)
    requires GoodPublish(f)
    ensures
      var p := ParsePublish(f);
      var r := PublishBytes(p.header.size, p);
      && |r| <= |f|
      && (r == f[..14 + p.topicLen + p.messageLen] <==> NulFree(p.topic) && NulFree(p.message))
  {
    hide BE, Visible, StrLen, HeaderBytes, UnBE;
    var p := ParsePublish(f);
    var t, m := p.topicLen, p.messageLen;
    var g := f[..14 + t + m];
    var r := PublishBytes(p.header.size, p);
    HeaderWriteBack(f);
    if NulFree(p.topic) && NulFree(p.message) {
      WriteBack(f[5..7]);
      WriteBack(f[7..11]);
      VisibleLen(p.topic);
      VisibleLen(p.message);
      Join(f, 5, 7);
      Join(f, 7, 11);
      Join(f, 11, 14);
      Join(f, 14, 14 + t);
      Join(f, 14 + t, 14 + t + m);
      assert f[11..14] == [p.qos, p.retain, p.dup];
      assert r == g;
    }
  }

  lemma Join(f: seq<byte>, i: nat, j: nat)
    requires i <= j <= |f|
    ensures f[..i] + f[i..j] == f[..j]
  {
  }

  lemma HeaderWriteBack(f: seq<byte>)
    requires |f| >= HEADLEN
    ensures HeaderBytes(f[0], UnBE(f[1..5])) == f[..5]
  {
    hide BE, UnBE;
    WriteBack(f[1..5]);
  }

  /** What a subscriber unpacks from the relayed frame: the broker's packet with both strings cut at their first NUL byte,
      which is what the publisher sent exactly when they contain none. */
  lemma RelayPreservesMeaning(f: seq<byte>, pad: seq<byte>)
    requires GoodPublish(f) && |PublishBytes(|f|, ParsePublish(f)) + pad| == |f|
    ensures
      var p, g := ParsePublish(f), PublishBytes(|f|, ParsePublish(f)) + pad;
      && GoodPublish(g)
      && ParsePublish(g) == p.(topicLen := StrLen(p.topic), messageLen := StrLen(p.message),
                               topic := Visible(p.topic), message := Visible(p.message))
      && (ParsePublish(g) == p <==> NulFree(p.topic) && NulFree(p.message))
  {
    hide BE, Visible, StrLen, ParseHeader, HeaderBytes, UnBE, PublishBytes, NulFree;
    var p, g := ParsePublish(f), PublishBytes(|f|, ParsePublish(f)) + pad;
    SizeFits(f);
    HeaderIs(f);
    HeaderIs(g);
    PublishParsed(|f|, p, pad);
    VisibleLen(p.topic);
    VisibleLen(p.message);
  }

  lemma HeaderIs(f: seq<byte>)
    requires |f| >= HEADLEN
    ensures ParseHeader(f) == Header(f[0], UnBE(f[1..5]))
  {
  }

  /** What the length fields can say. */
  lemma SizeFits(f: seq<byte>)
    requires GoodPublish(f)
    ensures |f| < 0x1_0000_0000 && UnBE(f[5..7]) < 0x1_0000 && UnBE(f[7..11]) < 0x1_0000_0000
  {
    Pows();
  }
}
