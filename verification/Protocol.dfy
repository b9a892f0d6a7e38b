/** The Buffer of src/protocol.c and the packers and unpackers that move its position. */
module Protocol {
  import opened Bytes
  import opened Packets

  class Buffer {
    var data: array<byte>
    var size: nat
    var pos: nat

    ghost predicate Valid()
      reads this
    {
      data.Length == size && pos <= size
    }

    ghost function View(): seq<byte>
      reads this, data
    {
      data[..]
    }

    /** `buffer_init`: `malloc` leaves the bytes as they come. */
    constructor (len: nat)
      ensures Valid() && fresh(data) && size == len && pos == 0
    {
      data := new byte[len];
      size, pos := len, 0;
    }

    // ----- Writing -------------------------------------------------------------------------------

    /** `w` was written at `pos`, and nothing else changed. */
    twostate predicate Wrote(w: seq<byte>)
      requires old(pos) + |w| <= |old(View())|
      reads this, data
    {
      && Valid() && data == old(data) && size == old(size)
      && pos == old(pos) + |w|
      && View() == Splice(old(View()), old(pos), w)
    }

    method WriteBytes(w: seq<byte>)
      requires Valid() && pos + |w| <= size
      modifies this`pos, data
      ensures Wrote(w)
    {
      var p := pos;
      ghost var s := data[..];
      for i := 0 to |w|
        invariant pos == p && data[..] == Splice(s, p, w[..i])
      {
        data[p + i] := w[i];
        SpliceNext(s, p, w, i);
      }
      assert w[..|w|] == w;
      pos := pos + |w|;
    }

    method WriteUint8(val: byte)
      requires Valid() && pos + 1 <= size
      modifies this`pos, data
      ensures Wrote([val])
    {
      WriteBytes([val]);
    }

    method WriteUint16(val: nat)
      requires Valid() && pos + 2 <= size
      modifies this`pos, data
      ensures Wrote(BE(2, val))
    {
      WriteBytes(BE(2, val));
    }

    method WriteUint32(val: nat)
      requires Valid() && pos + 4 <= size
      modifies this`pos, data
      ensures Wrote(BE(4, val))
    {
      WriteBytes(BE(4, val));
    }

    /** `htonll` writes the eight bytes one by one. */
    method WriteUint64(val: nat)
      requires Valid() && pos + 8 <= size
      modifies this`pos, data
      ensures Wrote(BE(8, val))
    {
      hide BE, Splice;
      var v := val;
      var i := 8;
      var p := pos;
      ghost var s, w := data[..], BE(8, val);
      assert w[8..] == [];
      SpliceNothing(s, p + 8);
      while i > 0
        invariant 0 <= i <= 8 && pos == p
        invariant w == BE(i, v) + w[i..]
        invariant data[..] == Splice(s, p + i, w[i..])
      {
        i := i - 1;
        LastDigit(i, v, w);
        SplicePrevious(s, p, w, i);
        data[p + i] := v % 256;
        v := v / 256;
        assert data[..] == Splice(s, p + i + 1, w[i + 1..])[p + i := w[i]];
      }
      assert w[0..] == w && BE(0, v) == [];
      pos := pos + 8;
    }

    method WriteString(str: seq<byte>)
      requires Valid() && pos + StrLen(str) <= size
      modifies this`pos, data
      ensures Wrote(Visible(str))
    {
      WriteBytes(str[..StrLen(str)]);
    }

    // ----- Reading -------------------------------------------------------------------------------

    method ReadBytes(n: nat) returns (s: seq<byte>)
      requires Valid() && pos + n <= size
      modifies this`pos
      ensures Valid() && pos == old(pos) + n
      ensures s == View()[old(pos)..old(pos) + n]
    {
      s := data[pos..pos + n];
      pos := pos + n;
    }

    method ReadUint8() returns (val: byte)
      requires Valid() && pos + 1 <= size
      modifies this`pos
      ensures Valid() && pos == old(pos) + 1
      ensures val == View()[old(pos)]
    {
      val := data[pos];
      pos := pos + 1;
    }

    method ReadUint16() returns (val: nat)
      requires Valid() && pos + 2 <= size
      modifies this`pos
      ensures Valid() && pos == old(pos) + 2
      ensures val == UnBE(View()[old(pos)..old(pos) + 2])
    {
      val := UnBE(data[pos..pos + 2]);
      pos := pos + 2;
    }

    method ReadUint32() returns (val: nat)
      requires Valid() && pos + 4 <= size
      modifies this`pos
      ensures Valid() && pos == old(pos) + 4
      ensures val == UnBE(View()[old(pos)..old(pos) + 4])
    {
      val := UnBE(data[pos..pos + 4]);
      pos := pos + 4;
    }

    method ReadUint64() returns (val: nat)
      requires Valid() && pos + 8 <= size
      modifies this`pos
      ensures Valid() && pos == old(pos) + 8
      ensures val == UnBE(View()[old(pos)..old(pos) + 8])
    {
      val := 0;
      for i := 0 to 8
        invariant val == UnBE(data[pos..pos + i])
      {
        assert data[pos..pos + i + 1][..i] == data[pos..pos + i];
        val := 256 * val + data[pos + i];
      }
      pos := pos + 8;
    }
  }

  // ----- Packing -----------------------------------------------------------------------------------

  method PackHeader(b: Buffer, h: Header)
    requires b.Valid() && b.pos + HEADLEN <= b.size
    modifies b`pos, b.data
    ensures b.Wrote(HeaderBytes(h.opcode, b.size))
  {
    hide BE;
    ghost var s := b.View();
    b.WriteUint8(h.opcode);
    b.WriteUint32(b.size);
    SpliceTwice(s, old(b.pos), [h.opcode], BE(4, b.size));
  }

  /** The three one-byte fields of a PUBLISH. */
  method PackFlags(b: Buffer, p: Publish)
    requires b.Valid() && b.pos + 3 <= b.size
    modifies b`pos, b.data
    ensures b.Wrote([p.qos, p.retain, p.dup])
  {
    ghost var s, q := b.View(), b.pos;
    b.WriteUint8(p.qos);
    b.WriteUint8(p.retain);
    SpliceTwice(s, q, [p.qos], [p.retain]);
    b.WriteUint8(p.dup);
    SpliceTwice(s, q, [p.qos] + [p.retain], [p.dup]);
    assert [p.qos] + [p.retain] + [p.dup] == [p.qos, p.retain, p.dup];
  }

  method PackPublish(b: Buffer, p: Publish)
    requires b.Valid() && b.pos + 14 + StrLen(p.topic) + StrLen(p.message) <= b.size
    modifies b`pos, b.data
    ensures |PublishBytes(b.size, p)| == 14 + StrLen(p.topic) + StrLen(p.message)
    ensures b.Wrote(PublishBytes(b.size, p))
  {
    hide BE, StrLen, HeaderBytes, Splice;
    ghost var s, q := b.View(), b.pos;
    VisibleLen(p.topic);
    VisibleLen(p.message);
    hide Visible;
    PackHeader(b, p.header);
    ghost var w := HeaderBytes(p.header.opcode, b.size);
    b.WriteUint16(StrLen(p.topic));
    SpliceTwice(s, q, w, BE(2, StrLen(p.topic)));
    w := w + BE(2, StrLen(p.topic));
    b.WriteUint32(StrLen(p.message));
    SpliceTwice(s, q, w, BE(4, StrLen(p.message)));
    w := w + BE(4, StrLen(p.message));
    PackFlags(b, p);
    SpliceTwice(s, q, w, [p.qos, p.retain, p.dup]);
    w := w + [p.qos, p.retain, p.dup];
    b.WriteString(p.topic);
    SpliceTwice(s, q, w, Visible(p.topic));
    w := w + Visible(p.topic);
    b.WriteString(p.message);
    SpliceTwice(s, q, w, Visible(p.message));
  }

  method PackSubscribe(b: Buffer, p: Subscribe)
    requires b.Valid() && b.pos + 8 + StrLen(p.topic) <= b.size
    modifies b`pos, b.data
    ensures |SubscribeBytes(b.size, p)| == 8 + StrLen(p.topic)
    ensures b.Wrote(SubscribeBytes(b.size, p))
  {
    hide BE, StrLen, HeaderBytes, Splice;
    ghost var s, q := b.View(), b.pos;
    VisibleLen(p.topic);
    hide Visible;
    PackHeader(b, p.header);
    ghost var w := HeaderBytes(p.header.opcode, b.size);
    b.WriteUint16(StrLen(p.topic));
    SpliceTwice(s, q, w, BE(2, StrLen(p.topic)));
    w := w + BE(2, StrLen(p.topic));
    b.WriteUint8(p.qos);
    SpliceTwice(s, q, w, [p.qos]);
    w := w + [p.qos];
    b.WriteString(p.topic);
    SpliceTwice(s, q, w, Visible(p.topic));
  }

  method PackAck(b: Buffer, p: Ack)
    requires b.Valid() && b.pos + 8 <= b.size
    modifies b`pos, b.data
    ensures |AckBytes(b.size, p)| == 8
    ensures b.Wrote(AckBytes(b.size, p))
  {
    hide BE, HeaderBytes, Splice;
    ghost var s, q := b.View(), b.pos;
    PackHeader(b, p.header);
    ghost var w := HeaderBytes(p.header.opcode, b.size);
    b.WriteUint16(p.id);
    SpliceTwice(s, q, w, BE(2, p.id));
    w := w + BE(2, p.id);
    b.WriteUint8(p.rc);
    SpliceTwice(s, q, w, [p.rc]);
  }

  // ----- Packing into a buffer of the frame's size ---------------------------------------------------

  /** The buffer may have room for padding after the frame. */
  method PackedPublish(p: Publish) returns (b: Buffer)
    requires 14 + StrLen(p.topic) + StrLen(p.message) <= p.header.size
    ensures fresh(b) && fresh(b.data) && b.Valid() && b.size == p.header.size && PublishBytes(b.size, p) <= b.View()
  {
    hide Splice, PublishBytes, StrLen;
    b := new Buffer(p.header.size);
    ghost var s := b.View();
    PackPublish(b, p);
    SpliceFront(s, PublishBytes(b.size, p));
  }

  method PackedSubscribe(p: Subscribe) returns (b: Buffer)
    requires 8 + StrLen(p.topic) <= p.header.size
    ensures fresh(b) && fresh(b.data) && b.Valid() && b.size == p.header.size && SubscribeBytes(b.size, p) <= b.View()
  {
    hide Splice, SubscribeBytes, StrLen;
    b := new Buffer(p.header.size);
    ghost var s := b.View();
    PackSubscribe(b, p);
    SpliceFront(s, SubscribeBytes(b.size, p));
  }

  method PackedAck(p: Ack) returns (b: Buffer)
    requires p.header.size == 8
    ensures fresh(b) && fresh(b.data) && b.Valid() && b.View() == AckBytes(8, p)
  {
    hide Splice, BE;
    b := new Buffer(p.header.size);
    ghost var s := b.View();
    PackAck(b, p);
    SpliceFront(s, AckBytes(8, p));
  }

  // ----- Unpacking ---------------------------------------------------------------------------------

  method UnpackHeader(b: Buffer) returns (h: Header)
    requires b.Valid() && b.pos == 0 && b.size >= HEADLEN
    modifies b`pos
    ensures b.Valid() && b.pos == HEADLEN && h == ParseHeader(b.View())
  {
    var opcode := b.ReadUint8();
    var size := b.ReadUint32();
    h := Header(opcode, size);
  }

  method UnpackConnect(b: Buffer) returns (p: Connect)
    requires b.Valid() && b.pos == 0 && ConnectFits(b.View())
    modifies b`pos
    ensures b.Valid() && p == ParseConnect(b.View())
  {
    hide UnBE;
    var h := UnpackHeader(b);
    var n := b.ReadUint16();
    var cleanSession := b.ReadUint8();
    var keepalive := b.ReadUint16();
    var id := b.ReadBytes(n);
    p := Connect(h, n, id, keepalive, cleanSession);
  }

  method UnpackPublish(b: Buffer) returns (p: Publish)
    requires b.Valid() && b.pos == 0 && PublishFits(b.View())
    modifies b`pos
    ensures b.Valid() && p == ParsePublish(b.View())
  {
    hide UnBE;
    var h := UnpackHeader(b);
    var t := b.ReadUint16();
    var m := b.ReadUint32();
    var qos := b.ReadUint8();
    var retain := b.ReadUint8();
    var dup := b.ReadUint8();
    var topic := b.ReadBytes(t);
    var message := b.ReadBytes(m);
    p := Publish(h, t, m, qos, retain, dup, topic, message);
  }

  method UnpackSubscribe(b: Buffer) returns (p: Subscribe)
    requires b.Valid() && b.pos == 0 && SubscribeFits(b.View())
    modifies b`pos
    ensures b.Valid() && p == ParseSubscribe(b.View())
  {
    var h := UnpackHeader(b);
    var t := b.ReadUint16();
    var qos := b.ReadUint8();
    var topic := b.ReadBytes(t);
    p := Subscribe(h, t, qos, topic);
  }

  method UnpackAck(b: Buffer) returns (p: Ack)
    requires b.Valid() && b.pos == 0 && b.size >= 8
    modifies b`pos
    ensures b.Valid() && p == ParseAck(b.View())
  {
    var h := UnpackHeader(b);
    var id := b.ReadUint16();
    var rc := b.ReadUint8();
    p := Ack(h, id, rc);
  }
}
