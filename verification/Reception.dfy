/** Packet after packet from one connection. `request_handler` of src/server.c makes a ring for each call of `recv_packet`
    and frees it afterwards, so what was read past a packet is gone. */
module Reception {
  import opened Bytes
  import opened Packets
  import opened Protocol
  import opened Ring
  import opened Network

  /** The frames of a stream, as their length fields delimit them. */
  function Cut(stream: seq<byte>): seq<seq<byte>> {
    if StartsWithFrame(stream) then [stream[..FrameLength(stream)]] + Cut(stream[FrameLength(stream)..]) else []
  }

  /** The stream is whole frames, whose payloads a ring of that capacity can hold. */
  predicate Framed(stream: seq<byte>, capacity: nat) {
    stream == [] || (StartsWithFrame(stream) && FrameLength(stream) - HEADLEN <= capacity
                     && Framed(stream[FrameLength(stream)..], capacity))
  }

  function Total(packets: seq<seq<byte>>): nat {
    if packets == [] then 0 else Total(packets[..|packets| - 1]) + |packets[|packets| - 1]|
  }

  lemma {:induction false} TotalCons(p: seq<byte>, packets: seq<seq<byte>>)
    ensures Total([p] + packets) == |p| + Total(packets)
  {
    if packets == [] {
      assert [p] + packets == [p] && [p][..0] == [];
    } else {
      var m := |packets| - 1;
      assert ([p] + packets)[..|packets|] == [p] + packets[..m];
      TotalCons(p, packets[..m]);
    }
  }

  /** The frames of a stream of whole frames are all of it. */
  lemma {:induction false} FramesAreAll(stream: seq<byte>, capacity: nat)
    requires Framed(stream, capacity)
    ensures Total(Cut(stream)) == |stream|
    decreases |stream|
  {
    if stream != [] {
      var n := FrameLength(stream);
      FramesAreAll(stream[n..], capacity);
      TotalCons(stream[..n], Cut(stream[n..]));
    }
  }

  // ----- What successive calls make of a stream --------------------------------------------------

  /** The stream starts with a frame that a ring of that capacity can hold. */
  predicate Ready(stream: seq<byte>, capacity: nat) {
    StartsWithFrame(stream) && FrameLength(stream) - HEADLEN <= capacity
  }

  /** What the next call takes from the stream, and what it leaves of the plan. */
  function NextCall(stream: seq<byte>, plan: seq<nat>): (r: (nat, seq<nat>))
    requires StartsWithFrame(stream) && !Stalls(plan)
    ensures FrameLength(stream) <= r.0 <= |stream|
  {
    NullWhen(|stream|, plan);
    Taken(|stream|, plan, FrameLength(stream) - HEADLEN)
  }

  /** The packets of the calls, until what is left does not start with a frame, and what is left then. */
  function Reassembled(stream: seq<byte>, plan: seq<nat>, capacity: nat): (r: (seq<seq<byte>>, seq<byte>))
    ensures Total(r.0) + |r.1| <= |stream|
    decreases |stream|, |plan|
  {
    if !Ready(stream, capacity) then ([], stream)
    else if Stalls(plan) then Reassembled(stream, plan[1..], capacity)
    else
      var (n, left) := NextCall(stream, plan);
      var (packets, rest) := Reassembled(stream[n..], left, capacity);
      TotalCons(stream[..FrameLength(stream)], packets);
      ([stream[..FrameLength(stream)]] + packets, rest)
  }

  /** Every call takes its frame and no byte more. */
  predicate Exact(stream: seq<byte>, plan: seq<nat>)
    decreases |stream|, |plan|
  {
    if !StartsWithFrame(stream) then true
    else if Stalls(plan) then Exact(stream, plan[1..])
    else
      var (n, left) := NextCall(stream, plan);
      n == FrameLength(stream) && Exact(stream[n..], left)
  }

  /** The packets are the frames of the stream, all of them and in order, exactly when no call takes a byte too many; a call
      that does swallows the start of the next frame. */
  lemma {:induction false} FramesIffExact(stream: seq<byte>, plan: seq<nat>, capacity: nat)
    requires Framed(stream, capacity)
    ensures Reassembled(stream, plan, capacity).0 == Cut(stream) <==> Exact(stream, plan)
    ensures Exact(stream, plan) ==> Reassembled(stream, plan, capacity).1 == []
    decreases |stream|, |plan|
  {
    if stream != [] {
      if Stalls(plan) {
        FramesIffExact(stream, plan[1..], capacity);
      } else {
        var (n, left) := NextCall(stream, plan);
        var f := stream[..FrameLength(stream)];
        var packets := Reassembled(stream[n..], left, capacity).0;
        if n == FrameLength(stream) {
          FramesIffExact(stream[n..], left, capacity);
          assert ([f] + packets)[1..] == packets && ([f] + Cut(stream[n..]))[1..] == Cut(stream[n..]);
        } else {
          FramesAreAll(stream, capacity);
          TotalCons(f, packets);
        }
      }
    }
  }

  /** Once the plan is used up every call takes exactly its packet. */
  lemma TakenExactly(avail: nat, payload: nat)
    requires avail >= HEADLEN + payload
    ensures Taken(avail, [], payload) == (HEADLEN + payload, [])
  {
    HeaderStep(avail, [], 0);
    HeaderStep(avail - HEADLEN, [], HEADLEN);
    PayloadStep(avail - HEADLEN, [], 0, payload);
    if payload > 0 {
      assert Take(avail - HEADLEN, [], payload) == (payload, []);
      PayloadStep(avail - HEADLEN - payload, [], payload, payload);
    }
  }

  /** So every stream survives when no receive finds less than it asks for. */
  lemma {:induction false} EmptyPlanIsExact(stream: seq<byte>)
    ensures Exact(stream, [])
    decreases |stream|
  {
    if StartsWithFrame(stream) {
      hide Taken;
      TakenExactly(|stream|, FrameLength(stream) - HEADLEN);
      EmptyPlanIsExact(stream[FrameLength(stream)..]);
    }
  }

  lemma FramedTwo(f: seq<byte>, g: seq<byte>)
    requires |f| == 8 && |g| == 8 && UnBE(f[1..5]) == 8 && UnBE(g[1..5]) == 8
    ensures Framed(f + g, 9)
  {
    hide UnBE;
    assert (f + g)[1..5] == f[1..5] && (f + g)[8..] == g && g[8..] == [];
    assert Framed(g[8..], 9);
    assert Framed(g, 9);
  }

  /** Two acknowledgements, of which four bytes come first, then nothing, then the rest: the header loop asks for five bytes
      again and takes the payload as well, and the payload loop asks for all of it again and takes the next header's start. */
  lemma PartialHeaderLoses(f: seq<byte>, g: seq<byte>)
    requires |f| == 8 && |g| == 8 && UnBE(f[1..5]) == 8 && UnBE(g[1..5]) == 8
    ensures Framed(f + g, 9) && !Exact(f + g, [4, 0, 5])
    ensures Reassembled(f + g, [4, 0, 5], 9).0 != Cut(f + g)
  {
    hide UnBE, TakeHeader, TakePayload, Framed;
    var stream := f + g;
    FramedTwo(f, g);
    HeaderPeak(16);
    assert FrameLength(stream) == 8 && StartsWithFrame(stream) by { assert stream[1..5] == f[1..5]; }
    assert NextCall(stream, [4, 0, 5]).0 >= 9;
    FramesIffExact(stream, [4, 0, 5], 9);
  }

  /** Such frames exist. */
  lemma ReceptionCanLose()
    ensures exists stream, plan :: Framed(stream, 9) && Reassembled(stream, plan, 9).0 != Cut(stream)
  {
    var p := AckPkt(PUBACK, 0, 0);
    AckRoundTrip(PUBACK, 0, 0);
    var f := AckBytes(8, p);
    PartialHeaderLoses(f, f);
  }

  /** Calls of `recv_packet`, each with a ring of its own, until what is left does not start with a frame. */
  method ReceiveAll(sock: InSocket, capacity: nat) returns (packets: seq<seq<byte>>)
    requires capacity >= 9
    modifies sock
    ensures (packets, sock.unread) == Reassembled(old(sock.unread), old(sock.plan), capacity)
    ensures old(Framed(sock.unread, capacity)) ==> (packets == Cut(old(sock.unread)) <==> old(Exact(sock.unread, sock.plan)))
  {
    hide Cut, Framed, Exact, Reassembled, Taken, Lossless, RingBuffer.Contents, UnBE;
    ghost var stream, plan := sock.unread, sock.plan;
    packets := [];
    ghost var all := Reassembled(stream, plan, capacity);
    assert [] + all.0 == all.0;
    while Ready(sock.unread, capacity)
      invariant
        var (more, rest) := Reassembled(sock.unread, sock.plan, capacity);
        all == (packets + more, rest)
      decreases |sock.unread|, |sock.plan|
    {
      ghost var before, left := sock.unread, sock.plan;
      var space := new byte[capacity];
      var ring := new RingBuffer(space);
      var b, opcode := RecvPacket(sock, ring);
      ReassembledStep(before, left, capacity);
      if b == null { continue; }
      var p := b.data[..];
      Regroup(packets, p, Reassembled(sock.unread, sock.plan, capacity).0);
      packets := packets + [p];
    }
    ReassembledStep(sock.unread, sock.plan, capacity);
    assert packets + [] == packets;
    if Framed(stream, capacity) { FramesIffExact(stream, plan, capacity); }
  }

  lemma Regroup(a: seq<seq<byte>>, p: seq<byte>, b: seq<seq<byte>>)
    ensures a + ([p] + b) == a + [p] + b
  {
  }

  lemma ReassembledStep(stream: seq<byte>, plan: seq<nat>, capacity: nat)
    ensures !Ready(stream, capacity) ==> Reassembled(stream, plan, capacity) == ([], stream)
    ensures Ready(stream, capacity) && Stalls(plan) ==>
              Reassembled(stream, plan, capacity) == Reassembled(stream, plan[1..], capacity)
    ensures Ready(stream, capacity) && !Stalls(plan) ==>
              var (n, left) := NextCall(stream, plan);
              var (packets, rest) := Reassembled(stream[n..], left, capacity);
              Reassembled(stream, plan, capacity) == ([stream[..FrameLength(stream)]] + packets, rest)
  {
  }
}
