/** Partial sends and receives (src/network.c) and the reassembly of one packet (recv_packet in src/server.c).
    A sending socket is the bytes that passed it, with an oracle that decides how many a call takes; a receiving one is the
    bytes to come and the sizes in which they come. */
module Network {
  import opened Bytes
  import opened Packets
  import opened Protocol
  import opened Ring

  /** The sending end: `send` takes any non-empty prefix, or nothing. */
  class OutSocket {
    var wire: seq<byte>

    constructor ()
      ensures wire == []
    {
      wire := [];
    }

    method Send(buf: seq<byte>) returns (n: int)
      requires buf != []
      modifies this
      ensures n == -1 || 1 <= n <= |buf|
      ensures wire == old(wire) + (if n == -1 then [] else buf[..n])
    {
      n := *;
      if 1 <= n <= |buf| { wire := wire + buf[..n]; } else { n := -1; }
    }
  }

  /** `sendall`: exactly `buf[..sent]` goes out, in order, and 0 is returned exactly when that is everything. */
  method SendAll(sock: OutSocket, buf: array<byte>, len: nat) returns (rc: int, sent: nat)
    requires len <= buf.Length
    modifies sock
    ensures sent <= len && sock.wire == old(sock.wire) + buf[..sent]
    ensures rc == if sent == len then 0 else -1
  {
    var total: nat := 0;
    var n := 0;
    while total < len
      invariant total <= len && n >= 0
      invariant sock.wire == old(sock.wire) + buf[..total]
    {
      n := sock.Send(buf[total..len]);
      if n == -1 { break; }
      assert buf[..total] + buf[total..len][..n] == buf[..total + n];
      total := total + n;
    }
    sent := total;
    rc := if n == -1 then -1 else 0;
  }

  function Min(a: nat, b: nat): nat { if a <= b then a else b }
  function Max(a: int, b: int): int { if a >= b then a else b }

  /** The receiving end: `unread` is what will still arrive. Each receive that finds something follows the next number of
      `plan`: at most so many bytes, or nothing yet if it is 0. Once the plan is used up, all that is asked for is there.
      Errors and a closed connection are not part of this model. */
  class InSocket {
    var unread: seq<byte>
    var plan: seq<nat>

    constructor (stream: seq<byte>, plan: seq<nat>)
      ensures unread == stream && this.plan == plan
    {
      unread, this.plan := stream, plan;
    }

    /** `recv`: -1 stands for EAGAIN. */
    method Recv(max: nat) returns (n: int, bytes: seq<byte>)
      requires max > 0
      modifies this
      ensures n == -1 <==> old(unread) == [] || (old(plan) != [] && old(plan)[0] == 0)
      ensures n == -1 ==> bytes == [] && unread == old(unread)
      ensures n != -1 ==> 1 <= n <= max && n <= |old(unread)|
      ensures n != -1 ==> n == Min(if old(plan) == [] then max else old(plan)[0], Min(max, |old(unread)|))
      ensures n != -1 ==> bytes == old(unread)[..n] && unread == old(unread)[n..]
      ensures plan == if old(unread) == [] || old(plan) == [] then old(plan) else old(plan)[1..]
    {
      n, bytes := -1, [];
      if unread == [] { return; }
      var size := max;
      if plan != [] { size, plan := plan[0], plan[1..]; }
      if size == 0 { return; }
      n := Min(size, Min(max, |unread|));
      bytes, unread := unread[..n], unread[n..];
    }
  }

  /** The first receive finds nothing yet. */
  predicate Stalls(plan: seq<nat>) {
    plan != [] && plan[0] == 0
  }

  /** How many of `avail` bytes one `recvbytes` moves under a plan, and what is left of the plan. */
  function Take(avail: nat, plan: seq<nat>, bufsize: nat): (r: (nat, seq<nat>))
    ensures r.0 <= avail && r.0 <= bufsize && |r.1| <= |plan|
    ensures avail > 0 && bufsize > 0 && r.0 == 0 ==> |r.1| < |plan|
    decreases |plan|
  {
    if avail == 0 || bufsize == 0 then (0, plan)
    else if plan == [] then (Min(avail, bufsize), [])
    else if plan[0] == 0 then (0, plan[1..])
    else
      var n := Min(plan[0], Min(bufsize, avail));
      var (m, rest) := Take(avail - n, plan[1..], bufsize - n);
      (n + m, rest)
  }

  lemma TakeNothing(avail: nat, plan: seq<nat>, bufsize: nat)
    requires avail == 0 || bufsize == 0 || (plan != [] && plan[0] == 0)
    ensures Take(avail, plan, bufsize) == (0, if avail == 0 || bufsize == 0 || plan == [] then plan else plan[1..])
  {
  }

  lemma TakeSome(avail: nat, plan: seq<nat>, bufsize: nat, n: nat, rest: seq<nat>)
    requires avail > 0 && bufsize > 0 && !(plan != [] && plan[0] == 0)
    requires n == Min(if plan == [] then bufsize else plan[0], Min(bufsize, avail)) && rest == if plan == [] then plan else plan[1..]
    ensures Take(avail, plan, bufsize) == (n + Take(avail - n, rest, bufsize - n).0, Take(avail - n, rest, bufsize - n).1)
  {
  }

  /** `recvbytes`: moves up to `bufsize` bytes into the ring, which drops what it cannot hold. */
  method RecvBytes(sock: InSocket, ring: RingBuffer, bufsize: nat) returns (total: nat)
    requires ring.Valid() && bufsize > 0
    modifies sock, ring, ring.buffer
    ensures ring.Valid() && ring.buffer == old(ring.buffer)
    ensures (total, sock.plan) == Take(|old(sock.unread)|, old(sock.plan), bufsize)
    ensures sock.unread == old(sock.unread)[total..]
    ensures ring.Contents() == Capped(old(ring.Contents()) + old(sock.unread)[..total], ring.max)
  {
    hide RingBuffer.Contents, Capped, Take, Min;
    total := 0;
    var n := 0;
    ghost var s, stream, all := ring.Contents(), sock.unread, Take(|sock.unread|, sock.plan, bufsize);
    CappedStart(s, stream, ring.max);
    while total < bufsize
      invariant ring.Valid() && ring.buffer == old(ring.buffer)
      invariant total <= bufsize && total <= |stream| && sock.unread == stream[total..]
      invariant ring.Contents() == Capped(s + stream[..total], ring.max)
      invariant all == (total + Take(|sock.unread|, sock.plan, bufsize - total).0, Take(|sock.unread|, sock.plan, bufsize - total).1)
      decreases bufsize - total
    {
      var bytes;
      ghost var avail, plan := |sock.unread|, sock.plan;
      n, bytes := sock.Recv(bufsize - total);
      if n == -1 {
        TakeNothing(avail, plan, bufsize - total);
        return;
      }
      TakeSome(avail, plan, bufsize - total, n, sock.plan);
      var r := ring.BulkPush(bytes);
      CappedGrows(s, stream, total, n, ring.max);
      total := total + n;
    }
    TakeNothing(|sock.unread|, sock.plan, 0);
  }

  // ----- One packet ------------------------------------------------------------------------------

  /** The length field of the frame at the front of the stream. */
  function FrameLength(stream: seq<byte>): nat
    requires |stream| >= HEADLEN
  {
    UnBE(stream[1..5])
  }

  /** The stream starts with a frame that will arrive in full. */
  predicate StartsWithFrame(stream: seq<byte>) {
    |stream| >= HEADLEN && HEADLEN <= FrameLength(stream) <= |stream|
  }

  /** `n` pops in a row. */
  method PopInto(ring: RingBuffer, b: array<byte>, at: nat, n: nat)
    requires ring.Valid() && n <= |ring.Contents()| && at + n <= b.Length && b != ring.buffer
    modifies ring, b
    ensures ring.Valid() && ring.buffer == old(ring.buffer)
    ensures b[..] == Splice(old(b[..]), at, old(ring.Contents())[..n])
    ensures ring.Contents() == old(ring.Contents())[n..]
  {
    hide RingBuffer.Contents, Splice;
    ghost var s, c := b[..], ring.Contents();
    SpliceNothing(s, at);
    assert c[..0] == [];
    for i := 0 to n
      invariant ring.Valid() && ring.buffer == old(ring.buffer)
      invariant ring.Contents() == c[i..]
      invariant b[..] == Splice(s, at, c[..i])
    {
      var r, x := ring.Pop();
      assert c[i..][1..] == c[i + 1..];
      SpliceNext(s, at, c[..n], i);
      assert c[..n][..i] == c[..i] && c[..n][..i + 1] == c[..i + 1];
      b[at + i] := x;
      assert b[..] == Splice(s, at, c[..i])[at + i := x];
    }
  }

  /** How many bytes the first loop of `recv_packet` takes after `n`: it asks for a whole header each time, and gives up
      only when there was nothing at all. */
  function TakeHeader(avail: nat, plan: seq<nat>, n: nat): (r: (nat, seq<nat>))
    requires (n + avail >= HEADLEN || n + avail == 0) && n <= 9
    ensures r.0 <= n + avail
    ensures if n >= HEADLEN then r.0 == n else HEADLEN <= r.0 <= 9 || r.0 == n == 0
    decreases avail, |plan|
  {
    if n >= HEADLEN then (n, plan)
    else
      var (r, rest) := Take(avail, plan, HEADLEN);
      if n + r == 0 then (0, rest) else TakeHeader(avail - r, rest, n + r)
  }

  lemma HeaderStep(avail: nat, plan: seq<nat>, n: nat)
    requires (n + avail >= HEADLEN || n + avail == 0) && n <= 9
    ensures n >= HEADLEN ==> TakeHeader(avail, plan, n) == (n, plan)
    ensures n < HEADLEN ==>
              var (r, rest) := Take(avail, plan, HEADLEN);
              TakeHeader(avail, plan, n) == if n + r == 0 then (0, rest) else TakeHeader(avail - r, rest, n + r)
  {
  }

  /** Nothing is received exactly when nothing is to come or the first receive finds nothing yet. */
  lemma NullWhen(avail: nat, plan: seq<nat>)
    requires avail >= HEADLEN || avail == 0
    ensures TakeHeader(avail, plan, 0).0 == 0 <==> avail == 0 || Stalls(plan)
    ensures TakeHeader(avail, plan, 0).0 == 0 ==> TakeHeader(avail, plan, 0).1 == if avail == 0 then plan else plan[1..]
  {
  }

  /** How many bytes the second loop takes with `held` in the ring: it asks for the whole payload each time. */
  function TakePayload(avail: nat, plan: seq<nat>, held: nat, payload: nat): (r: (nat, seq<nat>))
    requires held + avail >= payload
    ensures r.0 <= avail && held + r.0 >= payload
    ensures held + r.0 <= Max(held, 2 * payload - 1)
    decreases avail, |plan|
  {
    if held >= payload then (0, plan)
    else
      var (r, rest) := Take(avail, plan, payload);
      var (m, last) := TakePayload(avail - r, rest, held + r, payload);
      (r + m, last)
  }

  lemma PayloadStep(avail: nat, plan: seq<nat>, held: nat, payload: nat)
    requires held + avail >= payload
    ensures held >= payload ==> TakePayload(avail, plan, held, payload) == (0, plan)
    ensures held < payload ==>
              var (r, rest) := Take(avail, plan, payload);
              var (m, last) := TakePayload(avail - r, rest, held + r, payload);
              TakePayload(avail, plan, held, payload) == (r + m, last)
  {
  }

  /** How many bytes `recv_packet` takes for a packet, and what it leaves of the plan. */
  function Taken(avail: nat, plan: seq<nat>, payload: nat): (r: (nat, seq<nat>))
    requires avail >= HEADLEN + payload
    ensures r.0 <= avail && (r.0 == 0 || r.0 >= HEADLEN + payload)
  {
    var (n, rest) := TakeHeader(avail, plan, 0);
    if n == 0 then (0, rest)
    else
      var (k, left) := TakePayload(avail - n, rest, n - HEADLEN, payload);
      (n + k, left)
  }

  /** Neither loop ever puts more into the ring than it holds. */
  predicate Lossless(avail: nat, plan: seq<nat>, payload: nat, max: nat)
    requires avail >= HEADLEN + payload
  {
    var (n, rest) := TakeHeader(avail, plan, 0);
    n == 0 || (n <= max && n - HEADLEN + TakePayload(avail - n, rest, n - HEADLEN, payload).0 <= max)
  }

  /** No stream and no chunking of it makes the ring drop a byte exactly when it holds max(9, 2P - 1) bytes for a payload
      of P: both loops ask for the full amount again after a partial read. */
  lemma CapacityIff(payload: nat, max: nat)
    ensures (forall avail: nat, plan: seq<nat> :: avail >= HEADLEN + payload ==> Lossless(avail, plan, payload, max)) <==>
              max >= Max(9, 2 * payload - 1)
  {
    var avail := 14 + 2 * payload;
    if max < 9 {
      HeaderPeak(avail);
      assert !Lossless(avail, [4, 0, 5], payload, max);
    } else if max < 2 * payload - 1 {
      PayloadPeak(avail, payload);
      assert !Lossless(avail, [5, payload - 1, 0, payload], payload, max);
    }
  }

  /** Four bytes, nothing, then five: nine bytes for a header of five. */
  lemma HeaderPeak(avail: nat)
    requires avail >= 14
    ensures TakeHeader(avail, [4, 0, 5], 0).0 == 9
  {
    assert [4, 0, 5][1..] == [0, 5] && [0, 5][1..] == [5];
    assert Take(avail, [4, 0, 5], HEADLEN) == (4, [5]);
    assert Take(avail - 4, [5], HEADLEN).0 == 5;
  }

  /** All but one byte of the payload, nothing, then as many bytes as the payload has. */
  lemma PayloadPeak(avail: nat, payload: nat)
    requires avail >= HEADLEN + 2 * payload && payload > 1
    ensures
      var (n, rest) := TakeHeader(avail, [5, payload - 1, 0, payload], 0);
      n == HEADLEN && TakePayload(avail - n, rest, 0, payload).0 == 2 * payload - 1
  {
    var plan := [5, payload - 1, 0, payload];
    var rest := [payload - 1, 0, payload];
    assert plan[1..] == rest && rest[1..] == [0, payload] && [0, payload][1..] == [payload];
    assert Take(avail, plan, HEADLEN) == (5, rest);
    assert Take(avail - 5, rest, payload) == (payload - 1, [payload]);
    assert Take(avail - 5 - (payload - 1), [payload], payload).0 == payload;
  }

  /** The first loop of `recv_packet`. */
  method FillHeader(sock: InSocket, ring: RingBuffer) returns (n: nat)
    requires ring.Valid() && ring.Contents() == []
    requires sock.unread == [] || |sock.unread| >= HEADLEN
    modifies sock, ring, ring.buffer
    ensures ring.Valid() && ring.buffer == old(ring.buffer)
    ensures (n, sock.plan) == TakeHeader(|old(sock.unread)|, old(sock.plan), 0)
    ensures n <= |old(sock.unread)| && sock.unread == old(sock.unread)[n..]
    ensures ring.Contents() == Capped(old(sock.unread)[..n], ring.max)
  {
    hide RingBuffer.Contents, Capped, Take, TakeHeader;
    ghost var stream, all := sock.unread, TakeHeader(|sock.unread|, sock.plan, 0);
    CappedStart([], stream, ring.max);
    assert [] + stream[..0] == stream[..0] == [];
    n := 0;
    while n < HEADLEN
      invariant ring.Valid() && ring.buffer == old(ring.buffer)
      invariant n <= 9 && n <= |stream| && sock.unread == stream[n..]
      invariant ring.Contents() == Capped(stream[..n], ring.max)
      invariant TakeHeader(|sock.unread|, sock.plan, n) == all
      decreases |sock.unread|, |sock.plan|, HEADLEN - n
    {
      HeaderStep(|sock.unread|, sock.plan, n);
      var r := RecvBytes(sock, ring, HEADLEN);
      CappedTwice(stream[..n], stream[n..][..r], ring.max);
      assert stream[..n] + stream[n..][..r] == stream[..n + r];
      n := n + r;
      if n == 0 { return; }
    }
    HeaderStep(|sock.unread|, sock.plan, n);
  }

  /** The second loop of `recv_packet`, on a ring that holds `s`. */
  method FillPayload(sock: InSocket, ring: RingBuffer, payload: nat) returns (ghost k: nat)
    requires ring.Valid() && payload <= ring.max && |ring.Contents()| + |sock.unread| >= payload
    modifies sock, ring, ring.buffer
    ensures ring.Valid() && ring.buffer == old(ring.buffer)
    ensures (k, sock.plan) == TakePayload(|old(sock.unread)|, old(sock.plan), |old(ring.Contents())|, payload)
    ensures k <= |old(sock.unread)| && sock.unread == old(sock.unread)[k..]
    ensures ring.Contents() == Capped(old(ring.Contents()) + old(sock.unread)[..k], ring.max)
  {
    hide RingBuffer.Contents, Capped, Take, TakePayload, Max, Min;
    k := 0;
    ghost var s, stream := ring.Contents(), sock.unread;
    ghost var all := TakePayload(|stream|, sock.plan, |s|, payload);
    var size := ring.Size();
    CappedStart(s, stream, ring.max);
    while size < payload
      invariant ring.Valid() && ring.buffer == old(ring.buffer) && size == |ring.Contents()|
      invariant k <= |stream| && sock.unread == stream[k..] && |s| + |stream| >= payload
      invariant ring.Contents() == Capped(s + stream[..k], ring.max)
      invariant all == (k + TakePayload(|sock.unread|, sock.plan, |s| + k, payload).0,
                        TakePayload(|sock.unread|, sock.plan, |s| + k, payload).1)
      decreases |sock.unread|, |sock.plan|
    {
      CappedLength(s + stream[..k], ring.max);
      PayloadStep(|sock.unread|, sock.plan, |s| + k, payload);
      var r := RecvBytes(sock, ring, payload);
      CappedGrows(s, stream, k, r, ring.max);
      k := k + r;
      size := ring.Size();
    }
    CappedLength(s + stream[..k], ring.max);
    PayloadStep(|sock.unread|, sock.plan, |s| + k, payload);
  }

  lemma CappedLength(s: seq<byte>, max: nat)
    ensures |Capped(s, max)| == if |s| <= max then |s| else max
  {
  }

  /** The outcome of receiving a packet from `stream` under `plan`, of which `unread` has not been taken from the socket. */
  ghost predicate Received(stream: seq<byte>, plan: seq<nat>, unread: seq<byte>, max: nat,
                           packet: seq<byte>, residue: seq<byte>, opcode: byte) {
    && StartsWithFrame(stream)
    && packet == stream[..FrameLength(stream)] && opcode == stream[0]
    && unread == stream[Taken(|stream|, plan, FrameLength(stream) - HEADLEN).0..]
    && (packet + residue + unread == stream <==> Lossless(|stream|, plan, FrameLength(stream) - HEADLEN, max))
  }

  /** `recv_packet`. A null answer has consumed nothing; it is given exactly when nothing is to come or the first receive
      finds nothing yet. Otherwise the packet is the first frame of the stream whatever the chunking. The ring keeps what
      was read past the frame exactly when the loops have not overfilled it. */
  method RecvPacket(sock: InSocket, ring: RingBuffer) returns (b: Buffer?, opcode: byte)
    requires ring.Valid() && ring.Contents() == [] && ring.max >= 9
    requires sock.unread == [] || StartsWithFrame(sock.unread)
    requires sock.unread != [] ==> FrameLength(sock.unread) - HEADLEN <= ring.max
    modifies sock, ring, ring.buffer
    ensures ring.Valid()
    ensures b == null <==> old(sock.unread) == [] || Stalls(old(sock.plan))
    ensures b == null ==> sock.unread == old(sock.unread) && ring.Contents() == []
    ensures b == null ==> sock.plan == if old(sock.unread) == [] then old(sock.plan) else old(sock.plan)[1..]
    ensures b != null ==> fresh(b) && fresh(b.data) && b.Valid() && b.pos == 0
    ensures b != null ==> Received(old(sock.unread), old(sock.plan), sock.unread, ring.max, b.View(), ring.Contents(), opcode)
    ensures b != null ==> sock.plan == Taken(|old(sock.unread)|, old(sock.plan), FrameLength(old(sock.unread)) - HEADLEN).1
  {
    hide RingBuffer.Contents, UnBE, Splice, Capped, Received, TakeHeader, TakePayload, Take;
    ghost var stream, plan := sock.unread, sock.plan;
    b, opcode := null, 0;
    NullWhen(|stream|, plan);
    var n := FillHeader(sock, ring);
    CappedSmall(stream[..n], ring.max);
    if n == 0 { return; }
    HeaderPopped(stream, n);
    var tmp := PopHeader(ring);
    assert tmp[1..5] == tmp[..][1..5];
    var tlen := UnBE(tmp[1..5]);
    ghost var k := FillPayload(sock, ring, tlen - HEADLEN);
    SliceGrows(stream, n, k);
    ghost var held := ring.Contents();
    CappedLength(stream[HEADLEN..n + k], ring.max);
    b := AssembleFrame(ring, tmp, tlen);
    FrameAssembled(stream, plan, n, k, ring.max, held);
    opcode := tmp[0];
  }

  /** The buffer of the packet: the header, and the rest popped from the ring. */
  method AssembleFrame(ring: RingBuffer, tmp: array<byte>, tlen: nat) returns (b: Buffer)
    requires ring.Valid() && tmp.Length == HEADLEN <= tlen && tlen - HEADLEN <= |ring.Contents()|
    modifies ring
    ensures ring.Valid() && ring.buffer == old(ring.buffer)
    ensures fresh(b) && fresh(b.data) && b.Valid() && b.pos == 0
    ensures b.View() == tmp[..] + old(ring.Contents())[..tlen - HEADLEN]
    ensures ring.Contents() == old(ring.Contents())[tlen - HEADLEN..]
  {
    hide RingBuffer.Contents, Splice;
    b := new Buffer(tlen);
    ghost var rest := b.View()[HEADLEN..];
    CopyHeader(b, tmp);
    PopInto(ring, b.data, HEADLEN, tlen - HEADLEN);
    SpliceTail(tmp[..], rest, old(ring.Contents())[..tlen - HEADLEN]);
  }

  /** The header, taken out of the ring into an array of its own. */
  method PopHeader(ring: RingBuffer) returns (tmp: array<byte>)
    requires ring.Valid() && |ring.Contents()| >= HEADLEN
    modifies ring
    ensures ring.Valid() && ring.buffer == old(ring.buffer)
    ensures fresh(tmp) && tmp.Length == HEADLEN && tmp[..] == old(ring.Contents())[..HEADLEN]
    ensures ring.Contents() == old(ring.Contents())[HEADLEN..]
  {
    hide RingBuffer.Contents, Splice;
    tmp := new byte[HEADLEN];
    ghost var raw := tmp[..];
    PopInto(ring, tmp, 0, HEADLEN);
    SpliceAll(raw, old(ring.Contents())[..HEADLEN]);
  }

  lemma CappedSmall(s: seq<byte>, max: nat)
    requires |s| <= max
    ensures Capped(s, max) == s
  {
  }

  lemma SliceGrows(stream: seq<byte>, n: nat, k: nat)
    requires HEADLEN <= n && n + k <= |stream|
    ensures stream[HEADLEN..n] + stream[n..][..k] == stream[HEADLEN..n + k]
    ensures stream[n..][k..] == stream[n + k..]
  {
  }

  /** With room for max(9, 2P - 1) bytes the packet, what is left in the ring and what is still to come are the stream. */
  lemma NothingLost(stream: seq<byte>, plan: seq<nat>, unread: seq<byte>, max: nat,
                    packet: seq<byte>, residue: seq<byte>, opcode: byte)
    requires Received(stream, plan, unread, max, packet, residue, opcode)
    requires max >= Max(9, 2 * (FrameLength(stream) - HEADLEN) - 1)
    ensures packet + residue + unread == stream
  {
    CapacityIff(FrameLength(stream) - HEADLEN, max);
  }

  /** `memcpy(b->data, tmp, HEADLEN)`. */
  method CopyHeader(b: Buffer, tmp: array<byte>)
    requires b.Valid() && b.size >= HEADLEN == tmp.Length && tmp != b.data
    modifies b.data
    ensures b.View() == tmp[..] + old(b.View())[HEADLEN..]
  {
    hide Splice;
    ghost var s := b.View();
    SpliceNothing(s, 0);
    assert tmp[..0] == [];
    for i := 0 to HEADLEN
      invariant b.View() == Splice(s, 0, tmp[..i])
    {
      SpliceNext(s, 0, tmp[..], i);
      assert tmp[..][..i] == tmp[..i] && tmp[..][..i + 1] == tmp[..i + 1];
      b.data[i] := tmp[i];
      assert b.View() == Splice(s, 0, tmp[..i])[i := tmp[i]];
    }
    assert tmp[..HEADLEN] == tmp[..];
    SpliceFront(s, tmp[..]);
  }

  lemma HeaderPopped(stream: seq<byte>, n: nat)
    requires HEADLEN <= n <= |stream|
    ensures stream[..n][..HEADLEN] == stream[..HEADLEN] && stream[..HEADLEN][1..5] == stream[1..5]
    ensures stream[..n][HEADLEN..] == stream[HEADLEN..n]
  {
  }

  /** The first loop took `n` bytes and the second `k`. */
  lemma FrameAssembled(stream: seq<byte>, plan: seq<nat>, n: nat, k: nat, max: nat, held: seq<byte>)
    requires StartsWithFrame(stream) && HEADLEN <= n <= 9 <= max && n + k <= |stream| && n == TakeHeader(|stream|, plan, 0).0
    requires
      var payload := FrameLength(stream) - HEADLEN;
      && payload <= max && k == TakePayload(|stream| - n, TakeHeader(|stream|, plan, 0).1, n - HEADLEN, payload).0
      && held == Capped(stream[HEADLEN..n + k], max) && payload <= |held|
    ensures
      var payload := FrameLength(stream) - HEADLEN;
      && Received(stream, plan, stream[n + k..], max, stream[..HEADLEN] + held[..payload], held[payload..], stream[0])
      && Taken(|stream|, plan, payload).1 == TakePayload(|stream| - n, TakeHeader(|stream|, plan, 0).1, n - HEADLEN, payload).1
  {
    hide TakeHeader, TakePayload, FrameLength;
    var payload := FrameLength(stream) - HEADLEN;
    var view := stream[..HEADLEN] + held[..payload];
    assert held[..payload] == stream[HEADLEN..HEADLEN + payload];
    assert view == stream[..HEADLEN + payload];
    var all := view + held[payload..] + stream[n + k..];
    if n + k - HEADLEN <= max {
      assert held == stream[HEADLEN..n + k];
      assert all == stream;
    } else {
      assert |all| < |stream|;
    }
  }

  lemma SpliceTail(h: seq<byte>, rest: seq<byte>, w: seq<byte>)
    requires |rest| == |w|
    ensures Splice(h + rest, |h|, w) == h + w
  {
  }
}
