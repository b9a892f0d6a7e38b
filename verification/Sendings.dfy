/** The bytes behind the frames of the broker: what each `sendall` was given, how much of it went out, and how a receiver
    cuts the stream into frames again. */
module Sendings {
  import opened Bytes
  import opened Packets
  import opened BrokerModel
  import opened Network
  import opened Reception

  /** One call of `sendall`: of `bytes`, the first `sent` went out. */
  datatype Sending = Sending(bytes: seq<byte>, sent: nat)

  predicate InBounds(log: seq<Sending>) {
    forall i :: 0 <= i < |log| ==> log[i].sent <= |log[i].bytes|
  }

  predicate Complete(log: seq<Sending>) {
    forall i :: 0 <= i < |log| ==> log[i].sent == |log[i].bytes|
  }

  /** All that went out. */
  function Stream(log: seq<Sending>): seq<byte>
    requires InBounds(log)
  {
    if log == [] then [] else Stream(log[..|log| - 1]) + log[|log| - 1].bytes[..log[|log| - 1].sent]
  }

  lemma StreamSnoc(log: seq<Sending>, x: Sending)
    requires InBounds(log) && x.sent <= |x.bytes|
    ensures InBounds(log + [x]) && Stream(log + [x]) == Stream(log) + x.bytes[..x.sent]
  {
    assert (log + [x])[..|log|] == log;
  }

  /** The bytes are the packed form of the frame: a PUBLISH may be followed by padding up to its size. */
  ghost predicate Encodes(x: Sent, b: seq<byte>) {
    match x
    case Direct(AckFrame(opcode, rc)) => b == AckBytes(8, AckPkt(opcode, 0, rc))
    case Direct(PublishFrame(p)) => IsPacked(p, b)
    case Relayed(_, _, p) => IsPacked(p, b)
  }

  ghost predicate IsPacked(p: Publish, b: seq<byte>) {
    |b| == p.header.size < 0x1_0000_0000 && PublishBytes(|b|, p) <= b
  }

  ghost predicate EncodesAll(wire: seq<Sent>, log: seq<Sending>) {
    && |log| == |wire| && InBounds(log)
    && forall i {:trigger wire[i]} {:trigger log[i]} :: 0 <= i < |wire| ==> Encodes(wire[i], log[i].bytes)
  }

  /** One publish as a client sees it: one sending for each of its subscriptions, in list order. */
  function CopiesLog(frame: seq<byte>, subs: seq<Subscription>, sents: seq<nat>, c: int): seq<Sending>
    requires |sents| == |subs|
  {
    if subs == [] then []
    else
      var m := |subs| - 1;
      CopiesLog(frame, subs[..m], sents[..m], c) + (if subs[m].client == c then [Sending(frame, sents[m])] else [])
  }

  function Sum(s: seq<nat>): nat {
    if s == [] then 0 else Sum(s[..|s| - 1]) + s[|s| - 1]
  }

  lemma NothingCopied(frame: seq<byte>)
    ensures Sum([]) == 0 && forall c :: CopiesLog(frame, [], [], c) == []
  {
  }

  lemma SumSnoc(s: seq<nat>, n: nat)
    ensures Sum(s + [n]) == Sum(s) + n
  {
    assert (s + [n])[..|s|] == s;
  }

  /** Each log grew by its client's copies. */
  ghost predicate Copied(a: map<int, seq<Sending>>, b: map<int, seq<Sending>>, frame: seq<byte>, subs: seq<Subscription>,
                         sents: seq<nat>) {
    |sents| == |subs| && b.Keys == a.Keys && forall c :: c in a ==> b[c] == a[c] + CopiesLog(frame, subs, sents, c)
  }

  lemma CopiedNone(a: map<int, seq<Sending>>, frame: seq<byte>)
    ensures Copied(a, a, frame, [], [])
  {
    NothingCopied(frame);
  }

  lemma CopiedOne(a: map<int, seq<Sending>>, b: map<int, seq<Sending>>, frame: seq<byte>, subs: seq<Subscription>,
                  sents: seq<nat>, i: nat, sent: nat)
    requires i < |subs| && Copied(a, b, frame, subs[..i], sents) && subs[i].client in b
    ensures
      var c := subs[i].client;
      Copied(a, b[c := b[c] + [Sending(frame, sent)]], frame, subs[..i + 1], sents + [sent])
  {
    hide CopiesLog;
    var c := subs[i].client;
    forall k | k in a
      ensures b[c := b[c] + [Sending(frame, sent)]][k] == a[k] + CopiesLog(frame, subs[..i + 1], sents + [sent], k)
    {
      CopiesLogSnoc(frame, subs, sents, sent, i, k);
    }
  }

  /** Sends of at most `n` bytes add up to `n` each exactly when all of them are full. */
  lemma {:induction false} SumIsFull(s: seq<nat>, n: nat)
    requires forall i :: 0 <= i < |s| ==> s[i] <= n
    ensures Sum(s) <= n * |s|
    ensures Sum(s) == n * |s| <==> forall i :: 0 <= i < |s| ==> s[i] == n
  {
    if s != [] {
      var m := |s| - 1;
      SumIsFull(s[..m], n);
      assert n * |s| == n * m + n;
      if s[m] == n && Sum(s[..m]) == n * m {
        forall i | 0 <= i < |s| ensures s[i] == n { if i < m { assert s[i] == s[..m][i]; } }
      }
    }
  }

  lemma CopiesLogSnoc(frame: seq<byte>, subs: seq<Subscription>, sents: seq<nat>, sent: nat, i: nat, c: int)
    requires |sents| == i < |subs|
    ensures CopiesLog(frame, subs[..i + 1], sents + [sent], c) ==
            CopiesLog(frame, subs[..i], sents, c) + (if subs[i].client == c then [Sending(frame, sent)] else [])
  {
    assert subs[..i + 1][..i] == subs[..i] && (sents + [sent])[..i] == sents;
  }

  // ----- The receiver's side -----------------------------------------------------------------------

  function Handed(log: seq<Sending>): seq<seq<byte>> {
    if log == [] then [] else [log[0].bytes] + Handed(log[1..])
  }

  /** What is sent carries its own length. */
  lemma EncodedLength(x: Sent, b: seq<byte>)
    requires Encodes(x, b)
    ensures |b| >= HEADLEN && UnBE(b[1..5]) == |b|
  {
    hide BE, UnBE, Visible, StrLen;
    var opcode := b[0];
    match x
    case Direct(AckFrame(o, rc)) => AckLength(o, rc);
    case Direct(PublishFrame(p)) => PublishLength(p, b);
    case Relayed(_, _, p) => PublishLength(p, b);
  }

  lemma AckLength(opcode: byte, rc: byte)
    ensures var b := AckBytes(8, AckPkt(opcode, 0, rc)); |b| == 8 && UnBE(b[1..5]) == 8
  {
    hide BE, UnBE;
    var b := AckBytes(8, AckPkt(opcode, 0, rc));
    assert b[1..5] == BE(4, 8);
    Field4(8);
  }

  lemma PublishLength(p: Publish, b: seq<byte>)
    requires IsPacked(p, b)
    ensures |b| >= HEADLEN && UnBE(b[1..5]) == |b|
  {
    hide UnBE, PublishBytes;
    PublishHeader(|b|, p, b);
  }

  lemma Associate(a: seq<byte>, b: seq<byte>, c: seq<byte>)
    ensures a + (b + c) == a + b + c
  {
  }

  lemma {:induction false} StreamCons(x: Sending, log: seq<Sending>)
    requires x.sent <= |x.bytes| && InBounds(log)
    ensures InBounds([x] + log) && Stream([x] + log) == x.bytes[..x.sent] + Stream(log)
  {
    if log == [] {
      assert [x] + log == [] + [x];
      StreamSnoc([], x);
    } else {
      var front, last := log[..|log| - 1], log[|log| - 1];
      hide Stream;
      StreamCons(x, front);
      assert log == front + [last];
      StreamSnoc(front, last);
      assert [x] + log == [x] + front + [last];
      StreamSnoc([x] + front, last);
      hide InBounds;
      Associate(x.bytes[..x.sent], Stream(front), last.bytes[..last.sent]);
    }
  }

  lemma CutCons(b: seq<byte>, rest: seq<byte>, capacity: nat)
    requires |b| >= HEADLEN && UnBE(b[1..5]) == |b|
    ensures Cut(b + rest) == [b] + Cut(rest)
    ensures |b| <= HEADLEN + capacity && Framed(rest, capacity) ==> Framed(b + rest, capacity)
  {
    hide UnBE;
    assert (b + rest)[1..5] == b[1..5] && (b + rest)[..|b|] == b && (b + rest)[|b|..] == rest;
  }

  lemma CutNothing(capacity: nat)
    ensures Cut([]) == [] && Framed([], capacity)
  {
  }

  /** No frame is larger than a ring of that capacity can receive. */
  ghost predicate Fitting(log: seq<Sending>, capacity: nat) {
    forall i :: 0 <= i < |log| ==> |log[i].bytes| <= HEADLEN + capacity
  }

  lemma EncodesRest(wire: seq<Sent>, log: seq<Sending>, capacity: nat)
    requires EncodesAll(wire, log) && Complete(log) && log != []
    ensures EncodesAll(wire[1..], log[1..]) && Complete(log[1..])
    ensures Fitting(log, capacity) ==> Fitting(log[1..], capacity)
  {
    assert forall i :: 0 <= i < |log| - 1 ==> log[1..][i] == log[i + 1] && wire[1..][i] == wire[i + 1];
  }

  /** When every sending was complete, the stream is whole frames, and they are those handed to `sendall`. What `recv_packet`
      makes of such a stream is said in Reception. */
  lemma {:induction false} StreamIsCutIntoFrames(wire: seq<Sent>, log: seq<Sending>, capacity: nat)
    requires EncodesAll(wire, log) && Complete(log)
    ensures Cut(Stream(log)) == Handed(log)
    ensures Fitting(log, capacity) ==> Framed(Stream(log), capacity)
  {
    hide Encodes, UnBE, Cut, Framed;
    if log == [] {
      CutNothing(capacity);
    } else {
      var b := log[0].bytes;
      EncodedLength(wire[0], b);
      EncodesRest(wire, log, capacity);
      StreamCons(log[0], log[1..]);
      assert [log[0]] + log[1..] == log && b[..log[0].sent] == b;
      CutCons(b, Stream(log[1..]), capacity);
      StreamIsCutIntoFrames(wire[1..], log[1..], capacity);
    }
  }

  /** From the broker's log of a connection to the packets that calls of `recv_packet` return at its other end: they are the
      frames handed to `sendall` exactly when no call takes a byte beyond its packet. */
  method ReceiveConnection(ghost wire: seq<Sent>, ghost log: seq<Sending>, sock: InSocket, capacity: nat)
    returns (packets: seq<seq<byte>>)
    requires EncodesAll(wire, log) && Complete(log) && Fitting(log, capacity) && capacity >= 9
    requires sock.unread == Stream(log)
    modifies sock
    ensures packets == Handed(log) <==> old(Exact(sock.unread, sock.plan))
    ensures (packets, sock.unread) == Reassembled(Stream(log), old(sock.plan), capacity)
  {
    hide Exact, Reassembled;
    StreamIsCutIntoFrames(wire, log, capacity);
    packets := ReceiveAll(sock, capacity);
  }
}
