/** What a run promises, read off the frames that were served: their bytes decide what is accepted, which topics are the
    same, how each request is answered and what every connection carries. */
module BrokerFrames {
  import opened Options
  import opened Bytes
  import opened Packets
  import opened BrokerModel
  import opened BrokerHistory
  import opened BrokerInvariants
  import opened BrokerSteps
  import opened BrokerRuns

  // ----- Frames ----------------------------------------------------------------------------------

  type Packet = f: seq<byte> | Readable(f) witness Ping()

  function Ping(): (f: seq<byte>)
    ensures Readable(f)
  {
    PingIsReadable();
    AckBytes(8, AckPkt(PINGREQ, 0, 0))
  }

  lemma PingIsReadable()
    ensures Readable(AckBytes(8, AckPkt(PINGREQ, 0, 0)))
  {
    hide BE, UnBE;
    AckRoundTrip(PINGREQ, 0, 0);
    var f := AckBytes(8, AckPkt(PINGREQ, 0, 0));
    assert ParseAck(f).header == Header(f[0], UnBE(f[1..5]));
  }

  /** A PUBLISH whose topic is not empty. */
  predicate Publishes(f: Packet) {
    f[0] == PUBLISH && UnBE(f[5..7]) > 0
  }

  /** A SUBSCRIBE whose topic is not empty. */
  predicate Subscribes(f: Packet) {
    f[0] == SUBSCRIBE && UnBE(f[5..7]) > 0
  }

  function TopicOf(f: Packet): seq<byte>
    requires Publishes(f) || Subscribes(f)
  {
    if f[0] == SUBSCRIBE then f[8..8 + UnBE(f[5..7])] else f[14..14 + UnBE(f[5..7])]
  }

  /** The acknowledgement that answers a frame, if one does: a CONNECT without id and a SUBSCRIBE without topic are refused. */
  function AckFor(f: Packet): (r: Option<Frame>)
    ensures r.Some? ==> r.value.AckFrame? && !Publishes(f)
    ensures Subscribes(f) ==> r == Some(AckFrame(SUBACK, 0))
  {
    if f[0] == CONNECT then Some(AckFrame(CONNACK, if UnBE(f[5..7]) > 0 then 0 else 1))
    else if f[0] == SUBSCRIBE then Some(AckFrame(SUBACK, if UnBE(f[5..7]) > 0 then 0 else 1))
    else if f[0] == PINGREQ then Some(AckFrame(PINGRESP, 0))
    else None
  }

  /** Topics are looked up under one name exactly when `strcmp` finds them equal. */
  lemma KeysTellApart(s: seq<byte>, t: seq<byte>)
    ensures Key(s) == Key(t) <==> SameString(s, t)
  {
    SameStringIff(s, t);
  }

  /** What a client builds and packs within the sizes of the fields and of the ring is such a frame, with the topic it names. */
  lemma BuiltPublishIsServed(topic: seq<byte>, message: seq<byte>, qos: byte, retain: byte, dup: byte, pad: seq<byte>)
    requires |pad| == 2 && NulFree(topic) && NulFree(message) && |topic| < 0x1_0000
    requires 16 + |topic| + |message| <= HEADLEN + RINGSIZE
    ensures
      var p := PublishPkt(topic, message, qos, retain, dup);
      var f := PublishBytes(p.header.size, p) + pad;
      Readable(f) && ParsePublish(f) == p && (topic != [] ==> Publishes(f) && TopicOf(f) == topic)
  {
    hide UnBE, Visible, StrLen, NulFree, PublishBytes, PublishPkt;
    var p := PublishPkt(topic, message, qos, retain, dup);
    var f := PublishBytes(p.header.size, p) + pad;
    PublishRoundTrip(topic, message, qos, retain, dup, pad);
    PublishPktIs(topic, message, qos, retain, dup);
    VisibleLen(topic);
    VisibleLen(message);
    FullLength(topic);
    FullLength(message);
    HeaderIs(f);
  }

  lemma BuiltSubscribeIsServed(topic: seq<byte>, qos: byte, pad: seq<byte>)
    requires |pad| == 2 && NulFree(topic) && |topic| < 0x1_0000
    ensures
      var p := SubscribePkt(topic, qos);
      var f := SubscribeBytes(p.header.size, p) + pad;
      Readable(f) && ParseSubscribe(f) == p && (topic != [] ==> Subscribes(f) && TopicOf(f) == topic)
  {
    hide UnBE, Visible, StrLen, NulFree, SubscribeBytes;
    var p := SubscribePkt(topic, qos);
    var f := SubscribeBytes(p.header.size, p) + pad;
    SubscribeRoundTrip(topic, qos, pad);
    SubscribePktIs(topic, qos);
    VisibleLen(topic);
    FullLength(topic);
    HeaderIs(f);
  }

  lemma FullLength(s: seq<byte>)
    ensures NulFree(s) ==> StrLen(s) == |s|
  {
  }

  // ----- What was served -------------------------------------------------------------------------

  /** A frame handed to `request_handler`, with what the memory of its reply held, or a run of `reply_handler`. */
  datatype Act = Received(client: int, frame: Packet, junk: Option<nat>) | Replied(client: int)

  /** The frames and replies of a run, in the order in which the workers took them. */
  function Acts(steps: seq<Step>): seq<Act> {
    if steps == [] then []
    else
      var w, s := Run(steps[..|steps| - 1]), steps[|steps| - 1];
      Acts(steps[..|steps| - 1]) + if Enabled(w, s) then ActOf(w, s) else []
  }

  function ActOf(w: World, s: Step): seq<Act>
    requires Enabled(w, s)
  {
    match s
    case Request(k, Some(f), junk) => [Received(w.workers[k].client, f, junk)]
    case Answer(k) => [Replied(w.workers[k].client)]
    case _ => []
  }

  /** Where the frame stands that the client's next reply answers. */
  function Pending(acts: seq<Act>, c: int): (k: Option<nat>)
    ensures k.Some? ==> k.value < |acts| && acts[k.value].Received? && acts[k.value].client == c
    ensures k.Some? ==> Publishes(acts[k.value].frame) || AckFor(acts[k.value].frame).Some?
  {
    if acts == [] then None
    else
      var m := |acts| - 1;
      var a := acts[m];
      if a.client != c then Pending(acts[..m], c)
      else if a.Replied? then None
      else if Publishes(a.frame) || AckFor(a.frame).Some? then Some(m)
      else Pending(acts[..m], c)
  }

  /** The publish that the reply `a` executes. */
  function Executes(before: seq<Act>, a: Act): Option<Publish> {
    if a.Replied? && Pending(before, a.client).Some? && Publishes(before[Pending(before, a.client).value].frame)
    then Some(ParsePublish(before[Pending(before, a.client).value].frame)) else None
  }

  /** The publishes that a client's frames asked for. */
  function Asked(acts: seq<Act>, c: int): seq<Publish> {
    if acts == [] then []
    else
      var a := acts[|acts| - 1];
      Asked(acts[..|acts| - 1], c)
      + if a.Received? && a.client == c && Publishes(a.frame) then [ParsePublish(a.frame)] else []
  }

  /** Those that were executed. */
  function Executed(acts: seq<Act>, c: int): seq<Publish> {
    if acts == [] then []
    else
      var before, a := acts[..|acts| - 1], acts[|acts| - 1];
      Executed(before, c) + if a.client == c && Executes(before, a).Some? then [Executes(before, a).value] else []
  }

  /** The publishes executed from act `k` on whose topic is the same string as `t`, with their publishers. */
  function ExecutedOn(acts: seq<Act>, k: nat, t: seq<byte>): seq<(int, Publish)> {
    if |acts| <= k then []
    else
      var before, a := acts[..|acts| - 1], acts[|acts| - 1];
      ExecutedOn(before, k, t)
      + if Executes(before, a).Some? && SameString(Executes(before, a).value.topic, t)
        then [(a.client, Executes(before, a).value)] else []
  }

  /** How many SUBSCRIBE frames there were; they are numbered in order. */
  function SubscribeCount(acts: seq<Act>): nat {
    if acts == [] then 0
    else
      var a := acts[|acts| - 1];
      SubscribeCount(acts[..|acts| - 1]) + if a.Received? && Subscribes(a.frame) then 1 else 0
  }

  /** How many of them a client sent whose topic is the same string as `t`. */
  function SubscribedTo(acts: seq<Act>, c: int, t: seq<byte>): nat {
    if acts == [] then 0
    else
      var a := acts[|acts| - 1];
      SubscribedTo(acts[..|acts| - 1], c, t)
      + if a.Received? && a.client == c && Subscribes(a.frame) && SameString(TopicOf(a.frame), t) then 1 else 0
  }

  /** The publishes that a client must be sent: each as often as it had subscribed to its topic by then. */
  function CopiesDue(acts: seq<Act>, c: int): seq<Publish> {
    if acts == [] then []
    else
      var before, a := acts[..|acts| - 1], acts[|acts| - 1];
      CopiesDue(before, c)
      + if Executes(before, a).Some?
        then var p := Executes(before, a).value; seq(SubscribedTo(before, c, p.topic), _ => p) else []
  }

  predicate RetainsOn(before: seq<Act>, a: Act, t: seq<byte>) {
    Executes(before, a).Some? && Executes(before, a).value.retain != 0 && SameString(Executes(before, a).value.topic, t)
  }

  /** The last executed publish on the topic that asked to be retained. */
  function LastRetaining(acts: seq<Act>, t: seq<byte>): Option<Publish> {
    if acts == [] then None
    else
      var before, a := acts[..|acts| - 1], acts[|acts| - 1];
      if RetainsOn(before, a, t) then Executes(before, a) else LastRetaining(before, t)
  }

  /** Some act from `k` on executes a retaining publish on the topic. */
  predicate RetainedFrom(acts: seq<Act>, t: seq<byte>, k: nat)
  {
    |acts| > k && (RetainsOn(acts[..|acts| - 1], acts[|acts| - 1], t) || RetainedFrom(acts[..|acts| - 1], t, k))
  }

  /** The frames that answer the frame at `k`: a SUBSCRIBE's acknowledgement is followed by what was retained on its topic
      when the frame was served, cut at the first NUL bytes, with retain 1 and dup 0. */
  function AnswerFrames(acts: seq<Act>, k: nat): seq<Frame>
    requires k < |acts| && acts[k].Received? && AckFor(acts[k].frame).Some?
  {
    var f := acts[k].frame;
    [AckFor(f).value]
    + if Subscribes(f) && LastRetaining(acts[..k], TopicOf(f)).Some?
      then var p := LastRetaining(acts[..k], TopicOf(f)).value;
           [PublishFrame(PublishPkt(Visible(p.topic), Visible(p.message), p.qos, 1, 0))]
      else []
  }

  /** The frames that one reply sends to client `c`: copies of a publish, the PUBACK of a publish of its own, the answer to
      another request of its own. */
  function SentBy(before: seq<Act>, a: Act, c: int): seq<Frame> {
    if a.Received? || Pending(before, a.client).None? then []
    else if Executes(before, a).Some? then
      var p := Executes(before, a).value;
      seq(SubscribedTo(before, c, p.topic), _ => PublishFrame(p))
      + if a.client == c && p.qos == 1 then [AckFrame(PUBACK, 0)] else []
    else if a.client == c then AnswerFrames(before, Pending(before, c).value) else []
  }

  /** Every frame that a connection must carry, in order. */
  function FramesDue(acts: seq<Act>, c: int): seq<Frame> {
    if acts == [] then [] else FramesDue(acts[..|acts| - 1], c) + SentBy(acts[..|acts| - 1], acts[|acts| - 1], c)
  }

  /** The frames on a connection, whatever they were sent for. */
  function Plain(wire: seq<Sent>): seq<Frame> {
    if wire == [] then []
    else
      Plain(wire[..|wire| - 1])
      + [match wire[|wire| - 1] case Direct(f) => f case Relayed(_, _, p) => PublishFrame(p)]
  }

  /** The pending reply of the client will use a bad pointer. */
  predicate Stale(acts: seq<Act>, c: int) {
    && Pending(acts, c).Some?
    && var k := Pending(acts, c).value;
       var f := acts[k].frame;
       && f[0] == SUBSCRIBE
       && if Subscribes(f) then LastRetaining(acts[..k], TopicOf(f)).Some? && RetainedFrom(acts, TopicOf(f), k)
          else acts[k].junk.Some?
  }

  // ----- One request -----------------------------------------------------------------------------

  /** The event that a frame leaves. */
  function EventOf(c: int, f: Packet, junk: Option<nat>, n: nat): seq<Event> {
    if Publishes(f) then [Accepted(c, ParsePublish(f))]
    else if Subscribes(f) then [Subscribed(c, Subscription(n, c, f[7]), Key(TopicOf(f)))]
    else match AckFor(f)
      case None => []
      case Some(a) => [Answering(c, a.opcode, a.rc, junk)]
  }

  /** The reply that a frame leaves pending. */
  function ReplyOf(db: Db, f: Packet, junk: Option<nat>): Option<Reply> {
    if Publishes(f) then Some(PublishReply(ParsePublish(f)))
    else match AckFor(f)
      case None => None
      case Some(a) =>
        Some(AckReply(a.opcode, a.rc,
                      if Subscribes(f) then PointerTo(TopicAt(db, Key(TopicOf(f))).retained) else Uninitialised(junk)))
  }

  /** What a request changes of what the history and the replies say. */
  ghost predicate Requested(db: Db, next: Db, c: int, f: Packet, junk: Option<nat>) {
    && next.clients.Keys == db.clients.Keys && c in db.clients && next.fault == db.fault
    && (forall x :: x in db.clients && x != c ==> next.clients[x].reply == db.clients[x].reply)
    && next.history == db.history + EventOf(c, f, junk, db.nextSub)
    && next.nextSub == db.nextSub + (if Subscribes(f) then 1 else 0)
    && next.clients[c].reply == ReplyOf(db, f, junk)
  }

  lemma AckIsSet(db: Db, c: int, opcode: byte, rc: byte, junk: Option<nat>)
    requires c in db.clients
    ensures
      var next := SetAckReply(db, c, opcode, rc, junk);
      && next.clients.Keys == db.clients.Keys && next.fault == db.fault && next.nextSub == db.nextSub
      && (forall x :: x in db.clients && x != c ==> next.clients[x].reply == db.clients[x].reply)
      && next.history == db.history + [Answering(c, opcode, rc, junk)]
      && next.clients[c].reply == Some(AckReply(opcode, rc, Uninitialised(junk)))
  {
  }

  lemma ConnectIsAnswered(db: Db, c: int, p: Connect, junk: Option<nat>)
    requires c in db.clients
    ensures
      var next, rc: byte := ConnectHandler(db, c, p, junk), if p.idlen > 0 then 0 else 1;
      && next.clients.Keys == db.clients.Keys && next.fault == db.fault && next.nextSub == db.nextSub
      && (forall x :: x in db.clients && x != c ==> next.clients[x].reply == db.clients[x].reply)
      && next.history == db.history + [Answering(c, CONNACK, rc, junk)]
      && next.clients[c].reply == Some(AckReply(CONNACK, rc, Uninitialised(junk)))
  {
    hide Visible, SetAckReply;
    if p.idlen == 0 {
      AckIsSet(db, c, CONNACK, 1, junk);
    } else if p.cleanSession == 1 {
      var client, name := db.clients[c], Visible(p.id);
      AckIsSet(WithClient(db.(names := (db.names - {client.name})[name := c]), c, client.(name := name)), c, CONNACK, 0, junk);
    } else {
      AckIsSet(db.(names := db.names[db.clients[c].name := c]), c, CONNACK, 0, junk);
    }
  }

  lemma ConnectDoes(db: Db, c: int, f: Packet, junk: Option<nat>)
    requires c in db.clients && f[0] == CONNECT
    ensures Requested(db, ConnectHandler(db, c, ParseConnect(f), junk), c, f, junk)
  {
    hide UnBE, Key, ConnectHandler, Uninitialised, TopicAt;
    ConnectIsAnswered(db, c, ParseConnect(f), junk);
  }

  lemma PublishDoes(db: Db, c: int, f: Packet, junk: Option<nat>)
    requires c in db.clients && db.clients[c].reply.None? && f[0] == PUBLISH
    ensures Requested(db, PublishHandler(db, c, ParsePublish(f)), c, f, junk)
  {
    hide UnBE, Key, TopicAt;
  }

  lemma SubscribeDoes(db: Db, c: int, f: Packet, junk: Option<nat>)
    requires c in db.clients && f[0] == SUBSCRIBE
    ensures Requested(db, SubscribeHandler(db, c, ParseSubscribe(f), junk), c, f, junk)
  {
    hide UnBE, Key, SetAckReply, Uninitialised, TopicAt, PointerTo;
    AckIsSet(db, c, SUBACK, 1, junk);
  }

  lemma OtherDoes(db: Db, c: int, f: Packet, junk: Option<nat>)
    requires c in db.clients && db.clients[c].reply.None? && f[0] in {SUBACK, PUBACK, PINGREQ}
    ensures Requested(db, if f[0] == PINGREQ then PingreqHandler(db, c, junk) else db, c, f, junk)
  {
    hide UnBE, SetAckReply, Uninitialised;
    AckIsSet(db, c, PINGRESP, 0, junk);
  }

  lemma CommandDoes(db: Db, c: int, f: Packet, junk: Option<nat>)
    requires c in db.clients && db.clients[c].reply.None? && UnpackPacket(f).Some?
    ensures Requested(db, Command(db, c, f[0], UnpackPacket(f).value, junk), c, f, junk)
  {
    hide UnBE, Requested, ConnectHandler, PublishHandler, SubscribeHandler, PingreqHandler, ParseConnect, ParsePublish,
      ParseSubscribe, ParseAck;
    match UnpackPacket(f).value
    case ConnectReq(_) => ConnectDoes(db, c, f, junk);
    case PublishReq(_) => PublishDoes(db, c, f, junk);
    case SubscribeReq(_) => SubscribeDoes(db, c, f, junk);
    case AckReq(_) => OtherDoes(db, c, f, junk);
  }

  /** Whatever the handlers do, the event and the reply are those of the frame. */
  lemma RequestDoes(db: Db, c: int, f: Packet, junk: Option<nat>)
    requires c in db.clients && db.clients[c].reply.None?
    ensures Requested(db, RequestHandler(db, c, Some(f), junk), c, f, junk)
  {
    if UnpackPacket(f).Some? {
      CommandDoes(db, c, f, junk);
      hide Command, UnpackPacket, EventOf, ReplyOf;
    } else {
      hide UnBE;
    }
  }

  /** In every run, for every readable frame that may be served next: a PUBLISH with topic leaves exactly its packet pending
      and recorded; any other frame that is answered leaves its acknowledgement pending, opcode and return code. */
  lemma PendingIsOfFrame(steps: seq<Step>, k: nat, f: Packet, junk: Option<nat>)
    requires Enabled(Run(steps), Request(k, Some(f), junk))
    ensures
      var w := Run(steps);
      var c := w.workers[k].client;
      var next := Next(w, Request(k, Some(f), junk)).db;
      && c in next.clients
      && next.history == w.db.history + EventOf(c, f, junk, w.db.nextSub)
      && (Publishes(f) ==> next.clients[c].reply == Some(PublishReply(ParsePublish(f))))
      && (AckFor(f).Some? ==>
            && next.clients[c].reply.Some? && next.clients[c].reply.value.AckReply?
            && var r := next.clients[c].reply.value;
               AckFor(f) == Some(AckFrame(r.opcode, r.rc)) && (!Subscribes(f) ==> r.retained == Uninitialised(junk)))
      && (!Publishes(f) && AckFor(f).None? ==> next.clients[c].reply.None?)
  {
    NoReplyIsOverwritten(steps, k, Some(f), junk);
    hide RequestHandler, EventOf, UnBE, Readable;
    RequestDoes(Run(steps).db, Run(steps).workers[k].client, f, junk);
  }

  // ----- One reply -------------------------------------------------------------------------------

  /** What a reply step changes of what the history and the replies say. */
  ghost predicate Replying(db: Db, next: Db, c: int) {
    && c in db.clients && next.clients.Keys == db.clients.Keys && next.nextSub == db.nextSub
    && (forall x :: x in db.clients && x != c ==> next.clients[x].reply == db.clients[x].reply)
    && if next.fault then
         next.history == db.history && db.clients[c].reply.Some? && db.clients[c].reply.value.AckReply?
       else
         && next.clients[c].reply.None?
         && next.history == db.history +
              match db.clients[c].reply
              case None => []
              case Some(PublishReply(p)) => [Published(c, p)]
              case Some(AckReply(_, _, _)) => [Answered(c)]
  }

  lemma ReplyDoes(db: Db, c: int)
    requires c in db.clients && SubscribersKnown(db) && !db.fault
    ensures Replying(db, ReplyHandler(db, c), c)
  {
    match db.clients[c].reply
    case None =>
    case Some(PublishReply(p)) =>
      PublishIsDone(db, c, p);
      hide ReplyHandler, Key, Copies, Retention;
    case Some(AckReply(_, _, _)) => hide RetainedPkt, Deliver, Key, SubscribersKnown;
  }

  // ----- The history is that of the frames -------------------------------------------------------

  function EventsBy(before: seq<Act>, a: Act): seq<Event> {
    match a
    case Received(c, f, junk) => EventOf(c, f, junk, SubscribeCount(before))
    case Replied(c) =>
      if Pending(before, c).None? then []
      else if Executes(before, a).Some? then [Published(c, Executes(before, a).value)]
      else [Answered(c)]
  }

  /** The history that the frames give. */
  function Events(acts: seq<Act>): seq<Event> {
    if acts == [] then [] else Events(acts[..|acts| - 1]) + EventsBy(acts[..|acts| - 1], acts[|acts| - 1])
  }

  /** The pending reply is that of the frame it answers. */
  ghost predicate OfFrame(reply: Option<Reply>, acts: seq<Act>, c: int) {
    var k := Pending(acts, c);
    match reply
    case None => k.None?
    case Some(PublishReply(p)) => k.Some? && Publishes(acts[k.value].frame) && p == ParsePublish(acts[k.value].frame)
    case Some(AckReply(opcode, rc, _)) =>
      k.Some? && !Publishes(acts[k.value].frame) && AckFor(acts[k.value].frame) == Some(AckFrame(opcode, rc))
  }

  /** The acts whose events the history records: the reply that uses a bad pointer records none. */
  function Recorded(acts: seq<Act>, fault: bool): seq<Act> {
    if fault && acts != [] then acts[..|acts| - 1] else acts
  }

  ghost predicate Traced(db: Db, acts: seq<Act>) {
    && db.nextSub == SubscribeCount(acts) && db.history == Events(Recorded(acts, db.fault))
    && (forall i {:trigger acts[i]} :: 0 <= i < |acts| ==> acts[i].client in db.clients)
    && (forall c :: c in db.clients && !db.fault ==> OfFrame(db.clients[c].reply, acts, c))
    && (db.fault ==> && acts != [] && acts[|acts| - 1].Replied?
                     && Executes(acts[..|acts| - 1], acts[|acts| - 1]).None?)
  }

  lemma Last<T>(s: seq<T>, x: T)
    ensures (s + [x])[..|s + [x]| - 1] == s && (s + [x])[|s + [x]| - 1] == x && |s + [x]| == |s| + 1
  {
  }

  lemma PendingSnoc(acts: seq<Act>, a: Act, c: int)
    ensures
      Pending(acts + [a], c) ==
      if a.client != c then Pending(acts, c)
      else if a.Replied? then None
      else if Publishes(a.frame) || AckFor(a.frame).Some? then Some(|acts|)
      else Pending(acts, c)
    ensures forall k: nat :: k < |acts| ==> (acts + [a])[k] == acts[k]
  {
    Last(acts, a);
    hide Publishes, AckFor;
  }

  /** The pending replies after a request, and after a reply. */
  lemma ReplyAfterRequest(db: Db, acts: seq<Act>, c: int, f: Packet, junk: Option<nat>, x: int, before: Option<Reply>)
    requires OfFrame(before, acts, x) && (x == c ==> before.None?)
    ensures OfFrame(if x == c then ReplyOf(db, f, junk) else before, acts + [Received(c, f, junk)], x)
  {
    hide Publishes, Subscribes, AckFor, TopicOf, Pending, Readable, ParsePublish;
    PendingSnoc(acts, Received(c, f, junk), x);
  }

  lemma RequestIsTraced(db: Db, next: Db, acts: seq<Act>, c: int, f: Packet, junk: Option<nat>)
    requires Traced(db, acts) && !db.fault && Requested(db, next, c, f, junk) && db.clients[c].reply.None?
    ensures Traced(next, acts + [Received(c, f, junk)])
  {
    hide Publishes, Subscribes, AckFor, EventOf, ReplyOf, OfFrame, Executes, Readable;
    var a := Received(c, f, junk);
    Last(acts, a);
    forall x | x in next.clients ensures OfFrame(next.clients[x].reply, acts + [a], x) {
      ReplyAfterRequest(db, acts, c, f, junk, x, db.clients[x].reply);
    }
  }

  lemma NoneAfterReply(acts: seq<Act>, c: int, x: int, before: Option<Reply>)
    requires OfFrame(before, acts, x)
    ensures OfFrame(if x == c then None else before, acts + [Replied(c)], x)
  {
    hide Publishes, AckFor, Pending, Readable, ParsePublish;
    PendingSnoc(acts, Replied(c), x);
  }

  lemma ReplyEvent(reply: Option<Reply>, acts: seq<Act>, c: int)
    requires OfFrame(reply, acts, c)
    ensures
      EventsBy(acts, Replied(c)) ==
      match reply
      case None => []
      case Some(PublishReply(p)) => [Published(c, p)]
      case Some(AckReply(_, _, _)) => [Answered(c)]
    ensures Executes(acts, Replied(c)).Some? <==> reply.Some? && reply.value.PublishReply?
  {
    hide Publishes, AckFor, Pending, Readable, ParsePublish;
  }

  lemma ReplyIsTraced(db: Db, next: Db, acts: seq<Act>, c: int)
    requires Traced(db, acts) && !db.fault && Replying(db, next, c)
    ensures Traced(next, acts + [Replied(c)])
  {
    hide Publishes, Subscribes, OfFrame, EventsBy, Executes, Readable;
    var a := Replied(c);
    Last(acts, a);
    ReplyEvent(db.clients[c].reply, acts, c);
    forall x | x in next.clients && !next.fault ensures OfFrame(next.clients[x].reply, acts + [a], x) {
      NoneAfterReply(acts, c, x, db.clients[x].reply);
    }
  }

  lemma {:induction false} NeverPending(acts: seq<Act>, c: int)
    requires forall i {:trigger acts[i]} :: 0 <= i < |acts| ==> acts[i].client != c
    ensures Pending(acts, c).None?
  {
    if acts != [] {
      var before := acts[..|acts| - 1];
      assert forall i :: 0 <= i < |before| ==> before[i] == acts[i];
      NeverPending(before, c);
    }
  }

  lemma AcceptIsTraced(db: Db, acts: seq<Act>, c: int, client: Client)
    requires Traced(db, acts) && !db.fault && c !in db.clients && client.reply.None?
    ensures Traced(WithClient(db, c, client), acts)
  {
    hide Pending, Executes, Readable;
    NeverPending(acts, c);
  }

  lemma ArmIsTraced(db: Db, acts: seq<Act>, c: int, h: Handler, i: Interest)
    requires Traced(db, acts) && c in db.clients
    ensures Traced(Arm(db, c, h, i), acts)
  {
    hide Pending, Executes, Readable;
  }

  lemma StepIsTraced(w: World, s: Step, acts: seq<Act>)
    requires WorldInv(w) && Enabled(w, s) && Traced(w.db, acts)
    ensures Traced(Next(w, s).db, acts + ActOf(w, s))
  {
    hide Traced, Inv, RequestHandler, ReplyHandler, Readable, Phase;
    assert acts + [] == acts;
    match s
    case Accept(c, name) => AcceptIsTraced(w.db, acts, c, Client(name, OnRequest, ArmedIn, None, []));
    case Dispatch(k, c) => ArmIsTraced(w.db, acts, c, w.db.clients[c].handler, Disarmed);
    case Request(k, f, junk) =>
      var c := w.workers[k].client;
      assert Runs(w, k, c);
      RequestStepIsTraced(w, k, f, junk, acts);
    case Answer(k) =>
      var c := w.workers[k].client;
      ReplyDoes(w.db, c);
      ReplyIsTraced(w.db, ReplyHandler(w.db, c), acts, c);
    case Return(k) =>
  }

  lemma RequestStepIsTraced(w: World, k: nat, f: Option<seq<byte>>, junk: Option<nat>, acts: seq<Act>)
    requires WorldInv(w) && Enabled(w, Request(k, f, junk)) && Traced(w.db, acts)
    ensures Traced(RequestHandler(w.db, w.workers[k].client, f, junk), acts + ActOf(w, Request(k, f, junk)))
  {
    hide Traced, Inv, Requested, Command, UnpackPacket;
    var c := w.workers[k].client;
    assert Runs(w, k, c);
    if f.None? {
      assert acts + [] == acts;
      ArmIsTraced(w.db, acts, c, OnRequest, ArmedIn);
    } else {
      hide RequestHandler, Readable;
      RequestDoes(w.db, c, f.value, junk);
      RequestIsTraced(w.db, RequestHandler(w.db, c, Some(f.value), junk), acts, c, f.value, junk);
    }
  }

  /** In every run the history is what the frames give, subscriptions are numbered by their SUBSCRIBE frames, and every
      pending reply is that of its frame. */
  lemma {:induction false} RunIsTraced(steps: seq<Step>)
    ensures Traced(Run(steps).db, Acts(steps))
  {
    if steps != [] {
      hide Traced, WorldInv;
      var front, s := steps[..|steps| - 1], steps[|steps| - 1];
      RunIsTraced(front);
      RunKeeps(front);
      if Enabled(Run(front), s) { StepIsTraced(Run(front), s, Acts(front)); }
      assert Acts(front) + [] == Acts(front);
    }
  }

  // ----- From frames to events -------------------------------------------------------------------

  /** The event of a served frame. */
  lemma EventIs(c: int, f: Packet, junk: Option<nat>, n: nat)
    ensures |EventOf(c, f, junk, n)| <= 1 && (EventOf(c, f, junk, n) == [] <==> !Publishes(f) && AckFor(f).None?)
    ensures EventOf(c, f, junk, n) != [] ==>
              var e := EventOf(c, f, junk, n)[0];
              && e.client == c && !e.Published? && !e.Answered?
              && (e.Accepted? <==> Publishes(f)) && (e.Accepted? ==> e.p == ParsePublish(f))
              && (e.Subscribed? <==> Subscribes(f))
              && (e.Subscribed? ==> e.sub == Subscription(n, c, f[7]) && e.topic == Key(TopicOf(f)))
              && (e.Answering? ==> AckFor(f) == Some(AckFrame(e.opcode, e.rc)) && e.junk == junk)
  {
    hide UnBE, Key, ParsePublish, TopicOf, Readable;
  }

  lemma EventsGrow(acts: seq<Act>)
    requires acts != []
    ensures Events(acts) == Events(acts[..|acts| - 1]) + EventsBy(acts[..|acts| - 1], acts[|acts| - 1])
  {
    hide EventsBy;
  }

  lemma NumberedStep(h: seq<Event>, before: seq<Act>, a: Act)
    requires Numbered(h, SubscribeCount(before))
    ensures Numbered(h + EventsBy(before, a), SubscribeCount(before) + if a.Received? && Subscribes(a.frame) then 1 else 0)
  {
    ExecutesIs(before, a);
    hide Numbered, EventsBy, Publishes, Subscribes, Executes, SubscribeCount, TopicOf, Key, Readable;
    var es := EventsBy(before, a);
    if es == [] {
      assert h + es == h;
    } else {
      assert es == [es[0]];
      NumberedSnoc(h, es[0], SubscribeCount(before));
    }
  }

  lemma {:induction false} EventsAreNumbered(acts: seq<Act>)
    ensures Numbered(Events(acts), SubscribeCount(acts))
  {
    if acts == [] {
      assert Numbered([], 0);
    } else {
      hide Numbered, EventsBy, Subscribes, Events;
      EventsGrow(acts);
      EventsAreNumbered(acts[..|acts| - 1]);
      NumberedStep(Events(acts[..|acts| - 1]), acts[..|acts| - 1], acts[|acts| - 1]);
    }
  }

  /** The client's last request in the history is the frame that its next reply answers. */
  lemma {:induction false} PendingIsLastRequest(acts: seq<Act>, c: int)
    requires Pending(acts, c).Some?
    ensures
      var k := Pending(acts, c).value;
      var h, at := Events(acts), |Events(acts[..k])|;
      && LastRequest(h, c) == Some(at) && at < |h| && h[..at] == Events(acts[..k])
      && EventOf(c, acts[k].frame, acts[k].junk, SubscribeCount(acts[..k])) == [h[at]]
  {
    hide EventOf, EventsBy, Publishes, Subscribes, AckFor, LastRequest, SubscribeCount, Readable;
    var m := |acts| - 1;
    var before, a := acts[..m], acts[m];
    var k := Pending(acts, c).value;
    assert acts[..k] == before[..k];
    if k < m {
      PendingIsLastRequest(before, c);
      LaterIsNoRequest(Events(before), before, a, c);
    } else {
      NowIsRequest(Events(before), before, a);
    }
  }

  lemma NowIsRequest(h: seq<Event>, before: seq<Act>, a: Act)
    requires a.Received? && (Publishes(a.frame) || AckFor(a.frame).Some?)
    ensures
      var es := EventsBy(before, a);
      |es| == 1 && es == EventOf(a.client, a.frame, a.junk, SubscribeCount(before)) && LastRequest(h + es, a.client) == Some(|h|)
  {
    EventIs(a.client, a.frame, a.junk, SubscribeCount(before));
    hide EventOf, Publishes, AckFor, LastRequest, Readable;
    var es := EventsBy(before, a);
    assert es == [es[0]];
    LastRequestSnoc(h, es[0], a.client);
  }

  lemma LaterIsNoRequest(h: seq<Event>, before: seq<Act>, a: Act, c: int)
    requires a.client != c || (a.Received? && !Publishes(a.frame) && AckFor(a.frame).None?)
    ensures LastRequest(h + EventsBy(before, a), c) == LastRequest(h, c)
  {
    ExecutesIs(before, a);
    if a.Received? { EventIs(a.client, a.frame, a.junk, SubscribeCount(before)); }
    hide EventOf, Publishes, AckFor, LastRequest, Readable, Executes, Subscribes;
    var es := EventsBy(before, a);
    if es == [] {
      assert h + es == h;
    } else {
      assert es == [es[0]];
      LastRequestSnoc(h, es[0], c);
    }
  }

  /** An act executes a publish exactly when its event is that publish. */
  lemma ExecutesIs(before: seq<Act>, a: Act)
    ensures |EventsBy(before, a)| <= 1
    ensures EventsBy(before, a) != [] ==>
              && EventsBy(before, a)[0].client == a.client
              && (EventsBy(before, a)[0].Published? <==> Executes(before, a).Some?)
              && (EventsBy(before, a)[0].Subscribed? <==> a.Received? && Subscribes(a.frame))
              && (EventsBy(before, a)[0].Accepted? <==> a.Received? && Publishes(a.frame))
    ensures EventsBy(before, a) == [] ==>
              Executes(before, a).None? && (a.Received? ==> !Subscribes(a.frame) && !Publishes(a.frame))
    ensures Executes(before, a).Some? ==> EventsBy(before, a) == [Published(a.client, Executes(before, a).value)]
    ensures a.Received? && Publishes(a.frame) ==> EventsBy(before, a) == [Accepted(a.client, ParsePublish(a.frame))]
    ensures a.Received? && Subscribes(a.frame) ==>
              EventsBy(before, a) ==
              [Subscribed(a.client, Subscription(SubscribeCount(before), a.client, a.frame[7]), Key(TopicOf(a.frame)))]
  {
    if a.Received? { EventIs(a.client, a.frame, a.junk, SubscribeCount(before)); }
    hide AckFor, Pending, ParsePublish, TopicOf, Key, UnBE, Readable;
  }

  lemma {:induction false} AskedAndExecuted(acts: seq<Act>, c: int)
    ensures AcceptedFrom(Events(acts), c) == Asked(acts, c) && PublishedBy(Events(acts), c) == Executed(acts, c)
  {
    if acts != [] {
      var before, a := acts[..|acts| - 1], acts[|acts| - 1];
      AskedAndExecuted(before, c);
      ExecutesIs(before, a);
      hide EventsBy, Executes, Publishes, Subscribes, ParsePublish, Readable;
      if EventsBy(before, a) == [] {
        assert Events(before) + [] == Events(before);
      } else {
        assert EventsBy(before, a) == [EventsBy(before, a)[0]];
        Snoc(Events(before), EventsBy(before, a)[0]);
      }
    }
  }

  lemma OneSubscription(h: seq<Event>, before: seq<Act>, a: Act, c: int, t: seq<byte>)
    ensures
      CountSubs(h + EventsBy(before, a), c, Key(t)) ==
      CountSubs(h, c, Key(t))
      + if a.Received? && a.client == c && Subscribes(a.frame) && SameString(TopicOf(a.frame), t) then 1 else 0
  {
    ExecutesIs(before, a);
    hide EventsBy, Executes, Publishes, Subscribes, TopicOf, Key, Readable, SameString;
    if a.Received? && Subscribes(a.frame) { KeysTellApart(TopicOf(a.frame), t); }
    if EventsBy(before, a) == [] {
      assert h + [] == h;
    } else {
      assert EventsBy(before, a) == [EventsBy(before, a)[0]];
      Snoc(h, EventsBy(before, a)[0]);
    }
  }

  lemma {:induction false} SubscriptionsAre(acts: seq<Act>, c: int, t: seq<byte>)
    ensures CountSubs(Events(acts), c, Key(t)) == SubscribedTo(acts, c, t)
  {
    hide EventsBy, Subscribes, TopicOf, Key, SameString, CountSubs, Readable;
    if acts == [] {
      assert CountSubs([], c, Key(t)) == 0 by { NoSubscriptions(c, Key(t)); }
    } else {
      var before, a := acts[..|acts| - 1], acts[|acts| - 1];
      SubscriptionsAre(before, c, t);
      OneSubscription(Events(before), before, a, c, t);
    }
  }

  lemma NoSubscriptions(c: int, t: Name)
    ensures CountSubs([], c, t) == 0
  {
  }

  lemma {:induction false} CopiesDueAre(acts: seq<Act>, c: int)
    ensures DueToClient(Events(acts), c) == CopiesDue(acts, c)
  {
    if acts != [] {
      var before, a := acts[..|acts| - 1], acts[|acts| - 1];
      CopiesDueAre(before, c);
      ExecutesIs(before, a);
      hide EventsBy, Executes, Publishes, Subscribes, TopicOf, Key, Readable, SameString, CountSubs, SubscribedTo, Repeat;
      if EventsBy(before, a) == [] {
        assert Events(before) + [] == Events(before);
      } else {
        var e := EventsBy(before, a)[0];
        assert EventsBy(before, a) == [e];
        Snoc(Events(before), e);
        if e.Published? {
          SubscriptionsAre(before, c, e.p.topic);
          RepeatIs(e.p, SubscribedTo(before, c, e.p.topic));
        }
      }
    }
  }

  lemma {:induction false} RepeatIs(p: Publish, n: nat)
    ensures Repeat(p, n) == seq(n, _ => p)
  {
    if n > 0 { RepeatIs(p, n - 1); }
  }

  lemma OneRetention(h: seq<Event>, before: seq<Act>, a: Act, t: seq<byte>)
    ensures LastRetained(h + EventsBy(before, a), Key(t)) ==
            if RetainsOn(before, a, t) then Executes(before, a) else LastRetained(h, Key(t))
  {
    ExecutesIs(before, a);
    hide EventsBy, Executes, Publishes, Subscribes, TopicOf, Key, Readable, SameString;
    if EventsBy(before, a) == [] {
      assert h + [] == h;
    } else {
      var e := EventsBy(before, a)[0];
      assert EventsBy(before, a) == [e];
      Snoc(h, e);
      if e.Published? { KeysTellApart(e.p.topic, t); }
    }
  }

  lemma NothingRetained(t: Name)
    ensures LastRetained([], t) == None
  {
  }

  lemma {:induction false} LastRetainingIs(acts: seq<Act>, t: seq<byte>)
    ensures LastRetained(Events(acts), Key(t)) == LastRetaining(acts, t)
  {
    hide EventsBy, Executes, RetainsOn, Key, LastRetained, Readable;
    if acts == [] {
      NothingRetained(Key(t));
    } else {
      LastRetainingIs(acts[..|acts| - 1], t);
      OneRetention(Events(acts[..|acts| - 1]), acts[..|acts| - 1], acts[|acts| - 1], t);
    }
  }

  lemma RetainedFromSnoc(before: seq<Act>, a: Act, t: seq<byte>, at: nat)
    requires at < |Events(before)|
    ensures
      RetainedSince(Events(before) + EventsBy(before, a), Key(t), at) <==>
      RetainedSince(Events(before), Key(t), at) || RetainsOn(before, a, t)
  {
    ExecutesIs(before, a);
    hide Events, EventsBy, Executes, Publishes, Subscribes, TopicOf, Key, Readable, SameString, RetainedSince;
    if EventsBy(before, a) == [] {
      assert Events(before) + [] == Events(before);
    } else {
      var e := EventsBy(before, a)[0];
      assert EventsBy(before, a) == [e];
      RetainedSinceSnoc(Events(before), e, Key(t), at);
      if e.Published? { KeysTellApart(e.p.topic, t); }
    }
  }

  lemma RequestRetainsNothing(before: seq<Act>, a: Act, t: seq<byte>, k: nat)
    requires a.Received? && EventsBy(before, a) != [] && k == |before|
    ensures !RetainedSince(Events(before) + EventsBy(before, a), Key(t), |Events(before)|)
    ensures !RetainsOn(before, a, t) && !RetainedFrom(before, t, k)
  {
    EventIs(a.client, a.frame, a.junk, SubscribeCount(before));
    hide Events, EventOf, Publishes, Subscribes, AckFor, Key, Readable, SameString;
    assert |EventsBy(before, a)| == 1;
  }

  /** The topic's retained message was replaced after the frame at `k`. */
  lemma {:induction false} RetainedFromIs(acts: seq<Act>, t: seq<byte>, k: nat)
    requires k < |acts| && acts[k].Received? && EventsBy(acts[..k], acts[k]) != []
    ensures |Events(acts[..k])| < |Events(acts)|
    ensures RetainedSince(Events(acts), Key(t), |Events(acts[..k])|) <==> RetainedFrom(acts, t, k)
  {
    hide EventsBy, RetainsOn, Key, RetainedSince, Readable;
    var m := |acts| - 1;
    var before, a := acts[..m], acts[m];
    if k == m {
      RequestRetainsNothing(before, a, t, k);
    } else {
      assert before[..k] == acts[..k] && before[k] == acts[k];
      RetainedFromIs(before, t, k);
      RetainedFromSnoc(before, a, t, |Events(acts[..k])|);
    }
  }

  lemma OnePublish(h: seq<Event>, before: seq<Act>, a: Act, t: seq<byte>)
    ensures
      PublishesOn(h + EventsBy(before, a), Key(t)) ==
      PublishesOn(h, Key(t))
      + if Executes(before, a).Some? && SameString(Executes(before, a).value.topic, t)
        then [(a.client, Executes(before, a).value)] else []
  {
    ExecutesIs(before, a);
    hide EventsBy, Executes, Publishes, Subscribes, TopicOf, Key, Readable, SameString, PublishesOn;
    if EventsBy(before, a) == [] {
      assert h + [] == h;
    } else {
      var e := EventsBy(before, a)[0];
      assert EventsBy(before, a) == [e];
      PublishesSnoc(h, e, Key(t));
      if e.Published? { KeysTellApart(e.p.topic, t); }
    }
  }

  lemma {:induction false} ExecutedOnIs(acts: seq<Act>, k: nat, t: seq<byte>)
    requires k <= |acts|
    ensures |Events(acts[..k])| <= |Events(acts)|
    ensures PublishesOn(Events(acts)[|Events(acts[..k])|..], Key(t)) == ExecutedOn(acts, k, t)
  {
    hide Events, EventsBy, Executes, Key, SameString, PublishesOn;
    var at := |Events(acts[..k])|;
    if k == |acts| {
      assert acts[..k] == acts;
      assert Events(acts)[at..] == [];
      NothingPublished(Key(t));
    } else {
      var m := |acts| - 1;
      var before, a := acts[..m], acts[m];
      assert before[..k] == acts[..k];
      ExecutedOnIs(before, k, t);
      EventsGrow(acts);
      OnePublish(Events(before)[at..], before, a, t);
      assert Events(acts)[at..] == Events(before)[at..] + EventsBy(before, a);
    }
  }

  // ----- What connections carry ------------------------------------------------------------------

  lemma {:induction false} PlainAppend(a: seq<Sent>, b: seq<Sent>)
    ensures Plain(a + b) == Plain(a) + Plain(b)
  {
    if b == [] {
      assert a + b == a;
    } else {
      assert (a + b)[..|a + b| - 1] == a + b[..|b| - 1];
      PlainAppend(a, b[..|b| - 1]);
    }
  }

  lemma PlainSnoc(w: seq<Sent>, s: nat, sender: int, p: Publish)
    ensures Plain(w + [Relayed(s, sender, p)]) == Plain(w) + [PublishFrame(p)]
    ensures |RelayedOn(w + [Relayed(s, sender, p)])| == |RelayedOn(w)| + 1
  {
    Last(w, Relayed(s, sender, p));
  }

  lemma {:induction false} PlainCopies(subs: seq<Subscription>, c: int, sender: int, p: Publish)
    ensures Plain(Copies(subs, c, sender, p)) == seq(|RelayedOn(Copies(subs, c, sender, p))|, _ => PublishFrame(p))
  {
    hide Plain, RelayedOn;
    if subs == [] {
      assert Plain([]) == [] && RelayedOn([]) == [] by { NothingPlain(); }
    } else {
      var s := subs[|subs| - 1];
      var front := Copies(subs[..|subs| - 1], c, sender, p);
      PlainCopies(subs[..|subs| - 1], c, sender, p);
      if s.client == c { PlainSnoc(front, s.id, sender, p); } else { assert front + [] == front; }
    }
  }

  lemma NothingPlain()
    ensures Plain([]) == [] && RelayedOn([]) == []
  {
  }

  /** One publish, on each connection. */
  lemma PublishCarries(acts: seq<Act>, c: int, sender: int, p: Publish)
    ensures Plain(Copies(SubsOf(Events(acts), Key(p.topic)), c, sender, p)) ==
            seq(SubscribedTo(acts, c, p.topic), _ => PublishFrame(p))
  {
    hide Copies, SubsOf, Key, Plain, RelayedOn, Repeat, CountSubs, Numbered, SubscribedTo;
    var subs := SubsOf(Events(acts), Key(p.topic));
    EventsAreNumbered(acts);
    CopiesForClient(Events(acts), SubscribeCount(acts), Key(p.topic), c, sender, p);
    PlainCopies(subs, c, sender, p);
    SubscriptionsAre(acts, c, p.topic);
    RepeatIs(p, SubscribedTo(acts, c, p.topic));
  }

  /** The answer to a request. */
  lemma AnswerCarries(acts: seq<Act>, c: int)
    requires Pending(acts, c).Some? && !Publishes(acts[Pending(acts, c).value].frame)
    ensures LastRequest(Events(acts), c).Some?
    ensures Plain(AnswerTo(Events(acts), LastRequest(Events(acts), c).value)) == AnswerFrames(acts, Pending(acts, c).value)
  {
    var k := Pending(acts, c).value;
    var f := acts[k].frame;
    PendingIsLastRequest(acts, c);
    EventIs(c, f, acts[k].junk, SubscribeCount(acts[..k]));
    if Subscribes(f) { LastRetainingIs(acts[..k], TopicOf(f)); }
    hide EventOf, Publishes, AckFor, TopicOf, Key, LastRequest, LastRetained, LastRetaining, Visible, PublishPkt, Pending, Events;
    AnswerIsPlain(Events(acts), |Events(acts[..k])|);
  }

  lemma AnswerIsPlain(h: seq<Event>, k: nat)
    requires k < |h|
    ensures
      Plain(AnswerTo(h, k)) ==
      match h[k]
      case Answering(_, opcode, rc, _) => [AckFrame(opcode, rc)]
      case Subscribed(_, _, t) =>
        [AckFrame(SUBACK, 0)] + (match LastRetained(h[..k], t)
                                 case None => []
                                 case Some(p) => [PublishFrame(PublishPkt(Visible(p.topic), Visible(p.message), p.qos, 1, 0))])
      case _ => []
  {
    hide LastRetained, Visible, PublishPkt;
    match h[k]
    case Subscribed(_, _, t) =>
      var x, y := [Direct(AckFrame(SUBACK, 0))], RetainedCopy(h[..k], t);
      PlainAppend(x, y);
    case _ =>
  }

  lemma PubackIsPlain(p: Publish)
    ensures Plain(Pubacks(p)) == if p.qos == 1 then [AckFrame(PUBACK, 0)] else []
  {
  }

  lemma SentBySnoc(before: seq<Act>, a: Act, c: int)
    ensures Plain(Carried(Events(before) + EventsBy(before, a), c)) == Plain(Carried(Events(before), c)) + SentBy(before, a, c)
  {
    hide Plain, Carried, Copies, SubsOf, Key, Pubacks, AnswerTo, LastRequest, AnswerFrames, SubscribedTo, EventOf, Publishes,
      AckFor, Subscribes, Pending, Events;
    var h := Events(before);
    if EventsBy(before, a) == [] {
      assert h + [] == h;
      ExecutesIs(before, a);
      if a.Received? { assert SentBy(before, a, c) == []; }
    } else {
      var e := EventsBy(before, a)[0];
      assert EventsBy(before, a) == [e] by { ExecutesIs(before, a); }
      CarriedSnoc(h, e, c);
      if a.Received? {
        EventIs(a.client, a.frame, a.junk, SubscribeCount(before));
      } else if Executes(before, a).Some? {
        var copies := Copies(SubsOf(h, Key(e.p.topic)), c, e.client, e.p);
        PublishCarries(before, c, e.client, e.p);
        PlainAppend(Carried(h, c), copies);
        if e.client == c {
          PlainAppend(Carried(h, c) + copies, Pubacks(e.p));
          PubackIsPlain(e.p);
        } else {
          assert Carried(h, c) + copies + [] == Carried(h, c) + copies;
        }
      } else if a.client == c {
        AnswerCarries(before, c);
        PlainAppend(Carried(h, c), AnswerTo(h, LastRequest(h, c).value));
      }
    }
  }

  lemma {:induction false} FramesDueAre(acts: seq<Act>, c: int)
    ensures Plain(Carried(Events(acts), c)) == FramesDue(acts, c)
  {
    if acts != [] {
      hide SentBy, EventsBy;
      FramesDueAre(acts[..|acts| - 1], c);
      SentBySnoc(acts[..|acts| - 1], acts[|acts| - 1], c);
    }
  }

  // ----- In every run ----------------------------------------------------------------------------

  /** The reply that uses a bad pointer executes nothing and asks for nothing. */
  lemma RecordedIsAll(acts: seq<Act>, fault: bool, c: int)
    requires fault ==> acts != [] && acts[|acts| - 1].Replied? && Executes(acts[..|acts| - 1], acts[|acts| - 1]).None?
    ensures
      var r := Recorded(acts, fault);
      Asked(r, c) == Asked(acts, c) && Executed(r, c) == Executed(acts, c) && CopiesDue(r, c) == CopiesDue(acts, c)
  {
    hide Executes, Publishes, SubscribedTo;
  }

  /** In every run the publishes that a client's PUBLISH frames asked for are executed in that order, as they were sent, and
      at most one still waits. */
  lemma PublishesAreExecutedInOrder(steps: seq<Step>, c: int)
    requires c in Run(steps).db.clients
    ensures
      var db, acts := Run(steps).db, Acts(steps);
      Asked(acts, c) == Executed(acts, c) + PendingPublish(db.clients[c].reply) && Executed(acts, c) == PublishedBy(db.history, c)
  {
    hide Run, Acts, OfFrame, Asked, Executed;
    RunIsTraced(steps);
    PublishesInOrder(steps, c);
    var db, acts := Run(steps).db, Acts(steps);
    AskedAndExecuted(Recorded(acts, db.fault), c);
    RecordedIsAll(acts, db.fault, c);
  }

  /** In every run, for every SUBSCRIBE frame with topic: what its client was sent on its behalf is every publish executed
      after the frame was served whose topic is the same string, each once and in order, and nothing else. */
  lemma SubscriberGetsPublishes(steps: seq<Step>, k: nat)
    requires k < |Acts(steps)| && Acts(steps)[k].Received? && Subscribes(Acts(steps)[k].frame)
    ensures
      var db, acts := Run(steps).db, Acts(steps);
      && acts[k].client in db.clients
      && SentFor(db.clients[acts[k].client].wire, SubscribeCount(acts[..k])) == ExecutedOn(acts, k + 1, TopicOf(acts[k].frame))
  {
    hide Run, Acts, OfFrame, Subscribes, TopicOf, SentFor, PublishesOn, Key, From, OnTopic, PublishedBy, Events, ExecutedOn,
      Executes, SubscribeCount, Readable;
    RunIsTraced(steps);
    var db, acts := Run(steps).db, Acts(steps);
    var r := Recorded(acts, db.fault);
    assert k < |r| && r[k] == acts[k] && r[..k] == acts[..k];
    AfterSubscribe(r, k);
    RecordedOn(acts, db.fault, k + 1, TopicOf(acts[k].frame));
    SubscriptionGetsWhatFollows(steps, |Events(r[..k])|, 0);
  }

  lemma AfterSubscribe(acts: seq<Act>, k: nat)
    requires k < |acts| && acts[k].Received? && Subscribes(acts[k].frame)
    ensures
      var h, at, a := Events(acts), |Events(acts[..k])|, acts[k];
      && at < |h|
      && h[at] == Subscribed(a.client, Subscription(SubscribeCount(acts[..k]), a.client, a.frame[7]), Key(TopicOf(a.frame)))
      && PublishesOn(h[at + 1..], h[at].topic) == ExecutedOn(acts, k + 1, TopicOf(a.frame))
  {
    hide Subscribes, TopicOf, PublishesOn, Key, Events, ExecutedOn, SubscribeCount, Readable;
    SubscribedAt(acts, k);
    ExecutedOnIs(acts, k + 1, TopicOf(acts[k].frame));
  }

  lemma RecordedOn(acts: seq<Act>, fault: bool, k: nat, t: seq<byte>)
    requires fault ==> acts != [] && acts[|acts| - 1].Replied? && Executes(acts[..|acts| - 1], acts[|acts| - 1]).None?
    ensures ExecutedOn(Recorded(acts, fault), k, t) == ExecutedOn(acts, k, t)
  {
    hide Executes;
  }

  lemma SubscribeEvent(before: seq<Act>, a: Act)
    requires a.Received? && Subscribes(a.frame)
    ensures EventsBy(before, a) ==
            [Subscribed(a.client, Subscription(SubscribeCount(before), a.client, a.frame[7]), Key(TopicOf(a.frame)))]
  {
    ExecutesIs(before, a);
  }

  /** Where the event of a SUBSCRIBE frame stands. */
  lemma {:induction false} SubscribedAt(acts: seq<Act>, k: nat)
    requires k < |acts| && acts[k].Received? && Subscribes(acts[k].frame)
    ensures
      var h, at := Events(acts), |Events(acts[..k])|;
      && at < |h| && |Events(acts[..k + 1])| == at + 1
      && h[at] == Subscribed(acts[k].client, Subscription(SubscribeCount(acts[..k]), acts[k].client, acts[k].frame[7]),
                             Key(TopicOf(acts[k].frame)))
  {
    hide EventsBy, Subscribes, TopicOf, Key, Readable, SubscribeCount;
    var m := |acts| - 1;
    if k < m {
      assert acts[..m][..k] == acts[..k] && acts[..m][..k + 1] == acts[..k + 1] && acts[..m][k] == acts[k];
      SubscribedAt(acts[..m], k);
    } else {
      SubscribeEvent(acts[..m], acts[m]);
      assert acts[..k + 1] == acts;
    }
  }

  /** In every run a connection carries each executed publish as often as its client had sent SUBSCRIBE frames by then whose
      topic is the same string: not at all when it had sent none. */
  lemma CopiesPerSubscription(steps: seq<Step>, c: int)
    requires c in Run(steps).db.clients
    ensures RelayedOn(Run(steps).db.clients[c].wire) == CopiesDue(Acts(steps), c)
  {
    hide Run, Acts, OfFrame, Asked, Executed, CopiesDue, DueToClient;
    RunIsTraced(steps);
    OneCopyPerSubscription(steps, c);
    var db, acts := Run(steps).db, Acts(steps);
    CopiesDueAre(Recorded(acts, db.fault), c);
    RecordedIsAll(acts, db.fault, c);
  }

  /** In every run that has used no bad pointer a connection has carried exactly the frames that are due for the frames
      served, in order. */
  lemma ConnectionIsOfFrames(steps: seq<Step>, c: int)
    requires c in Run(steps).db.clients && !Run(steps).db.fault
    ensures Plain(Run(steps).db.clients[c].wire) == FramesDue(Acts(steps), c)
  {
    hide Run, Acts, OfFrame, FramesDue;
    RunIsTraced(steps);
    ConnectionCarries(steps, c);
    FramesDueAre(Acts(steps), c);
  }

  /** In every run a reply step uses a bad pointer exactly when it answers a SUBSCRIBE frame whose topic had a retained message
      that a publish on the same topic replaced since, or one without topic whose reply's memory held a pointer. */
  lemma BadPointerIff(steps: seq<Step>, k: nat)
    requires Enabled(Run(steps), Answer(k))
    ensures Next(Run(steps), Answer(k)).db.fault <==> Stale(Acts(steps), Run(steps).workers[k].client)
  {
    var db, c := Run(steps).db, Run(steps).workers[k].client;
    RetainedReachesSubscriber(steps, k);
    RunIsTraced(steps);
    EachReplyIsSentOnce(steps, c);
    hide Run, Acts, Next, Doomed, Stale, Events;
    assert OfFrame(db.clients[c].reply, Acts(steps), c);
    StaleIsDoomed(Acts(steps), c);
  }

  lemma StaleIsDoomed(acts: seq<Act>, c: int)
    requires Outstanding(Events(acts), c) == if Pending(acts, c).Some? then 1 else 0
    ensures Stale(acts, c) <==> Doomed(Events(acts), c)
  {
    hide Outstanding, Pending;
    if Pending(acts, c).Some? {
      PendingIsLastRequest(acts, c);
      hide Events, LastRequest;
      var k := Pending(acts, c).value;
      var f := acts[k].frame;
      EventIs(c, f, acts[k].junk, SubscribeCount(acts[..k]));
      hide EventOf, Publishes, TopicOf, Key, LastRetained, LastRetaining, RetainedSince, RetainedFrom, UnBE, Readable, EventsBy;
      if Subscribes(f) {
        LastRetainingIs(acts[..k], TopicOf(f));
        EventsByReceived(acts[..k], acts[k]);
        RetainedFromIs(acts, TopicOf(f), k);
      }
    }
  }

  lemma EventsByReceived(before: seq<Act>, a: Act)
    requires a.Received?
    ensures EventsBy(before, a) == EventOf(a.client, a.frame, a.junk, SubscribeCount(before))
  {
  }
}
