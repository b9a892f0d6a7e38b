/** Each handler keeps the broker's invariant. */
module BrokerSteps {
  import opened Options
  import opened Bytes
  import opened Packets
  import opened BrokerModel
  import opened BrokerHistory
  import opened BrokerInvariants

  /** Nothing the invariant speaks of differs. */
  ghost predicate Alike(db: Db, db': Db) {
    && db'.history == db.history && db'.nextSub == db.nextSub
    && db'.messages == db.messages && db'.nextMessage == db.nextMessage
    && (forall t: Name :: TopicAt(db', t) == TopicAt(db, t))
    && db'.clients.Keys == db.clients.Keys
    && (forall c :: c in db.clients ==> db'.clients[c].wire == db.clients[c].wire && db'.clients[c].reply == db.clients[c].reply)
    && db'.fault == db.fault
  }

  lemma AlikeKeeps(db: Db, db': Db)
    requires Inv(db) && Alike(db, db')
    ensures Inv(db')
  {
    forall t: Name ensures TopicInv(db', t) { assert TopicInv(db, t); }
    forall c | c in db'.clients ensures ClientInv(db', c) { assert ClientInv(db, c); AlikePointer(db, db', c); }
  }

  lemma AlikePointer(db: Db, db': Db, c: int)
    requires Alike(db, db') && c in db.clients && PointerInv(db, c)
    ensures PointerInv(db', c)
  {
  }

  lemma ArmKeeps(db: Db, c: int, h: Handler, i: Interest)
    requires Inv(db) && c in db.clients
    ensures Inv(Arm(db, c, h, i))
  {
    AlikeKeeps(db, Arm(db, c, h, i));
  }

  lemma ApartKeeps(db: Db, db': Db)
    requires RetainedApart(db) && forall t: Name :: TopicAt(db', t).retained == TopicAt(db, t).retained
    ensures RetainedApart(db')
  {
  }

  /** A new connection. */
  lemma AcceptKeeps(db: Db, c: int, client: Client)
    requires Inv(db) && c !in db.clients && client.reply.None? && client.wire == []
    ensures Inv(WithClient(db, c, client))
  {
    hide Numbered, RetainedSince, LastRetained, LastRequest, SubsOf, SubInfo, DueTo, Owed, Accounted, RetainedApart, Carried;
    var db' := WithClient(db, c, client);
    ApartKeeps(db, db');
    forall t: Name ensures TopicInv(db', t) { assert TopicInv(db, t); }
    forall x | x in db'.clients ensures ClientInv(db', x) {
      if x == c { NewcomerIsOwedNothing(db.history, db.nextSub, c); } else { assert ClientInv(db, x); }
    }
  }

  lemma NewcomerIsOwedNothing(h: seq<Event>, next: nat, c: int)
    requires Numbered(h, next)
    requires forall i {:trigger h[i]} :: 0 <= i < |h| ==> h[i].client != c
    ensures Owed([], h, c) && Accounted(None, h, c) && Carried(h, c) == []
  {
    Stranger(h, c);
    StrangerCarriesNothing(h, next, c);
  }

  // ----- Setting a reply ---------------------------------------------------------------------------

  /** The event a request leaves fits the reply it sets. */
  ghost predicate Fits(e: Event, r: Reply, db: Db) {
    match e
    case Accepted(_, p) => r == PublishReply(p)
    case Subscribed(c, sub, t) => sub.id == db.nextSub && sub.client == c && r == AckReply(SUBACK, 0, PointerTo(TopicAt(db, t).retained))
    case Answering(_, opcode, rc, junk) => r == AckReply(opcode, rc, Uninitialised(junk))
    case _ => false
  }

  ghost predicate ReplySet(db: Db, db': Db, c: int, r: Reply, e: Event) {
    && c in db.clients && e.client == c && Fits(e, r, db)
    && db'.history == db.history + [e] && db'.fault == db.fault
    && db'.messages == db.messages && db'.nextMessage == db.nextMessage
    && db'.clients.Keys == db.clients.Keys
    && (forall x :: x in db.clients && x != c ==> db'.clients[x] == db.clients[x])
    && db'.clients[c].wire == db.clients[c].wire && db'.clients[c].reply == Some(r)
    && db'.nextSub == (if e.Subscribed? then db.nextSub + 1 else db.nextSub)
    && (forall t: Name :: TopicAt(db', t) ==
          if e.Subscribed? && e.topic == t then TopicAt(db, t).(subscribers := [e.sub] + TopicAt(db, t).subscribers) else TopicAt(db, t))
  }

  lemma TopicAfterReplySet(db: Db, db': Db, c: int, r: Reply, e: Event, t: Name)
    requires TopicInv(db, t) && ReplySet(db, db', c, r, e)
    ensures TopicInv(db', t)
  {
  }

  lemma PointerOfOther(db: Db, db': Db, c: int, r: Reply, e: Event, x: int)
    requires x in db.clients && x != c && PointerInv(db, x) && ReplySet(db, db', c, r, e)
    ensures PointerInv(db', x)
  {
    PointerStays(db, db', x, e);
  }

  /** A pending acknowledgement is not affected by events of others that retain nothing on its topic. */
  lemma PointerStays(db: Db, db': Db, x: int, e: Event)
    requires x in db.clients && x in db'.clients && PointerInv(db, x) && db'.clients[x].reply == db.clients[x].reply
    requires db'.history == db.history + [e] && e.client != x && !e.Published?
    requires db'.messages == db.messages && db'.nextMessage == db.nextMessage
    requires forall t: Name :: TopicAt(db', t).retained == TopicAt(db, t).retained
    ensures PointerInv(db', x)
  {
    hide RetainedSince, LastRequest, LastRetained;
    if db.clients[x].reply.Some? {
      LastRequestSnoc(db.history, e, x);
      var k := LastRequest(db.history, x).value;
      PastStays(db.history, e, k);
      if db.history[k].Subscribed? { RetainedSinceSnoc(db.history, e, db.history[k].topic, k); }
    }
  }

  lemma PointerOfRequester(db: Db, db': Db, c: int, r: Reply, e: Event)
    requires ReplySet(db, db', c, r, e) && (forall t: Name :: TopicInv(db, t))
    ensures PointerInv(db', c)
  {
    var h := db.history;
    LastRequestSnoc(h, e, c);
    assert (h + [e])[..|h|] == h;
    if e.Subscribed? {
      assert TopicInv(db, e.topic);
      assert !RetainedSince(db'.history, e.topic, |h|);
    }
  }

  lemma ReplySetKeeps(db: Db, db': Db, c: int, r: Reply, e: Event)
    requires Inv(db) && ReplySet(db, db', c, r, e) && db.clients[c].reply.None?
    ensures Inv(db')
  {
    hide Owed, Accounted, TopicInv, PointerInv, RetainedApart, Numbered, Fits;
    HistoryAfterReplySet(db, db', c, r, e);
    ApartKeeps(db, db');
    forall t: Name ensures TopicInv(db', t) { assert TopicInv(db, t); TopicAfterReplySet(db, db', c, r, e, t); }
    PointerOfRequester(db, db', c, r, e);
    forall x | x in db'.clients ensures ClientInv(db', x) {
      assert ClientInv(db, x);
      ClientAfterReplySet(db, db', c, r, e, x);
    }
  }

  lemma HistoryAfterReplySet(db: Db, db': Db, c: int, r: Reply, e: Event)
    requires Inv(db) && ReplySet(db, db', c, r, e)
    ensures Numbered(db'.history, db'.nextSub)
    ensures forall i {:trigger db'.history[i]} :: 0 <= i < |db'.history| ==> db'.history[i].client in db'.clients
  {
    NumberedSnoc(db.history, e, db.nextSub);
  }

  lemma ClientAfterReplySet(db: Db, db': Db, c: int, r: Reply, e: Event, x: int)
    requires Numbered(db.history, db.nextSub) && x in db.clients && ClientInv(db, x)
    requires ReplySet(db, db', c, r, e) && db.clients[c].reply.None? && PointerInv(db', c)
    ensures ClientInv(db', x)
  {
    hide Owed, Accounted, PointerInv, Numbered, Carried;
    OwedQuiet(db.clients[x].wire, db.history, e, x, db.nextSub);
    CarriedSnoc(db.history, e, x);
    if x == c {
      AccountedSet(r, db.history, e, c);
    } else {
      AccountedOther(db.clients[x].reply, db.history, e, x);
      PointerOfOther(db, db', c, r, e, x);
    }
  }

  /** An acknowledgement whose pointer is left as it came. */
  lemma SetAckReplyKeeps(db: Db, c: int, opcode: byte, rc: byte, junk: Option<nat>)
    requires Inv(db) && c in db.clients && db.clients[c].reply.None?
    ensures Inv(SetAckReply(db, c, opcode, rc, junk)) && SetAckReply(db, c, opcode, rc, junk).clients.Keys == db.clients.Keys
  {
    hide Inv;
    var r, e := AckReply(opcode, rc, Uninitialised(junk)), Answering(c, opcode, rc, junk);
    ReplySetKeeps(db, SetAckReply(db, c, opcode, rc, junk), c, r, e);
  }

  lemma ConnectKeeps(db: Db, c: int, p: Connect, junk: Option<nat>)
    requires Inv(db) && c in db.clients && db.clients[c].reply.None?
    ensures Inv(ConnectHandler(db, c, p, junk)) && ConnectHandler(db, c, p, junk).clients.Keys == db.clients.Keys
  {
    hide Inv, Visible, SetAckReply;
    var db1 := db;
    if p.idlen != 0 && p.cleanSession == 1 {
      var client, name := db.clients[c], Visible(p.id);
      db1 := WithClient(db.(names := (db.names - {client.name})[name := c]), c, client.(name := name));
    } else if p.idlen != 0 {
      db1 := db.(names := db.names[db.clients[c].name := c]);
    }
    AlikeKeeps(db, db1);
    SetAckReplyKeeps(db1, c, CONNACK, if p.idlen == 0 then 1 else 0, junk);
  }

  lemma PublishKeeps(db: Db, c: int, p: Publish)
    requires Inv(db) && c in db.clients && db.clients[c].reply.None?
    ensures Inv(PublishHandler(db, c, p)) && PublishHandler(db, c, p).clients.Keys == db.clients.Keys
  {
    hide Inv;
    if p.topicLen != 0 { ReplySetKeeps(db, PublishHandler(db, c, p), c, PublishReply(p), Accepted(c, p)); }
  }

  lemma SubscribeKeeps(db: Db, c: int, p: Subscribe, junk: Option<nat>)
    requires Inv(db) && c in db.clients && db.clients[c].reply.None?
    ensures Inv(SubscribeHandler(db, c, p, junk)) && SubscribeHandler(db, c, p, junk).clients.Keys == db.clients.Keys
  {
    hide Inv, Key;
    var db' := SubscribeHandler(db, c, p, junk);
    if p.topicLen == 0 {
      SetAckReplyKeeps(db, c, SUBACK, 1, junk);
    } else {
      var t := Key(p.topic);
      ReplySetKeeps(db, db', c, AckReply(SUBACK, 0, PointerTo(TopicAt(db, t).retained)),
                    Subscribed(c, Subscription(db.nextSub, c, p.qos), t));
    }
  }

  lemma CommandKeeps(db: Db, c: int, opcode: byte, req: Request, junk: Option<nat>)
    requires Inv(db) && c in db.clients && db.clients[c].reply.None?
    ensures Inv(Command(db, c, opcode, req, junk)) && Command(db, c, opcode, req, junk).clients.Keys == db.clients.Keys
  {
    hide Inv, ConnectHandler, PublishHandler, SubscribeHandler;
    match req
    case ConnectReq(p) => ConnectKeeps(db, c, p, junk);
    case PublishReq(p) => PublishKeeps(db, c, p);
    case SubscribeReq(p) => SubscribeKeeps(db, c, p, junk);
    case AckReq(_) =>
      if opcode == PINGREQ { SetAckReplyKeeps(db, c, PINGRESP, 0, junk); }
  }

  /** `request_handler` keeps the invariant when no reply is pending. */
  lemma RequestHandlerKeeps(db: Db, c: int, f: Option<seq<byte>>, junk: Option<nat>)
    requires Inv(db) && c in db.clients && db.clients[c].reply.None?
    requires f.Some? ==> Readable(f.value)
    ensures Inv(RequestHandler(db, c, f, junk))
  {
    hide Inv, Command, UnpackPacket, Arm;
    if f.None? {
      ArmKeeps(db, c, OnRequest, ArmedIn);
    } else {
      match UnpackPacket(f.value)
      case None =>
      case Some(req) =>
        CommandKeeps(db, c, f.value[0], req, junk);
        ArmKeeps(Command(db, c, f.value[0], req, junk), c, OnReply, ArmedOut);
    }
  }

  // ----- Sending a reply ---------------------------------------------------------------------------

  /** What the publish does to topics and retained messages. */
  ghost predicate Retention(db: Db, db': Db, t: Name, p: Publish) {
    && (forall u: Name :: TopicAt(db', u) ==
          if u == t && p.retain != 0 then TopicAt(db, t).(retained := Some(db.nextMessage)) else TopicAt(db, u))
    && (if p.retain == 0 then db'.messages == db.messages && db'.nextMessage == db.nextMessage
        else && db'.nextMessage == db.nextMessage + 1
             && db'.messages == (if TopicAt(db, t).retained.Some? then db.messages - {TopicAt(db, t).retained.value}
                                 else db.messages)[db.nextMessage := MessageOf(p)])
  }

  /** What executing the publish `p` of client `c` does. */
  ghost predicate PublishDone(db: Db, db': Db, c: int, p: Publish) {
    var t := Key(p.topic);
    var subs := TopicAt(db, t).subscribers;
    && c in db.clients && db.clients[c].reply == Some(PublishReply(p))
    && db'.history == db.history + [Published(c, p)] && db'.nextSub == db.nextSub && db'.fault == db.fault
    && db'.clients.Keys == db.clients.Keys
    && (forall x :: x in db.clients && x != c ==>
          db'.clients[x].reply == db.clients[x].reply && db'.clients[x].wire == db.clients[x].wire + Copies(subs, x, c, p))
    && db'.clients[c].reply == None && db'.clients[c].wire == db.clients[c].wire + Copies(subs, c, c, p) + Pubacks(p)
    && Retention(db, db', t, p)
  }

  /** The connections after the loop over the subscribers. */
  ghost predicate Delivered(a: map<int, Client>, b: map<int, Client>, subs: seq<Subscription>, c: int, p: Publish) {
    b.Keys == a.Keys && forall x :: x in a ==> b[x] == a[x].(wire := a[x].wire + Copies(subs, x, c, p))
  }

  lemma LoopDelivers(clients: map<int, Client>, subs: seq<Subscription>, c: int, p: Publish)
    requires forall s :: s in subs ==> s.client in clients
    ensures Delivered(clients, Deliver(clients, subs, c, p, |subs|), subs, c, p)
  {
    hide Copies, Deliver;
    assert subs[..|subs|] == subs;
    forall x | x in clients
      ensures Deliver(clients, subs, c, p, |subs|)[x] == clients[x].(wire := clients[x].wire + Copies(subs, x, c, p))
    {
      DeliverIsCopies(clients, subs, c, p, |subs|, x);
    }
  }

  /** `publish_message`. */
  lemma PublishMessageDoes(db: Db, t: Name, c: int, p: Publish)
    requires SubscribersKnown(db)
    ensures
      var next := PublishMessage(WithTopic(db, t), t, c, p);
      && Delivered(db.clients, next.clients, TopicAt(db, t).subscribers, c, p) && Retention(db, next, t, p)
      && next.history == db.history + [Published(c, p)] && next.nextSub == db.nextSub && next.fault == db.fault
  {
    hide Copies, Deliver, Delivered, MessageOf, RetainMessage, Key;
    var db1 := WithTopic(db, t);
    LoopDelivers(db.clients, TopicAt(db, t).subscribers, c, p);
    WithTopicIsSame(db, t);
    RetainDoes(db1, t, p);
  }

  lemma WithTopicIsSame(db: Db, t: Name)
    ensures forall u: Name :: TopicAt(WithTopic(db, t), u) == TopicAt(db, u)
  {
  }

  lemma RetainDoes(db: Db, t: Name, p: Publish)
    ensures
      var next := RetainMessage(db, t, p);
      && next == db.(messages := next.messages, nextMessage := db.nextMessage + 1, topics := next.topics)
      && next.messages == (if TopicAt(db, t).retained.Some? then db.messages - {TopicAt(db, t).retained.value}
                           else db.messages)[db.nextMessage := MessageOf(p)]
      && forall u: Name :: TopicAt(next, u) == if u == t then TopicAt(db, t).(retained := Some(db.nextMessage)) else TopicAt(db, u)
  {
    hide MessageOf;
  }

  /** The PUBACK, and the client waits for its next request. */
  lemma AcknowledgeDoes(db: Db, c: int, p: Publish)
    requires c in db.clients
    ensures
      var next := Done(if p.qos == 1 then Send(db, c, AckFrame(PUBACK, 0)) else db, c);
      && next == db.(clients := next.clients) && next.clients.Keys == db.clients.Keys
      && (forall x :: x in db.clients && x != c ==> next.clients[x] == db.clients[x])
      && next.clients[c].reply == None && next.clients[c].wire == db.clients[c].wire + Pubacks(p)
  {
    assert db.clients[c].wire + [] == db.clients[c].wire;
  }

  lemma PublishIsDone(db: Db, c: int, p: Publish)
    requires c in db.clients && SubscribersKnown(db) && db.clients[c].reply == Some(PublishReply(p))
    ensures PublishDone(db, ReplyHandler(db, c), c, p)
  {
    hide Copies, Key, PublishMessage, WithTopic, MessageOf, Done, Send, Pubacks, Visible;
    var t := Key(p.topic);
    PublishMessageDoes(db, t, c, p);
    var db1 := PublishMessage(WithTopic(db, t), t, c, p);
    AcknowledgeDoes(db1, c, p);
  }

  lemma TopicAfterPublish(db: Db, db': Db, c: int, p: Publish, u: Name)
    requires TopicInv(db, u) && TopicInv(db, Key(p.topic)) && RetainedApart(db) && PublishDone(db, db', c, p)
    ensures TopicInv(db', u)
  {
  }

  lemma ApartAfterPublish(db: Db, db': Db, c: int, p: Publish)
    requires (forall t: Name :: TopicInv(db, t)) && RetainedApart(db) && PublishDone(db, db', c, p)
    ensures RetainedApart(db')
  {
    hide Copies, Key, SubsOf, LastRetained;
    forall t: Name, u: Name | t != u && TopicAt(db', t).retained.Some?
      ensures TopicAt(db', t).retained != TopicAt(db', u).retained
    {
      assert TopicInv(db, t) && TopicInv(db, u);
    }
  }

  lemma PointerAfterPublish(db: Db, db': Db, c: int, p: Publish, x: int)
    requires x in db.clients && x != c && PointerInv(db, x) && (forall t: Name :: TopicInv(db, t)) && RetainedApart(db)
    requires PublishDone(db, db', c, p)
    ensures PointerInv(db', x)
  {
    hide Copies, Key, LastRequest, LastRetained, SubsOf, RetainedSince;
    var e := Published(c, p);
    if db.clients[x].reply.Some? {
      LastRequestSnoc(db.history, e, x);
      var k := LastRequest(db.history, x).value;
      PastStays(db.history, e, k);
      if db.history[k].Subscribed? {
        var u := db.history[k].topic;
        RetainedSinceSnoc(db.history, e, u, k);
        assert TopicInv(db, u) && TopicInv(db, Key(p.topic));
        if u != Key(p.topic) && TopicAt(db, u).retained.Some? {
          assert TopicAt(db, u).retained != TopicAt(db, Key(p.topic)).retained;
        }
      }
    }
  }

  lemma OwedAfterPublish(db: Db, db': Db, c: int, p: Publish, x: int)
    requires Numbered(db.history, db.nextSub) && TopicInv(db, Key(p.topic))
    requires x in db.clients && Owed(db.clients[x].wire, db.history, x) && PublishDone(db, db', c, p)
    ensures Owed(db'.clients[x].wire, db'.history, x)
  {
    hide Copies, Key, Owed, Numbered, SubsOf, LastRetained;
    var e := Published(c, p);
    OwedPublish(db.clients[x].wire, db.history, e, x, db.nextSub);
    var wire := db.clients[x].wire + Copies(TopicAt(db, Key(p.topic)).subscribers, x, c, p);
    if x == c {
      if p.qos == 1 { OwedDirect(wire, db'.history, x, AckFrame(PUBACK, 0)); } else { assert wire + [] == wire; }
    }
  }

  lemma ClientAfterPublish(db: Db, db': Db, c: int, p: Publish, x: int)
    requires Inv(db) && x in db.clients && PublishDone(db, db', c, p)
    ensures ClientInv(db', x)
  {
    assert ClientInv(db, x) && TopicInv(db, Key(p.topic));
    assert TopicAt(db, Key(p.topic)).subscribers == SubsOf(db.history, Key(p.topic));
    hide Owed, Accounted, PointerInv, Numbered, TopicInv, RetainedApart, Copies, Key, SubsOf, Carried;
    OwedAfterPublish(db, db', c, p, x);
    WireAfterPublish(db, db', c, p, x);
    if x == c {
      AccountedSent(PublishReply(p), db.history, Published(c, p), c);
      NoPointer(db', c);
    } else {
      AccountedOther(db.clients[x].reply, db.history, Published(c, p), x);
      PointerAfterPublish(db, db', c, p, x);
    }
  }

  lemma WireAfterPublish(db: Db, db': Db, c: int, p: Publish, x: int)
    requires x in db.clients && WireInv(db, x) && PublishDone(db, db', c, p)
    requires TopicAt(db, Key(p.topic)).subscribers == SubsOf(db.history, Key(p.topic))
    ensures WireInv(db', x)
  {
    hide Copies, Key, SubsOf, Carried;
    CarriedSnoc(db.history, Published(c, p), x);
    if x != c { assert db'.clients[x].wire == db'.clients[x].wire + []; }
  }

  lemma NoPointer(db: Db, c: int)
    requires c in db.clients && db.clients[c].reply.None?
    ensures PointerInv(db, c)
  {
  }

  lemma PublishDoneKeeps(db: Db, db': Db, c: int, p: Publish)
    requires Inv(db) && PublishDone(db, db', c, p)
    ensures Inv(db')
  {
    assert TopicInv(db, Key(p.topic));
    HistoryAfterPublish(db, db', c, p);
    ApartAfterPublish(db, db', c, p);
    hide Numbered, RetainedApart, TopicInv, ClientInv, Copies, Key;
    forall u: Name ensures TopicInv(db', u) { assert TopicInv(db, u); TopicAfterPublish(db, db', c, p, u); }
    forall x | x in db'.clients ensures ClientInv(db', x) { ClientAfterPublish(db, db', c, p, x); }
  }

  lemma HistoryAfterPublish(db: Db, db': Db, c: int, p: Publish)
    requires Inv(db) && PublishDone(db, db', c, p)
    ensures Numbered(db'.history, db'.nextSub)
    ensures forall i {:trigger db'.history[i]} :: 0 <= i < |db'.history| ==> db'.history[i].client in db'.clients
  {
    hide Copies, Key;
    NumberedSnoc(db.history, Published(c, p), db.nextSub);
  }

  /** The pending acknowledgement of `c` was answered; only its own connection and reply changed. */
  ghost predicate AnswerDone(db: Db, db': Db, c: int) {
    && c in db.clients && db.clients[c].reply.Some? && db.clients[c].reply.value.AckReply? && LastRequest(db.history, c).Some?
    && db'.history == db.history + [Answered(c)] && db'.nextSub == db.nextSub && db'.fault == db.fault
    && db'.messages == db.messages && db'.nextMessage == db.nextMessage
    && (forall t: Name :: TopicAt(db', t) == TopicAt(db, t))
    && db'.clients.Keys == db.clients.Keys
    && (forall x :: x in db.clients && x != c ==> db'.clients[x] == db.clients[x])
    && db'.clients[c].wire == db.clients[c].wire + AnswerTo(db.history, LastRequest(db.history, c).value)
    && db'.clients[c].reply == None
  }

  lemma TopicAfterAnswer(db: Db, db': Db, c: int, t: Name)
    requires TopicInv(db, t) && AnswerDone(db, db', c)
    ensures TopicInv(db', t)
  {
    Snoc(db.history, Answered(c));
  }

  lemma OwedAnswer(wire: seq<Sent>, h: seq<Event>, c: int, k: nat)
    requires Owed(wire, h, c) && k < |h|
    ensures Owed(wire + AnswerTo(h, k), h, c)
  {
    hide Owed, LastRetained, RetainedPkt, MessageOf;
    match h[k]
    case Answering(_, opcode, rc, _) => OwedDirect(wire, h, c, AckFrame(opcode, rc));
    case Subscribed(_, _, t) =>
      OwedDirect(wire, h, c, AckFrame(SUBACK, 0));
      var first := [Direct(AckFrame(SUBACK, 0))];
      match LastRetained(h[..k], t) {
        case None => assert first + [] == first;
        case Some(p) =>
          var f := PublishFrame(RetainedPkt(MessageOf(p)));
          OwedDirect(wire + first, h, c, f);
          assert wire + first + [Direct(f)] == wire + (first + [Direct(f)]);
      }
    case _ => assert wire + [] == wire;
  }

  lemma ClientAfterAnswer(db: Db, db': Db, c: int, x: int)
    requires Numbered(db.history, db.nextSub) && x in db.clients && ClientInv(db, x) && AnswerDone(db, db', c)
    ensures ClientInv(db', x)
  {
    hide Owed, Accounted, PointerInv, Numbered, AnswerTo, Carried, LastRequest;
    var e := Answered(c);
    OwedQuiet(db.clients[x].wire, db.history, e, x, db.nextSub);
    CarriedSnoc(db.history, e, x);
    if x == c {
      var k := LastRequest(db.history, c).value;
      OwedAnswer(db.clients[c].wire, db.history, c, k);
      OwedQuiet(db.clients[c].wire + AnswerTo(db.history, k), db.history, e, c, db.nextSub);
      AccountedSent(db.clients[c].reply.value, db.history, e, c);
      NoPointer(db', c);
    } else {
      AccountedOther(db.clients[x].reply, db.history, e, x);
      PointerStays(db, db', x, e);
    }
  }

  lemma AnswerDoneKeeps(db: Db, db': Db, c: int)
    requires Inv(db) && AnswerDone(db, db', c)
    ensures Inv(db')
  {
    hide RetainedApart, TopicInv, ClientInv, AnswerTo, LastRequest;
    NumberedSnoc(db.history, Answered(c), db.nextSub);
    ApartKeeps(db, db');
    forall t: Name ensures TopicInv(db', t) { assert TopicInv(db, t); TopicAfterAnswer(db, db', c, t); }
    forall x | x in db'.clients ensures ClientInv(db', x) { assert ClientInv(db, x); ClientAfterAnswer(db, db', c, x); }
  }

  /** A bad pointer is used: the connection has carried the SUBACK, and nothing more is said of connections. */
  lemma FaultKeeps(db: Db, c: int, f: Frame)
    requires Inv(db) && c in db.clients
    ensures Inv(Send(db, c, f).(fault := true))
  {
    hide Owed, Accounted, Numbered, RetainedSince, LastRetained, LastRequest, SubsOf, RetainedApart, Carried;
    var db' := Send(db, c, f).(fault := true);
    ApartKeeps(db, db');
    forall t: Name ensures TopicInv(db', t) { assert TopicInv(db, t); }
    forall x | x in db'.clients ensures ClientInv(db', x) {
      assert ClientInv(db, x);
      if x == c { OwedDirect(db.clients[c].wire, db.history, c, f); }
    }
  }

  lemma InvKnowsSubscribers(db: Db)
    requires Inv(db)
    ensures SubscribersKnown(db)
  {
    forall t, s | t in db.topics && s in db.topics[t].subscribers ensures s.client in db.clients {
      assert TopicInv(db, t);
      SubsAreClients(db.history, db.nextSub, t, s, db.clients.Keys);
    }
  }

  lemma {:induction false} SubsAreClients(h: seq<Event>, next: nat, t: Name, s: Subscription, clients: set<int>)
    requires Numbered(h, next) && s in SubsOf(h, t)
    requires forall i {:trigger h[i]} :: 0 <= i < |h| ==> h[i].client in clients
    ensures s.client in clients
  {
    var m := |h| - 1;
    var before := h[..m];
    assert forall i :: 0 <= i < m ==> before[i] == h[i];
    if h[m].Subscribed? && h[m].topic == t && h[m].sub == s {
      assert h[m].sub.client == h[m].client;
    } else {
      SubsAreClients(before, next, t, s, clients);
    }
  }

  /** `reply_handler` keeps the invariant. */
  lemma ReplyHandlerKeeps(db: Db, c: int)
    requires Inv(db) && c in db.clients
    ensures SubscribersKnown(db) && Inv(ReplyHandler(db, c))
  {
    InvKnowsSubscribers(db);
    match db.clients[c].reply
    case None =>
    case Some(PublishReply(p)) =>
      PublishIsDone(db, c, p);
      PublishDoneKeeps(db, ReplyHandler(db, c), c, p);
    case Some(AckReply(opcode, rc, retained)) =>
      AckReplyKeeps(db, c, opcode, rc, retained);
  }

  /** The pointer may be used: it is not consulted, NULL, or leads to a message. */
  predicate Usable(db: Db, opcode: byte, r: Pointer) {
    opcode != SUBACK || r.Null? || (r.To? && r.message in db.messages)
  }

  /** The copy sent after the acknowledgement. */
  function Extra(db: Db, opcode: byte, r: Pointer): seq<Sent>
    requires Usable(db, opcode, r)
  {
    if opcode == SUBACK && r.To? then [Direct(PublishFrame(RetainedPkt(db.messages[r.message])))] else []
  }

  /** What `reply_handler` sends for a pending acknowledgement is the answer to the client's last request. */
  lemma AckReplyAnswers(db: Db, c: int, opcode: byte, rc: byte, r: Pointer)
    requires Inv(db) && c in db.clients && db.clients[c].reply == Some(AckReply(opcode, rc, r)) && Usable(db, opcode, r)
    ensures
      var k := LastRequest(db.history, c);
      k.Some? && AnswerTo(db.history, k.value) == [Direct(AckFrame(opcode, rc))] + Extra(db, opcode, r)
  {
    assert ClientInv(db, c);
    hide LastRequest, RetainedPkt, MessageOf, Owed, Accounted, Carried;
    var k := LastRequest(db.history, c).value;
    if db.history[k].Subscribed? && r.To? {
      var t := db.history[k].topic;
      assert TopicInv(db, t);
      LastRetainedSplit(db.history, t, k);
    }
  }

  /** The pointer of a pending acknowledgement is bad exactly when the history says so. */
  lemma UsableUnlessDoomed(db: Db, c: int)
    requires Inv(db) && c in db.clients
    ensures Doomed(db.history, c) <==>
              match db.clients[c].reply
              case Some(AckReply(opcode, _, r)) => !Usable(db, opcode, r)
              case _ => false
  {
    assert ClientInv(db, c);
    hide TopicInv, PointerInv, Owed, WireInv;
    forall t: Name | TopicAt(db, t).retained.Some? ensures TopicAt(db, t).retained.value in db.messages {
      assert TopicInv(db, t);
      RetainedIsKept(db, t);
    }
    hide Inv, ClientInv;
    PointerTells(db, c);
  }

  lemma RetainedIsKept(db: Db, t: Name)
    requires TopicInv(db, t) && TopicAt(db, t).retained.Some?
    ensures TopicAt(db, t).retained.value in db.messages
  {
  }

  lemma PointerTells(db: Db, c: int)
    requires c in db.clients && PointerInv(db, c)
    requires Outstanding(db.history, c) == if db.clients[c].reply.Some? then 1 else 0
    requires forall t: Name :: TopicAt(db, t).retained.Some? ==> TopicAt(db, t).retained.value in db.messages
    ensures Doomed(db.history, c) <==>
              match db.clients[c].reply
              case Some(AckReply(opcode, _, r)) => !Usable(db, opcode, r)
              case _ => false
  {
    hide LastRequest, RetainedSince, LastRetained, Outstanding;
  }

  lemma AckReplyKeeps(db: Db, c: int, opcode: byte, rc: byte, r: Pointer)
    requires Inv(db) && SubscribersKnown(db) && c in db.clients && db.clients[c].reply == Some(AckReply(opcode, rc, r))
    ensures Inv(ReplyHandler(db, c))
  {
    hide Inv, AnswerTo, LastRequest, RetainedPkt;
    if Usable(db, opcode, r) {
      AckReplyAnswers(db, c, opcode, rc, r);
      AckReplyIsDone(db, c, opcode, rc, r);
      AnswerDoneKeeps(db, ReplyHandler(db, c), c);
    } else {
      FaultKeeps(db, c, AckFrame(opcode, rc));
    }
  }

  lemma AckReplyIsDone(db: Db, c: int, opcode: byte, rc: byte, r: Pointer)
    requires c in db.clients && SubscribersKnown(db) && db.clients[c].reply == Some(AckReply(opcode, rc, r)) && Usable(db, opcode, r)
    requires
      var k := LastRequest(db.history, c);
      k.Some? && AnswerTo(db.history, k.value) == [Direct(AckFrame(opcode, rc))] + Extra(db, opcode, r)
    ensures AnswerDone(db, ReplyHandler(db, c), c)
  {
    hide AnswerTo, LastRequest, RetainedPkt;
    var first, more := [Direct(AckFrame(opcode, rc))], Extra(db, opcode, r);
    assert first + [] == first;
    assert db.clients[c].wire + first + more == db.clients[c].wire + (first + more);
  }
}
