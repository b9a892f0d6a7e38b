/** What holds in every interleaving of any number of clients and workers. */
module BrokerRuns {
  import opened Options
  import opened Bytes
  import opened Packets
  import opened BrokerModel
  import opened BrokerHistory
  import opened BrokerInvariants
  import opened BrokerSteps

  // ----- Handlers and descriptors ----------------------------------------------------------------

  /** Registration and handler agree, and a client that waits for a request has no reply pending. */
  ghost predicate Phase(client: Client) {
    && (client.armed == ArmedIn ==> client.handler == OnRequest)
    && (client.armed == ArmedOut ==> client.handler == OnReply)
    && (client.handler == OnRequest ==> client.reply.None?)
  }

  ghost predicate Runs(w: World, k: nat, c: int) {
    k in w.workers && w.workers[k].Handling? && w.workers[k].client == c
  }

  ghost predicate WorldInv(w: World) {
    && Inv(w.db)
    && (forall c :: c in w.db.clients ==> Phase(w.db.clients[c]))
    && (forall k, c :: Runs(w, k, c) ==>
          c in w.db.clients && w.db.clients[c].armed == Disarmed && w.db.clients[c].handler == w.workers[k].handler)
    && (forall k, l, c :: Runs(w, k, c) && Runs(w, l, c) ==> k == l)
  }

  /** A handler touches only its own client's handler, registration and pending reply. */
  ghost predicate OnlyWiresOfOthers(a: map<int, Client>, b: map<int, Client>, c: int) {
    && a.Keys == b.Keys
    && forall x :: x in a && x != c ==> b[x] == a[x].(wire := b[x].wire)
  }

  lemma RequestTouches(db: Db, c: int, f: Option<seq<byte>>, junk: Option<nat>)
    requires c in db.clients && (f.Some? ==> Readable(f.value)) && db.clients[c].handler == OnRequest && Phase(db.clients[c])
    ensures var db' := RequestHandler(db, c, f, junk);
            && OnlyWiresOfOthers(db.clients, db'.clients, c) && Phase(db'.clients[c]) && db'.fault == db.fault
            && (db'.clients[c].armed == Disarmed ==> db.clients[c].armed == Disarmed)
  {
    hide UnpackPacket, Key;
    if f.Some? && UnpackPacket(f.value).Some? {
      CommandTouches(db, c, f.value[0], UnpackPacket(f.value).value, junk);
    }
  }

  lemma CommandTouches(db: Db, c: int, opcode: byte, req: Request, junk: Option<nat>)
    requires c in db.clients
    ensures var db' := Command(db, c, opcode, req, junk);
            OnlyWiresOfOthers(db.clients, db'.clients, c) && db'.fault == db.fault
  {
    hide Key, Visible, TopicAt;
    match req
    case ConnectReq(p) => ConnectTouches(db, c, p, junk);
    case PublishReq(p) =>
    case SubscribeReq(p) =>
    case AckReq(_) =>
  }

  lemma SetAckReplyTouches(db: Db, c: int, opcode: byte, rc: byte, junk: Option<nat>)
    requires c in db.clients
    ensures var db' := SetAckReply(db, c, opcode, rc, junk);
            OnlyWiresOfOthers(db.clients, db'.clients, c) && db'.fault == db.fault
  {
  }

  lemma ConnectTouches(db: Db, c: int, p: Connect, junk: Option<nat>)
    requires c in db.clients
    ensures var db' := ConnectHandler(db, c, p, junk);
            OnlyWiresOfOthers(db.clients, db'.clients, c) && db'.fault == db.fault
  {
    hide Visible, SetAckReply;
    var db1 := db;
    if p.idlen != 0 && p.cleanSession == 1 {
      var client, name := db.clients[c], Visible(p.id);
      db1 := WithClient(db.(names := (db.names - {client.name})[name := c]), c, client.(name := name));
    } else if p.idlen != 0 {
      db1 := db.(names := db.names[db.clients[c].name := c]);
    }
    SetAckReplyTouches(db1, c, CONNACK, if p.idlen == 0 then 1 else 0, junk);
  }

  lemma DeliverTouchesWires(clients: map<int, Client>, subs: seq<Subscription>, sender: int, p: Publish, i: nat)
    requires i <= |subs| && forall s :: s in subs ==> s.client in clients
    ensures forall x :: x in clients ==>
              Deliver(clients, subs, sender, p, i)[x] == clients[x].(wire := Deliver(clients, subs, sender, p, i)[x].wire)
  {
  }

  lemma PublishTouches(db: Db, c: int, p: Publish)
    requires c in db.clients && SubscribersKnown(db) && db.clients[c].reply == Some(PublishReply(p))
    ensures var db' := ReplyHandler(db, c);
            && OnlyWiresOfOthers(db.clients, db'.clients, c) && db'.fault == db.fault
            && db'.clients[c].handler == OnRequest && db'.clients[c].armed == ArmedIn && db'.clients[c].reply.None?
  {
    hide Visible, Key, Deliver;
    var t := Key(p.topic);
    var subs := TopicAt(db, t).subscribers;
    DeliverTouchesWires(db.clients, subs, c, p, |subs|);
    var db1 := PublishMessage(WithTopic(db, t), t, c, p);
    assert db1.clients == Deliver(db.clients, subs, c, p, |subs|) && db1.fault == db.fault;
    assert OnlyWiresOfOthers(db.clients, db1.clients, c);
  }

  lemma SendTouches(db: Db, c: int, f: Frame)
    requires c in db.clients
    ensures var db' := Send(db, c, f);
            && OnlyWiresOfOthers(db.clients, db'.clients, c)
            && db'.clients[c] == db.clients[c].(wire := db.clients[c].wire + [Direct(f)])
  {
  }

  lemma DoneTouches(db: Db, c: int)
    requires c in db.clients
    ensures var db' := DoneAnswering(db, c);
            && OnlyWiresOfOthers(db.clients, db'.clients, c)
            && db'.clients[c] == db.clients[c].(reply := None, handler := OnRequest, armed := ArmedIn)
  {
  }

  lemma TouchesTwice(a: map<int, Client>, b: map<int, Client>, d: map<int, Client>, c: int)
    requires OnlyWiresOfOthers(a, b, c) && OnlyWiresOfOthers(b, d, c)
    ensures OnlyWiresOfOthers(a, d, c)
  {
  }

  lemma AckTouches(db: Db, c: int, opcode: byte, rc: byte, r: Pointer)
    requires c in db.clients && SubscribersKnown(db) && db.clients[c].reply == Some(AckReply(opcode, rc, r))
    ensures var db' := ReplyHandler(db, c);
            && OnlyWiresOfOthers(db.clients, db'.clients, c)
            && (Phase(db.clients[c]) && db.clients[c].handler == OnReply && db.clients[c].armed == Disarmed ==> Phase(db'.clients[c]))
  {
    hide RetainedPkt, OnlyWiresOfOthers, Send, DoneAnswering;
    SendTouches(db, c, AckFrame(opcode, rc));
    assert c in Send(db, c, AckFrame(opcode, rc)).clients by { SendKeepsKeys(db, c, AckFrame(opcode, rc)); }
    var db1 := Send(db, c, AckFrame(opcode, rc));
    if opcode != SUBACK || r.Null? {
      DoneTouches(db1, c);
      TouchesTwice(db.clients, db1.clients, DoneAnswering(db1, c).clients, c);
    } else if r.To? && r.message in db.messages {
      var f := PublishFrame(RetainedPkt(db.messages[r.message]));
      SendTouches(db1, c, f);
      SendKeepsKeys(db1, c, f);
      TouchesTwice(db.clients, db1.clients, Send(db1, c, f).clients, c);
      DoneTouches(Send(db1, c, f), c);
      TouchesTwice(db.clients, Send(db1, c, f).clients, DoneAnswering(Send(db1, c, f), c).clients, c);
    }
  }

  lemma SendKeepsKeys(db: Db, c: int, f: Frame)
    requires c in db.clients
    ensures Send(db, c, f).clients.Keys == db.clients.Keys
  {
  }

  lemma ReplyTouches(db: Db, c: int)
    requires c in db.clients && SubscribersKnown(db)
    ensures var db' := ReplyHandler(db, c);
            && OnlyWiresOfOthers(db.clients, db'.clients, c)
            && (Phase(db.clients[c]) && db.clients[c].handler == OnReply && db.clients[c].armed == Disarmed ==> Phase(db'.clients[c]))
  {
    match db.clients[c].reply
    case None =>
    case Some(PublishReply(p)) =>
      PublishTouches(db, c, p);
    case Some(AckReply(opcode, rc, retained)) =>
      AckTouches(db, c, opcode, rc, retained);
  }

  // ----- Every step keeps the invariant ----------------------------------------------------------

  lemma DispatchKeeps(w: World, k: nat, c: int)
    requires WorldInv(w) && Enabled(w, Dispatch(k, c))
    ensures WorldInv(Next(w, Dispatch(k, c)))
  {
    hide Inv;
    ArmKeeps(w.db, c, w.db.clients[c].handler, Disarmed);
    var w' := Next(w, Dispatch(k, c));
    forall l, x | Runs(w', l, x)
      ensures x in w'.db.clients && w'.db.clients[x].armed == Disarmed && w'.db.clients[x].handler == w'.workers[l].handler
    {
      if l != k { assert Runs(w, l, x); }
    }
    forall l, m, x | Runs(w', l, x) && Runs(w', m, x) ensures l == m {
      if l != k { assert Runs(w, l, x); }
      if m != k { assert Runs(w, m, x); }
    }
  }

  /** Once the handler of worker `k` has finished with client `c`, the other workers' clients are as before. */
  lemma FinishKeeps(w: World, k: nat, c: int, db': Db)
    requires WorldInv(w) && Runs(w, k, c) && Inv(db')
    requires OnlyWiresOfOthers(w.db.clients, db'.clients, c) && Phase(db'.clients[c])
    ensures WorldInv(World(db', w.workers[k := Leaving]))
  {
    hide Inv;
    var w' := World(db', w.workers[k := Leaving]);
    forall x | x in db'.clients ensures Phase(db'.clients[x]) { assert Phase(w.db.clients[x]); }
    forall l, x | Runs(w', l, x)
      ensures Runs(w, l, x) && x != c && l != k
    {
      assert l != k && Runs(w, l, x);
    }
  }

  lemma NextKeeps(w: World, s: Step)
    requires WorldInv(w)
    ensures WorldInv(Next(w, s))
  {
    if Enabled(w, s) {
      hide Inv, RequestHandler, ReplyHandler, Readable;
      match s
      case Accept(c, name) => AcceptStepKeeps(w, c, name);
      case Dispatch(k, c) => DispatchKeeps(w, k, c);
      case Request(k, f, junk) =>
        var c := w.workers[k].client;
        assert Runs(w, k, c);
        RequestHandlerKeeps(w.db, c, f, junk);
        RequestTouches(w.db, c, f, junk);
        FinishKeeps(w, k, c, RequestHandler(w.db, c, f, junk));
      case Answer(k) =>
        var c := w.workers[k].client;
        assert Runs(w, k, c);
        ReplyHandlerKeeps(w.db, c);
        ReplyTouches(w.db, c);
        FinishKeeps(w, k, c, ReplyHandler(w.db, c));
      case Return(k) =>
        var w' := Next(w, s);
        assert forall l, x :: Runs(w', l, x) ==> Runs(w, l, x);
    }
  }

  lemma AcceptStepKeeps(w: World, c: int, name: Name)
    requires WorldInv(w) && c !in w.db.clients
    ensures WorldInv(w.(db := WithClient(w.db, c, Client(name, OnRequest, ArmedIn, None, []))))
  {
    hide Inv;
    var client := Client(name, OnRequest, ArmedIn, None, []);
    AcceptKeeps(w.db, c, client);
    var w' := w.(db := WithClient(w.db, c, client));
    assert forall l, x :: Runs(w', l, x) ==> Runs(w, l, x);
  }

  lemma {:induction false} RunKeeps(steps: seq<Step>)
    ensures WorldInv(Run(steps))
  {
    if steps == [] {
      EmptyInv();
    } else {
      RunKeeps(steps[..|steps| - 1]);
      NextKeeps(Run(steps[..|steps| - 1]), steps[|steps| - 1]);
    }
  }

  lemma EmptyInv()
    ensures WorldInv(EMPTY)
  {
  }

  // ----- What can be packed ------------------------------------------------------------------------

  /** The packet fits the size in its header, which `recv_packet` bounds. */
  predicate FitsItself(p: Publish) {
    14 + StrLen(p.topic) + StrLen(p.message) <= p.header.size <= HEADLEN + RINGSIZE
  }

  predicate FitsReply(reply: Option<Reply>) {
    reply.Some? && reply.value.PublishReply? ==> FitsItself(reply.value.p)
  }

  predicate FitsMessage(m: Message) {
    16 + StrLen(m.topic) + StrLen(m.payload) < 0x1_0000_0000
  }

  /** Every pending publish and every retained message can be packed into a buffer of its size. */
  ghost predicate Packable(db: Db) {
    && (forall c :: c in db.clients ==> FitsReply(db.clients[c].reply))
    && (forall i :: i in db.messages ==> FitsMessage(db.messages[i]))
  }

  lemma MessageFits(p: Publish)
    requires FitsItself(p)
    ensures FitsMessage(MessageOf(p))
  {
    hide StrLen;
    VisibleLen(p.topic);
    VisibleLen(p.message);
  }

  lemma ReceivedFits(f: seq<byte>)
    requires Readable(f) && f[0] == PUBLISH
    ensures FitsItself(ParsePublish(f))
  {
    hide StrLen, UnBE;
  }

  lemma SetAckReplyIsQuiet(db: Db, c: int, opcode: byte, rc: byte, junk: Option<nat>)
    requires c in db.clients
    ensures var db' := SetAckReply(db, c, opcode, rc, junk);
            c in db'.clients && db'.messages == db.messages && FitsReply(db'.clients[c].reply)
  {
  }

  lemma ConnectIsQuiet(db: Db, c: int, p: Connect, junk: Option<nat>)
    requires c in db.clients
    ensures var db' := ConnectHandler(db, c, p, junk);
            c in db'.clients && db'.messages == db.messages && FitsReply(db'.clients[c].reply)
  {
    hide Visible, SetAckReply, FitsReply;
    if p.idlen != 0 && p.cleanSession == 1 {
      var client, name := db.clients[c], Visible(p.id);
      var db1 := db.(names := (db.names - {client.name})[name := c]);
      SetAckReplyIsQuiet(WithClient(db1, c, client.(name := name)), c, CONNACK, 0, junk);
    } else {
      SetAckReplyIsQuiet(db, c, CONNACK, 1, junk);
      SetAckReplyIsQuiet(db.(names := db.names[db.clients[c].name := c]), c, CONNACK, 0, junk);
    }
  }

  lemma CommandIsQuiet(db: Db, c: int, f: seq<byte>, junk: Option<nat>)
    requires c in db.clients && Readable(f) && UnpackPacket(f).Some? && FitsReply(db.clients[c].reply)
    ensures var db' := Command(db, c, f[0], UnpackPacket(f).value, junk);
            c in db'.clients && db'.messages == db.messages && FitsReply(db'.clients[c].reply)
  {
    hide FitsItself, ConnectHandler, SetAckReply, Key, UnBE, ParsePublish, ParseConnect, ParseSubscribe, ParseAck, TopicAt;
    match UnpackPacket(f).value
    case ConnectReq(p) => ConnectIsQuiet(db, c, p, junk);
    case PublishReq(p) => ReceivedFits(f);
    case SubscribeReq(p) => SetAckReplyIsQuiet(db, c, SUBACK, 1, junk);
    case AckReq(_) => SetAckReplyIsQuiet(db, c, PINGRESP, 0, junk);
  }

  lemma RequestStaysPackable(db: Db, c: int, f: Option<seq<byte>>, junk: Option<nat>)
    requires c in db.clients && (f.Some? ==> Readable(f.value)) && FitsReply(db.clients[c].reply)
    ensures var db' := RequestHandler(db, c, f, junk);
            c in db'.clients && db'.messages == db.messages && FitsReply(db'.clients[c].reply)
  {
    hide FitsReply, Command, UnpackPacket, UnBE;
    if f.Some? && UnpackPacket(f.value).Some? { CommandIsQuiet(db, c, f.value, junk); }
  }

  lemma PublishedStaysPackable(db: Db, db': Db, c: int, p: Publish)
    requires PublishDone(db, db', c, p) && Packable(db)
    ensures forall i :: i in db'.messages ==> FitsMessage(db'.messages[i])
  {
    hide Copies, Key, FitsItself, FitsMessage, MessageOf;
    assert FitsReply(db.clients[c].reply);
    MessageFits(p);
  }

  lemma AnswerStaysPackable(db: Db, c: int)
    requires c in db.clients && SubscribersKnown(db) && Packable(db)
    ensures var db' := ReplyHandler(db, c);
            && c in db'.clients && FitsReply(db'.clients[c].reply)
            && forall i :: i in db'.messages ==> FitsMessage(db'.messages[i])
  {
    hide FitsItself, FitsMessage, RetainedPkt, Deliver, PublishMessage, PublishDone, Key;
    match db.clients[c].reply
    case None =>
    case Some(PublishReply(p)) =>
      hide ReplyHandler;
      PublishIsDone(db, c, p);
      PublishedStaysPackable(db, ReplyHandler(db, c), c, p);
      PublishTouches(db, c, p);
    case Some(AckReply(_, _, _)) =>
  }

  lemma OthersStayPackable(db: Db, db': Db, c: int)
    requires Packable(db) && OnlyWiresOfOthers(db.clients, db'.clients, c) && c in db'.clients && FitsReply(db'.clients[c].reply)
    requires forall i :: i in db'.messages ==> FitsMessage(db'.messages[i])
    ensures Packable(db')
  {
  }

  lemma NextStaysPackable(w: World, s: Step)
    requires WorldInv(w) && Packable(w.db)
    ensures Packable(Next(w, s).db)
  {
    if Enabled(w, s) {
      hide Inv, RequestHandler, ReplyHandler, Readable, FitsReply, FitsMessage;
      match s
      case Accept(c, name) => assert FitsReply(None) by { NothingFits(); }
      case Dispatch(k, c) =>
      case Request(k, f, junk) =>
        var c := w.workers[k].client;
        assert Runs(w, k, c);
        RequestStaysPackable(w.db, c, f, junk);
        RequestTouches(w.db, c, f, junk);
        OthersStayPackable(w.db, RequestHandler(w.db, c, f, junk), c);
      case Answer(k) =>
        var c := w.workers[k].client;
        AnswerStaysPackable(w.db, c);
        ReplyTouches(w.db, c);
        OthersStayPackable(w.db, ReplyHandler(w.db, c), c);
      case Return(k) =>
    }
  }

  lemma NothingFits()
    ensures FitsReply(None)
  {
  }

  /** In every run, what is to be sent can be packed. */
  lemma {:induction false} RunIsPackable(steps: seq<Step>)
    ensures Packable(Run(steps).db)
  {
    if steps != [] {
      RunIsPackable(steps[..|steps| - 1]);
      RunKeeps(steps[..|steps| - 1]);
      NextStaysPackable(Run(steps[..|steps| - 1]), steps[|steps| - 1]);
    }
  }

  // ----- Delivery ----------------------------------------------------------------------------------

  /** In every run, for every subscription ever made: what its client was sent on its behalf is exactly the publishes on
      its topic executed after it was made, each once and in order; and each publisher's part of it is that publisher's
      own publishes on the topic, in the order it made them. */
  lemma SubscriptionGetsWhatFollows(steps: seq<Step>, k: nat, publisher: int)
    requires k < |Run(steps).db.history| && Run(steps).db.history[k].Subscribed?
    ensures
      var db := Run(steps).db;
      var s := db.history[k];
      var after := db.history[k + 1..];
      && s.client in db.clients
      && SentFor(db.clients[s.client].wire, s.sub.id) == PublishesOn(after, s.topic)
      && From(SentFor(db.clients[s.client].wire, s.sub.id), publisher) == OnTopic(PublishedBy(after, publisher), s.topic)
  {
    RunKeeps(steps);
    var db := Run(steps).db;
    var s := db.history[k];
    assert ClientInv(db, s.client);
    SubInfoAt(db.history, db.nextSub, k);
    DueIsWhatFollows(db.history, db.nextSub, k);
    FromPublisher(db.history[k + 1..], s.topic, publisher);
  }

  /** Nothing is sent on behalf of a subscription of somebody else, or of none. */
  lemma NoStrayDelivery(steps: seq<Step>, c: int, sub: nat)
    requires c in Run(steps).db.clients
    ensures
      var db := Run(steps).db;
      SentFor(db.clients[c].wire, sub) != [] ==>
        exists k :: 0 <= k < |db.history| && db.history[k].Subscribed? && db.history[k].client == c && db.history[k].sub.id == sub
  {
    RunKeeps(steps);
    var db := Run(steps).db;
    assert ClientInv(db, c);
    if SentFor(db.clients[c].wire, sub) != [] { InfoHasEvent(db.history, sub); }
  }

  lemma {:induction false} InfoHasEvent(h: seq<Event>, sub: nat)
    requires SubInfo(h, sub).Some?
    ensures exists k :: 0 <= k < |h| && h[k].Subscribed? && h[k].client == SubInfo(h, sub).value.0 && h[k].sub.id == sub
  {
    var m := |h| - 1;
    if !(h[m].Subscribed? && h[m].sub.id == sub) {
      InfoHasEvent(h[..m], sub);
      var k :| 0 <= k < m && h[..m][k].Subscribed? && h[..m][k].client == SubInfo(h, sub).value.0 && h[..m][k].sub.id == sub;
      assert h[k] == h[..m][k];
    }
  }

  /** In every run a client's connection carries each publish as often as the client had subscribed to its topic by then. */
  lemma OneCopyPerSubscription(steps: seq<Step>, c: int)
    requires c in Run(steps).db.clients
    ensures RelayedOn(Run(steps).db.clients[c].wire) == DueToClient(Run(steps).db.history, c)
  {
    RunKeeps(steps);
    assert ClientInv(Run(steps).db, c);
  }

  /** In every run that has used no bad pointer, a connection has carried exactly what the history says, in order: the
      copies due to its subscriptions, the PUBACKs of its own publishes of qos 1, and one answer to each other request,
      a SUBSCRIBE's followed by what was retained on the topic then. */
  lemma ConnectionCarries(steps: seq<Step>, c: int)
    requires c in Run(steps).db.clients && !Run(steps).db.fault
    ensures Run(steps).db.clients[c].wire == Carried(Run(steps).db.history, c)
  {
    RunKeeps(steps);
    assert ClientInv(Run(steps).db, c);
  }

  /** A client's publishes are executed in the order in which they were accepted; at most one still waits. */
  lemma PublishesInOrder(steps: seq<Step>, c: int)
    requires c in Run(steps).db.clients
    ensures
      var db := Run(steps).db;
      AcceptedFrom(db.history, c) == PublishedBy(db.history, c) + PendingPublish(db.clients[c].reply)
  {
    RunKeeps(steps);
    assert ClientInv(Run(steps).db, c);
  }

  // ----- Requests and replies alternate ------------------------------------------------------------

  /** In every run no two workers are in handlers of one client, and a client being handled is not registered. */
  lemma HandlersNeverOverlap(steps: seq<Step>, k: nat, l: nat, c: int)
    requires Runs(Run(steps), k, c)
    ensures c in Run(steps).db.clients && Run(steps).db.clients[c].armed == Disarmed
    ensures Runs(Run(steps), l, c) ==> k == l
  {
    RunKeeps(steps);
  }

  /** In every run, a request handler finds no reply pending, so none is ever overwritten. */
  lemma NoReplyIsOverwritten(steps: seq<Step>, k: nat, f: Option<seq<byte>>, junk: Option<nat>)
    requires Enabled(Run(steps), Request(k, f, junk))
    ensures Run(steps).db.clients[Run(steps).workers[k].client].reply.None?
  {
    RunKeeps(steps);
    assert Runs(Run(steps), k, Run(steps).workers[k].client);
  }

  /** In every run the replies set by requests of a client exceed those sent by one while a reply is pending, and are
      equally many otherwise: each reply is sent by exactly one reply step before the next is set. */
  lemma EachReplyIsSentOnce(steps: seq<Step>, c: int)
    requires c in Run(steps).db.clients
    ensures Outstanding(Run(steps).db.history, c) == if Run(steps).db.clients[c].reply.Some? then 1 else 0
  {
    RunKeeps(steps);
    assert ClientInv(Run(steps).db, c);
  }

  // ----- Retention ---------------------------------------------------------------------------------

  /** In every run a topic's retained message carries its last executed publish that asked for it, if there was one. */
  lemma RetainedIsLast(steps: seq<Step>, t: Name)
    ensures
      var db := Run(steps).db;
      var r := TopicAt(db, t).retained;
      && (r.Some? <==> LastRetained(db.history, t).Some?)
      && (r.Some? ==> r.value in db.messages && db.messages[r.value] == MessageOf(LastRetained(db.history, t).value))
  {
    RunKeeps(steps);
    assert TopicInv(Run(steps).db, t);
  }

  /** In every run a SUBSCRIBE to a topic attaches its retained message, when there is one. */
  lemma SubscribeAttachesRetained(steps: seq<Step>, k: nat, f: seq<byte>, junk: Option<nat>)
    requires Enabled(Run(steps), Request(k, Some(f), junk)) && f[0] == SUBSCRIBE && ParseSubscribe(f).topicLen > 0
    ensures
      var w := Run(steps);
      var c, t := w.workers[k].client, Key(ParseSubscribe(f).topic);
      var next := Next(w, Request(k, Some(f), junk)).db;
      && next.clients[c].reply.Some? && next.clients[c].reply.value.AckReply?
      && var r := next.clients[c].reply.value;
         && r.opcode == SUBACK && r.rc == 0
         && (r.retained == Null <==> LastRetained(w.db.history, t).None?)
         && (r.retained != Null ==> r.retained.To? && r.retained.message in next.messages
                                    && next.messages[r.retained.message] == MessageOf(LastRetained(w.db.history, t).value))
  {
    RunKeeps(steps);
    var db, c := Run(steps).db, Run(steps).workers[k].client;
    var t := Key(ParseSubscribe(f).topic);
    assert TopicInv(db, t);
    SubscribeSets(db, c, f, junk);
  }

  lemma SubscribeSets(db: Db, c: int, f: seq<byte>, junk: Option<nat>)
    requires c in db.clients && Readable(f) && f[0] == SUBSCRIBE
    ensures
      var next, p := RequestHandler(db, c, Some(f), junk), ParseSubscribe(f);
      && c in next.clients && next.messages == db.messages
      && next.clients[c].reply == Some(if p.topicLen == 0 then AckReply(SUBACK, 1, Uninitialised(junk))
                                       else AckReply(SUBACK, 0, PointerTo(TopicAt(db, Key(p.topic)).retained)))
  {
    hide Key, Visible, UnBE;
  }

  /** In every run, a reply step uses a bad pointer exactly in two cases: it answers a SUBSCRIBE made when a message was
      retained that a later publish replaced, or a SUBSCRIBE without topic in whose reply's memory the pointer was not
      NULL. In every other case it answers a SUBSCRIBE with a SUBACK and then what was the topic's retained message at the
      SUBSCRIBE, if there was one, with retain 1 and dup 0. */
  lemma RetainedReachesSubscriber(steps: seq<Step>, k: nat)
    requires Enabled(Run(steps), Answer(k))
    ensures
      var db, c := Run(steps).db, Run(steps).workers[k].client;
      var next := Next(Run(steps), Answer(k)).db;
      && (next.fault <==> Doomed(db.history, c))
      && (!next.fault && Outstanding(db.history, c) == 1 ==>
            var at := LastRequest(db.history, c);
            && at.Some?
            && (db.history[at.value].Subscribed? ==>
                  next.clients[c].wire == db.clients[c].wire + [Direct(AckFrame(SUBACK, 0))] +
                  match LastRetained(db.history[..at.value], db.history[at.value].topic)
                  case None => []
                  case Some(p) => [Direct(PublishFrame(PublishPkt(Visible(p.topic), Visible(p.message), p.qos, 1, 0)))]))
  {
    RunKeeps(steps);
    var db, c := Run(steps).db, Run(steps).workers[k].client;
    assert ClientInv(db, c);
    UsableUnlessDoomed(db, c);
    AnswerStep(db, c);
    hide Inv, WorldInv, ReplyHandler, Owed, WireInv, Enabled, Doomed;
    assert PointerInv(db, c) && Accounted(db.clients[c].reply, db.history, c);
    match db.clients[c].reply
    case Some(AckReply(opcode, rc, r)) =>
      if Usable(db, opcode, r) {
        AckReplyAnswers(db, c, opcode, rc, r);
        AckReplyIsDone(db, c, opcode, rc, r);
        AnswerOfSubscribe(db, ReplyHandler(db, c), c);
      }
    case _ =>
  }

  lemma AnswerStep(db: Db, c: int)
    requires c in db.clients && SubscribersKnown(db) && !db.fault
    ensures ReplyHandler(db, c).fault <==>
              match db.clients[c].reply
              case Some(AckReply(opcode, _, r)) => !Usable(db, opcode, r)
              case _ => false
  {
    match db.clients[c].reply
    case None =>
    case Some(PublishReply(p)) => PublishTouches(db, c, p);
    case Some(AckReply(_, _, _)) => hide RetainedPkt, Deliver;
  }

  lemma AnswerOfSubscribe(db: Db, db': Db, c: int)
    requires AnswerDone(db, db', c)
    ensures
      var at := LastRequest(db.history, c).value;
      db.history[at].Subscribed? ==>
        db'.clients[c].wire == db.clients[c].wire + [Direct(AckFrame(SUBACK, 0))] +
        match LastRetained(db.history[..at], db.history[at].topic)
        case None => []
        case Some(p) => [Direct(PublishFrame(PublishPkt(Visible(p.topic), Visible(p.message), p.qos, 1, 0)))]
  {
    hide LastRequest, LastRetained, PublishPkt, Visible;
    var at := LastRequest(db.history, c).value;
    if db.history[at].Subscribed? {
      var x, y := [Direct(AckFrame(SUBACK, 0))], RetainedCopy(db.history[..at], db.history[at].topic);
      assert db.clients[c].wire + (x + y) == db.clients[c].wire + x + y;
    }
  }
}
