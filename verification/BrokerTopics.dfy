/** Which topics a schedule can make the broker look up: those that the frames of its requests name. */
module BrokerTopics {
  import opened Options
  import opened Bytes
  import opened Packets
  import opened BrokerModel
  import opened BrokerInvariants
  import opened BrokerSteps
  import opened BrokerRuns

  /** The topic of a request, if it has one, is among `names`. */
  predicate RequestNames(req: Request, names: set<Name>) {
    match req
    case SubscribeReq(p) => p.topicLen > 0 ==> Key(p.topic) in names
    case PublishReq(p) => p.topicLen > 0 ==> Key(p.topic) in names
    case _ => true
  }

  predicate FrameNames(f: seq<byte>, names: set<Name>) {
    Readable(f) && UnpackPacket(f).Some? ==> RequestNames(UnpackPacket(f).value, names)
  }

  predicate PacketNames(f: Option<seq<byte>>, names: set<Name>) {
    f.Some? ==> FrameNames(f.value, names)
  }

  predicate StepNames(s: Step, names: set<Name>) {
    s.Request? ==> PacketNames(s.frame, names)
  }

  predicate AllStepNames(steps: seq<Step>, names: set<Name>) {
    forall i :: 0 <= i < |steps| ==> StepNames(steps[i], names)
  }

  predicate ReplyNames(reply: Option<Reply>, names: set<Name>) {
    reply.Some? && reply.value.PublishReply? ==> Key(reply.value.p.topic) in names
  }

  /** The topic of every pending publish is among `names`. */
  ghost predicate PendingNames(db: Db, names: set<Name>) {
    forall c :: c in db.clients ==> ReplyNames(db.clients[c].reply, names)
  }

  lemma SetAckReplyNames(db: Db, c: int, opcode: byte, rc: byte, junk: Option<nat>, names: set<Name>)
    requires c in db.clients
    ensures var db' := SetAckReply(db, c, opcode, rc, junk); c in db'.clients && ReplyNames(db'.clients[c].reply, names)
  {
  }

  lemma ConnectNames(db: Db, c: int, p: Connect, junk: Option<nat>, names: set<Name>)
    requires c in db.clients
    ensures var db' := ConnectHandler(db, c, p, junk); c in db'.clients && ReplyNames(db'.clients[c].reply, names)
  {
    hide Visible, SetAckReply, ReplyNames;
    if p.idlen != 0 && p.cleanSession == 1 {
      var client, name := db.clients[c], Visible(p.id);
      var db1 := db.(names := (db.names - {client.name})[name := c]);
      SetAckReplyNames(WithClient(db1, c, client.(name := name)), c, CONNACK, 0, junk, names);
    } else {
      SetAckReplyNames(db, c, CONNACK, 1, junk, names);
      SetAckReplyNames(db.(names := db.names[db.clients[c].name := c]), c, CONNACK, 0, junk, names);
    }
  }

  lemma CommandNames(db: Db, c: int, opcode: byte, req: Request, junk: Option<nat>, names: set<Name>)
    requires c in db.clients && RequestNames(req, names) && ReplyNames(db.clients[c].reply, names)
    ensures var db' := Command(db, c, opcode, req, junk); c in db'.clients && ReplyNames(db'.clients[c].reply, names)
  {
    hide Key, ConnectHandler, SetAckReply, TopicAt;
    match req
    case ConnectReq(p) => ConnectNames(db, c, p, junk, names);
    case PublishReq(p) =>
    case SubscribeReq(p) => SetAckReplyNames(db, c, SUBACK, 1, junk, names);
    case AckReq(_) => SetAckReplyNames(db, c, PINGRESP, 0, junk, names);
  }

  lemma RequestHandlerNames(db: Db, c: int, f: Option<seq<byte>>, junk: Option<nat>, names: set<Name>)
    requires c in db.clients && ReplyNames(db.clients[c].reply, names)
    requires (f.Some? ==> Readable(f.value)) && PacketNames(f, names)
    ensures var db' := RequestHandler(db, c, f, junk); c in db'.clients && ReplyNames(db'.clients[c].reply, names)
  {
    hide ReplyNames, RequestNames, Command, UnpackPacket, UnBE;
    if f.Some? && UnpackPacket(f.value).Some? {
      CommandNames(db, c, f.value[0], UnpackPacket(f.value).value, junk, names);
    }
  }

  lemma ReplyHandlerNames(db: Db, c: int, names: set<Name>)
    requires c in db.clients && SubscribersKnown(db) && ReplyNames(db.clients[c].reply, names)
    ensures var db' := ReplyHandler(db, c); c in db'.clients && ReplyNames(db'.clients[c].reply, names)
  {
    hide Key, RetainedPkt, Deliver, PublishMessage;
    match db.clients[c].reply
    case None =>
    case Some(PublishReply(p)) => PublishTouches(db, c, p);
    case Some(AckReply(_, _, _)) =>
  }

  lemma OthersKeepNames(db: Db, db': Db, c: int, names: set<Name>)
    requires PendingNames(db, names) && OnlyWiresOfOthers(db.clients, db'.clients, c)
    requires c in db'.clients && ReplyNames(db'.clients[c].reply, names)
    ensures PendingNames(db', names)
  {
    hide ReplyNames;
  }

  lemma NextKeepsNames(w: World, s: Step, names: set<Name>)
    requires WorldInv(w) && PendingNames(w.db, names) && StepNames(s, names)
    ensures PendingNames(Next(w, s).db, names)
  {
    if Enabled(w, s) {
      hide Inv, RequestHandler, ReplyHandler, Readable, FrameNames;
      match s
      case Request(k, f, junk) =>
        var c := w.workers[k].client;
        assert Runs(w, k, c);
        RequestHandlerNames(w.db, c, f, junk, names);
        RequestTouches(w.db, c, f, junk);
        OthersKeepNames(w.db, RequestHandler(w.db, c, f, junk), c, names);
      case Answer(k) =>
        var c := w.workers[k].client;
        ReplyHandlerNames(w.db, c, names);
        ReplyTouches(w.db, c);
        OthersKeepNames(w.db, ReplyHandler(w.db, c), c, names);
      case _ =>
    }
  }

  /** In every run, the topic of a pending publish is one that a frame named. */
  lemma {:induction false} RunKeepsNames(steps: seq<Step>, names: set<Name>)
    requires AllStepNames(steps, names)
    ensures PendingNames(Run(steps).db, names)
  {
    if steps != [] {
      var m := |steps| - 1;
      hide StepNames, WorldInv, PendingNames, Next;
      RunKeepsNames(steps[..m], names);
      RunKeeps(steps[..m]);
      NextKeepsNames(Run(steps[..m]), steps[m], names);
    } else {
      assert PendingNames(EMPTY.db, names);
    }
  }
}
