/** The table of client names: who is in it, and what a CONNECT frame does to it. */
module BrokerNames {
  import opened Options
  import opened Bytes
  import opened Packets
  import opened BrokerModel
  import opened BrokerInvariants
  import opened BrokerSteps
  import opened BrokerRuns
  import opened BrokerFrames

  /** Every entry is a client that goes by that name. */
  ghost predicate NamesRight(db: Db) {
    forall n :: n in db.names ==> db.names[n] in db.clients && db.clients[db.names[n]].name == n
  }

  ghost predicate SameNames(db: Db, next: Db) {
    && next.names == db.names && next.clients.Keys == db.clients.Keys
    && forall x :: x in db.clients ==> next.clients[x].name == db.clients[x].name
  }

  /** A CONNECT that gives an id. */
  predicate Identifies(f: Packet) {
    f[0] == CONNECT && UnBE(f[5..7]) > 0
  }

  /** The name that a client goes by after a frame: a CONNECT with an id and clean_session 1 gives it the id, cut at its
      first NUL byte. */
  function NameAfter(name: Name, f: Packet): Name {
    if Identifies(f) && f[7] == 1 then Visible(f[10..10 + UnBE(f[5..7])]) else name
  }

  /** After a CONNECT with id the table has the client under its name and no other, and nobody under a name it gave up; other
      entries stay. No other frame changes the table, and no frame another client's name. */
  ghost predicate Renamed(db: Db, next: Db, c: int, f: Packet) {
    && c in db.clients && next.clients.Keys == db.clients.Keys
    && (forall x :: x in db.clients && x != c ==> next.clients[x].name == db.clients[x].name)
    && next.clients[c].name == NameAfter(db.clients[c].name, f)
    && (!Identifies(f) ==> next.names == db.names)
    && (Identifies(f) ==>
          && (forall n :: n in next.names && next.names[n] == c <==> n == next.clients[c].name)
          && (db.clients[c].name != next.clients[c].name ==> db.clients[c].name !in next.names)
          && (forall n :: n != db.clients[c].name && n != next.clients[c].name ==>
                (n in next.names <==> n in db.names) && (n in db.names ==> next.names[n] == db.names[n])))
  }

  lemma SetReplyKeepsNames(db: Db, c: int, opcode: byte, rc: byte, junk: Option<nat>)
    requires c in db.clients
    ensures SameNames(db, SetAckReply(db, c, opcode, rc, junk))
  {
  }

  /** The table after `del_client` and `add_client`, or after `add_client` alone. */
  function TableAfter(names: map<Name, int>, a: Name, b: Name, c: int): map<Name, int> {
    (names - {a})[b := c]
  }

  lemma ConnectNames(db: Db, c: int, f: Packet, junk: Option<nat>)
    requires c in db.clients && f[0] == CONNECT
    ensures
      var next, client := ConnectHandler(db, c, ParseConnect(f), junk), db.clients[c];
      && next.clients.Keys == db.clients.Keys
      && (forall x :: x in db.clients && x != c ==> next.clients[x].name == db.clients[x].name)
      && next.clients[c].name == NameAfter(client.name, f)
      && next.names == if Identifies(f) then TableAfter(db.names, client.name, next.clients[c].name, c) else db.names
  {
    hide UnBE, Visible, SetAckReply;
    var p, client := ParseConnect(f), db.clients[c];
    if p.idlen == 0 {
      SetReplyKeepsNames(db, c, CONNACK, 1, junk);
    } else if p.cleanSession == 1 {
      var names := (db.names - {client.name})[Visible(p.id) := c];
      SetReplyKeepsNames(WithClient(db.(names := names), c, client.(name := Visible(p.id))), c, CONNACK, 0, junk);
    } else {
      assert db.names[client.name := c] == TableAfter(db.names, client.name, client.name, c);
      SetReplyKeepsNames(db.(names := db.names[client.name := c]), c, CONNACK, 0, junk);
    }
  }

  lemma ConnectRenames(db: Db, c: int, f: Packet, junk: Option<nat>)
    requires NamesRight(db) && c in db.clients && f[0] == CONNECT
    ensures Renamed(db, ConnectHandler(db, c, ParseConnect(f), junk), c, f)
  {
    hide Identifies, NameAfter, ConnectHandler, ParseConnect;
    ConnectNames(db, c, f, junk);
  }

  lemma OthersKeepNames(db: Db, c: int, f: Packet, junk: Option<nat>)
    requires c in db.clients && UnpackPacket(f).Some? && f[0] != CONNECT
    ensures SameNames(db, Command(db, c, f[0], UnpackPacket(f).value, junk))
  {
    hide UnBE, Key, TopicAt, SetAckReply, ParsePublish, ParseSubscribe, ParseAck, ParseConnect;
    match UnpackPacket(f).value
    case ConnectReq(_) =>
    case PublishReq(p) =>
    case SubscribeReq(p) => SetReplyKeepsNames(db, c, SUBACK, 1, junk);
    case AckReq(_) => SetReplyKeepsNames(db, c, PINGRESP, 0, junk);
  }

  lemma ArmRenames(db: Db, next: Db, c: int, f: Packet)
    requires Renamed(db, next, c, f)
    ensures Renamed(db, Arm(next, c, OnReply, ArmedOut), c, f)
  {
    hide Identifies, NameAfter;
  }

  lemma NotRenamed(db: Db, next: Db, c: int, f: Packet)
    requires c in db.clients && SameNames(db, next) && f[0] != CONNECT
    ensures Renamed(db, next, c, f)
  {
    hide UnBE, Visible;
  }

  lemma RequestRenames(db: Db, c: int, f: Packet, junk: Option<nat>)
    requires NamesRight(db) && c in db.clients
    ensures Renamed(db, RequestHandler(db, c, Some(f), junk), c, f)
  {
    if UnpackPacket(f).Some? {
      var next := Command(db, c, f[0], UnpackPacket(f).value, junk);
      if f[0] == CONNECT {
        CommandConnects(db, c, f, junk);
      } else {
        OthersKeepNames(db, c, f, junk);
        NotRenamed(db, next, c, f);
      }
      hide Command, UnpackPacket, Renamed, UnBE;
      ArmRenames(db, next, c, f);
    } else {
      NotRenamed(db, db, c, f);
    }
  }

  lemma CommandConnects(db: Db, c: int, f: Packet, junk: Option<nat>)
    requires NamesRight(db) && c in db.clients && f[0] == CONNECT
    ensures UnpackPacket(f).Some? && Renamed(db, Command(db, c, f[0], UnpackPacket(f).value, junk), c, f)
  {
    hide UnBE, ConnectHandler, ParseConnect, Renamed, NamesRight;
    ConnectRenames(db, c, f, junk);
  }

  lemma RenamedIsRight(db: Db, next: Db, c: int, f: Packet)
    requires NamesRight(db) && Renamed(db, next, c, f)
    ensures NamesRight(next)
  {
    hide Identifies, NameAfter;
    forall n | n in next.names ensures next.names[n] in next.clients && next.clients[next.names[n]].name == n {
      var x := next.names[n];
      if !Identifies(f) {
        NotIdentified(db.clients[c].name, f);
        assert db.clients[db.names[n]].name == n;
      } else if x != c {
        assert n != next.clients[c].name && n != db.clients[c].name;
        assert n in db.names && x == db.names[n];
        assert next.clients[x].name == db.clients[x].name;
      }
    }
  }

  lemma NotIdentified(name: Name, f: Packet)
    requires !Identifies(f)
    ensures NameAfter(name, f) == name
  {
  }

  lemma SameIsRight(db: Db, next: Db)
    requires NamesRight(db) && SameNames(db, next)
    ensures NamesRight(next)
  {
    forall n | n in next.names ensures next.names[n] in next.clients && next.clients[next.names[n]].name == n {
      var x := db.names[n];
      assert next.names[n] == x && next.clients[x].name == db.clients[x].name;
    }
  }

  lemma PublishKeepsNames(db: Db, t: Name, c: int, p: Publish)
    requires SubscribersKnown(db)
    ensures SameNames(db, PublishMessage(WithTopic(db, t), t, c, p))
  {
    hide Deliver, MessageOf;
    DeliverTouchesWires(db.clients, TopicAt(db, t).subscribers, c, p, |TopicAt(db, t).subscribers|);
  }

  lemma SendKeepsNames(db: Db, c: int, f: Frame)
    requires c in db.clients
    ensures SameNames(db, Send(db, c, f)) && SameNames(db, DoneAnswering(db, c)) && SameNames(db, Done(db, c))
  {
  }

  lemma SameTwice(db: Db, db1: Db, next: Db)
    requires SameNames(db, db1) && SameNames(db1, next)
    ensures SameNames(db, next)
  {
  }

  lemma AckKeepsNames(db: Db, c: int, opcode: byte, rc: byte, r: Pointer)
    requires c in db.clients && SubscribersKnown(db) && db.clients[c].reply == Some(AckReply(opcode, rc, r))
    ensures SameNames(db, ReplyHandler(db, c))
  {
    hide RetainedPkt, SubscribersKnown, Send, DoneAnswering, SameNames;
    var f := AckFrame(opcode, rc);
    SendKeepsNames(db, c, f);
    SendKeepsMessages(db, c, f);
    var db1 := Send(db, c, f);
    if opcode != SUBACK || r.Null? {
      SendKeepsNames(db1, c, f);
      SameTwice(db, db1, DoneAnswering(db1, c));
    } else if r.To? && r.message in db.messages {
      var g := PublishFrame(RetainedPkt(db.messages[r.message]));
      SendKeepsNames(db1, c, g);
      SendKeepsMessages(db1, c, g);
      SameTwice(db, db1, Send(db1, c, g));
      SendKeepsNames(Send(db1, c, g), c, g);
      SameTwice(db, Send(db1, c, g), DoneAnswering(Send(db1, c, g), c));
    } else {
      FaultKeepsNames(db, db1);
    }
  }

  lemma FaultKeepsNames(db: Db, db1: Db)
    requires SameNames(db, db1)
    ensures SameNames(db, db1.(fault := true))
  {
  }

  lemma SendKeepsMessages(db: Db, c: int, f: Frame)
    requires c in db.clients
    ensures c in Send(db, c, f).clients && Send(db, c, f).messages == db.messages
  {
  }

  lemma ReplyKeepsNames(db: Db, c: int)
    requires c in db.clients && SubscribersKnown(db)
    ensures SameNames(db, ReplyHandler(db, c))
  {
    match db.clients[c].reply
    case None =>
    case Some(PublishReply(p)) =>
      hide Key, PublishMessage, WithTopic, SubscribersKnown, Send, Done;
      PublishKeepsNames(db, Key(p.topic), c, p);
      var db1 := PublishMessage(WithTopic(db, Key(p.topic)), Key(p.topic), c, p);
      SendKeepsNames(db1, c, AckFrame(PUBACK, 0));
      SendKeepsNames(Send(db1, c, AckFrame(PUBACK, 0)), c, AckFrame(PUBACK, 0));
    case Some(AckReply(opcode, rc, r)) => AckKeepsNames(db, c, opcode, rc, r);
  }

  lemma NextKeepsNamesRight(w: World, s: Step)
    requires NamesRight(w.db)
    ensures NamesRight(Next(w, s).db)
  {
    if Enabled(w, s) {
      hide RequestHandler, ReplyHandler, Readable, SubscribersKnown;
      match s
      case Request(k, None, junk) =>
        NothingKeepsNames(w.db, w.workers[k].client, junk);
        SameIsRight(w.db, RequestHandler(w.db, w.workers[k].client, None, junk));
      case Request(k, Some(f), junk) =>
        RequestRenames(w.db, w.workers[k].client, f, junk);
        RenamedIsRight(w.db, Next(w, s).db, w.workers[k].client, f);
      case Answer(k) =>
        ReplyKeepsNames(w.db, w.workers[k].client);
        SameIsRight(w.db, ReplyHandler(w.db, w.workers[k].client));
      case _ =>
    }
  }

  lemma NothingKeepsNames(db: Db, c: int, junk: Option<nat>)
    requires c in db.clients
    ensures SameNames(db, RequestHandler(db, c, None, junk))
  {
  }

  /** In every run every entry of the table is a client that goes by that name. */
  lemma {:induction false} NamesAreRight(steps: seq<Step>)
    ensures NamesRight(Run(steps).db)
  {
    if steps != [] {
      hide NamesRight, Next;
      NamesAreRight(steps[..|steps| - 1]);
      NextKeepsNamesRight(Run(steps[..|steps| - 1]), steps[|steps| - 1]);
    } else {
      assert NamesRight(EMPTY.db);
    }
  }

  /** In every run, whatever frame is served next. */
  lemma FramesName(steps: seq<Step>, k: nat, f: Packet, junk: Option<nat>)
    requires Enabled(Run(steps), Request(k, Some(f), junk))
    ensures Renamed(Run(steps).db, Next(Run(steps), Request(k, Some(f), junk)).db, Run(steps).workers[k].client, f)
  {
    hide NamesRight, Renamed, RequestHandler, Readable;
    NamesAreRight(steps);
    RequestRenames(Run(steps).db, Run(steps).workers[k].client, f, junk);
  }
}
