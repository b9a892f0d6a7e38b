/** The broker of src/server.c as a state machine: what each handler does to clients, topics and messages. */
module BrokerModel {
  import opened Options
  import opened Bytes
  import opened Packets

  type Name = seq<byte>

  // ----- State -----------------------------------------------------------------------------------

  datatype Handler = OnRequest | OnReply
  datatype Interest = Disarmed | ArmedIn | ArmedOut     // one-shot registration with epoll

  /** A pointer to a message: NULL, the number of a message that may have been freed since, or bits never set. */
  datatype Pointer = Null | To(message: nat) | Wild(bits: nat)

  datatype Reply = PublishReply(p: Publish) | AckReply(opcode: byte, rc: byte, retained: Pointer)

  datatype Frame = PublishFrame(p: Publish) | AckFrame(opcode: byte, rc: byte)

  /** What was sent to a client, and on behalf of whom. */
  datatype Sent = Direct(frame: Frame) | Relayed(sub: nat, sender: int, p: Publish)

  datatype Client = Client(name: Name, handler: Handler, armed: Interest, reply: Option<Reply>, wire: seq<Sent>)
  datatype Subscription = Subscription(id: nat, client: int, qos: byte)
  datatype Topic = Topic(subscribers: seq<Subscription>, retained: Option<nat>)
  datatype Message = Message(topic: Name, payload: seq<byte>, qos: byte)

  datatype Event =
    | Accepted(client: int, p: Publish)
    | Subscribed(client: int, sub: Subscription, topic: Name)
    | Answering(client: int, opcode: byte, rc: byte, junk: Option<nat>)
    | Published(client: int, p: Publish)
    | Answered(client: int)

  /** `messages` are the allocated retained messages; `fault` records the use of a pointer to a freed message, or of
      one that was never set. */
  datatype Db = Db(clients: map<int, Client>, topics: map<Name, Topic>, names: map<Name, int>,
                   messages: map<nat, Message>, nextMessage: nat, nextSub: nat, fault: bool, history: seq<Event>)

  // ----- Requests --------------------------------------------------------------------------------

  datatype Request = ConnectReq(connect: Connect) | SubscribeReq(subscribe: Subscribe) | PublishReq(publish: Publish)
                   | AckReq(ack: Ack)

  /** The capacity of the ring that `request_handler` receives into. */
  const RINGSIZE: nat := 0x20_0000

  /** A frame as `recv_packet` returns it: of the length its header says, with a payload that the ring can hold.
      Its length fields stay within it. */
  predicate Readable(f: seq<byte>) {
    && HEADLEN <= |f| <= HEADLEN + RINGSIZE && UnBE(f[1..5]) == |f|
    && (f[0] == CONNECT ==> ConnectFits(f)) && (f[0] == SUBSCRIBE ==> SubscribeFits(f)) && (f[0] == PUBLISH ==> PublishFits(f))
    && (f[0] in {SUBACK, PUBACK, PINGREQ} ==> |f| >= 8)
  }

  /** `unpack_packet`: other opcodes, UNSUBSCRIBE and DISCONNECT among them, are not unpacked. */
  function UnpackPacket(f: seq<byte>): Option<Request>
    requires Readable(f)
  {
    if f[0] == CONNECT then Some(ConnectReq(ParseConnect(f)))
    else if f[0] == SUBSCRIBE then Some(SubscribeReq(ParseSubscribe(f)))
    else if f[0] == PUBLISH then Some(PublishReq(ParsePublish(f)))
    else if f[0] == SUBACK || f[0] == PUBACK || f[0] == PINGREQ then Some(AckReq(ParseAck(f)))
    else None
  }

  /** Topics are looked up by their C string. */
  function Key(topic: seq<byte>): Name {
    Visible(topic)
  }

  // ----- Handlers --------------------------------------------------------------------------------

  function WithClient(db: Db, c: int, client: Client): Db {
    db.(clients := db.clients[c := client])
  }

  function SetReply(db: Db, c: int, r: Reply, e: Event): Db
    requires c in db.clients
  {
    WithClient(db, c, db.clients[c].(reply := Some(r))).(history := db.history + [e])
  }

  /** `set_reply` allocates the reply and leaves its pointer as the memory comes: NULL, or some bits. */
  function Uninitialised(junk: Option<nat>): Pointer {
    if junk.None? then Null else Wild(junk.value)
  }

  function SetAckReply(db: Db, c: int, opcode: byte, rc: byte, junk: Option<nat>): Db
    requires c in db.clients
  {
    SetReply(db, c, AckReply(opcode, rc, Uninitialised(junk)), Answering(c, opcode, rc, junk))
  }

  /** The pointer to a topic's retained message. */
  function PointerTo(retained: Option<nat>): Pointer {
    if retained.None? then Null else To(retained.value)
  }

  function TopicAt(db: Db, t: Name): Topic {
    if t in db.topics then db.topics[t] else Topic([], None)
  }

  function ConnectHandler(db: Db, c: int, p: Connect, junk: Option<nat>): Db
    requires c in db.clients
  {
    var client := db.clients[c];
    if p.idlen == 0 then SetAckReply(db, c, CONNACK, 1, junk)
    else if p.cleanSession == 1 then
      var name := Visible(p.id);
      var db' := WithClient(db.(names := (db.names - {client.name})[name := c]), c, client.(name := name));
      SetAckReply(db', c, CONNACK, 0, junk)
    else SetAckReply(db.(names := db.names[client.name := c]), c, CONNACK, 0, junk)
  }

  function PublishHandler(db: Db, c: int, p: Publish): Db
    requires c in db.clients
  {
    if p.topicLen == 0 then db else SetReply(db, c, PublishReply(p), Accepted(c, p))
  }

  /** A successful SUBSCRIBE sets the pointer of its reply; one without topic leaves it as it came. */
  function SubscribeHandler(db: Db, c: int, p: Subscribe, junk: Option<nat>): Db
    requires c in db.clients
  {
    if p.topicLen == 0 then SetAckReply(db, c, SUBACK, 1, junk)
    else
      var t := Key(p.topic);
      var topic := TopicAt(db, t);
      var sub := Subscription(db.nextSub, c, p.qos);
      var db' := db.(topics := db.topics[t := topic.(subscribers := [sub] + topic.subscribers)], nextSub := db.nextSub + 1);
      SetReply(db', c, AckReply(SUBACK, 0, PointerTo(topic.retained)), Subscribed(c, sub, t))
  }

  function PingreqHandler(db: Db, c: int, junk: Option<nat>): Db
    requires c in db.clients
  {
    SetAckReply(db, c, PINGRESP, 0, junk)
  }

  /** The command table: acknowledgements other than PINGREQ have no handler. */
  function Command(db: Db, c: int, opcode: byte, req: Request, junk: Option<nat>): Db
    requires c in db.clients
  {
    match req
    case ConnectReq(p) => ConnectHandler(db, c, p, junk)
    case PublishReq(p) => PublishHandler(db, c, p)
    case SubscribeReq(p) => SubscribeHandler(db, c, p, junk)
    case AckReq(_) => if opcode == PINGREQ then PingreqHandler(db, c, junk) else db
  }

  function Arm(db: Db, c: int, h: Handler, i: Interest): Db
    requires c in db.clients
  {
    WithClient(db, c, db.clients[c].(handler := h, armed := i))
  }

  /** `request_handler`, on the packet received or on none; `junk` is what the memory of its reply held before. */
  function RequestHandler(db: Db, c: int, f: Option<seq<byte>>, junk: Option<nat>): Db
    requires c in db.clients && (f.Some? ==> Readable(f.value))
  {
    if f.None? then Arm(db, c, OnRequest, ArmedIn)
    else
      match UnpackPacket(f.value)
      case None => db
      case Some(req) => Arm(Command(db, c, f.value[0], req, junk), c, OnReply, ArmedOut)
  }

  // ----- Replies ---------------------------------------------------------------------------------

  function Send(db: Db, c: int, frame: Frame): Db
    requires c in db.clients
  {
    WithClient(db, c, db.clients[c].(wire := db.clients[c].wire + [Direct(frame)]))
  }

  function MessageOf(p: Publish): Message {
    Message(Visible(p.topic), Visible(p.message), p.qos)
  }

  /** `retain_message`: the previous message of the topic is freed. */
  function RetainMessage(db: Db, t: Name, p: Publish): Db {
    var topic := TopicAt(db, t);
    var kept := if topic.retained.Some? then db.messages - {topic.retained.value} else db.messages;
    db.(messages := kept[db.nextMessage := MessageOf(p)], nextMessage := db.nextMessage + 1,
        topics := db.topics[t := topic.(retained := Some(db.nextMessage))])
  }

  /** The first `i` subscribers, in list order, get their copy. */
  function Deliver(clients: map<int, Client>, subs: seq<Subscription>, sender: int, p: Publish, i: nat): (r: map<int, Client>)
    requires i <= |subs| && forall s :: s in subs ==> s.client in clients
    ensures r.Keys == clients.Keys
  {
    if i == 0 then clients
    else
      var m, s := Deliver(clients, subs, sender, p, i - 1), subs[i - 1];
      m[s.client := m[s.client].(wire := m[s.client].wire + [Relayed(s.id, sender, p)])]
  }

  predicate SubscribersKnown(db: Db) {
    forall t, s :: t in db.topics && s in db.topics[t].subscribers ==> s.client in db.clients
  }

  /** `publish_message`, on a topic that exists. */
  function PublishMessage(db: Db, t: Name, sender: int, p: Publish): Db
    requires t in db.topics && SubscribersKnown(db)
  {
    var db' := if p.retain != 0 then RetainMessage(db, t, p) else db;
    var subs := db.topics[t].subscribers;
    db'.(clients := Deliver(db.clients, subs, sender, p, |subs|), history := db.history + [Published(sender, p)])
  }

  function RetainedPkt(m: Message): Publish {
    PublishPkt(m.topic, m.payload, m.qos, 1, 0)
  }

  function Done(db: Db, c: int): Db
    requires c in db.clients
  {
    Arm(WithClient(db, c, db.clients[c].(reply := None)), c, OnRequest, ArmedIn)
  }

  function DoneAnswering(db: Db, c: int): Db
    requires c in db.clients
  {
    Done(db, c).(history := db.history + [Answered(c)])
  }

  function WithTopic(db: Db, t: Name): (r: Db)
    ensures t in r.topics
    ensures SubscribersKnown(db) ==> SubscribersKnown(r)
  {
    db.(topics := db.topics[t := TopicAt(db, t)])
  }

  /** `reply_handler`. */
  function ReplyHandler(db: Db, c: int): Db
    requires c in db.clients && SubscribersKnown(db)
  {
    match db.clients[c].reply
    case None => db
    case Some(PublishReply(p)) =>
      var t := Key(p.topic);
      var db' := PublishMessage(WithTopic(db, t), t, c, p);
      Done(if p.qos == 1 then Send(db', c, AckFrame(PUBACK, 0)) else db', c)
    case Some(AckReply(opcode, rc, retained)) =>
      var db' := Send(db, c, AckFrame(opcode, rc));
      if opcode != SUBACK || retained.Null? then DoneAnswering(db', c)
      else if retained.To? && retained.message in db.messages
      then DoneAnswering(Send(db', c, PublishFrame(RetainedPkt(db.messages[retained.message]))), c)
      else db'.(fault := true)
  }

  // ----- Workers ---------------------------------------------------------------------------------

  /** A worker runs a handler until it re-arms the client's descriptor, and then only returns. */
  datatype Work = Handling(client: int, handler: Handler) | Leaving

  datatype World = World(db: Db, workers: map<nat, Work>)

  datatype Step =
    | Accept(client: int, name: Name)
    | Dispatch(worker: nat, client: int)
    | Request(worker: nat, frame: Option<seq<byte>>, junk: Option<nat>)
    | Answer(worker: nat)
    | Return(worker: nat)

  const EMPTY: World := World(Db(map[], map[], map[], map[], 0, 0, false, []), map[])

  /** Which steps the scheduler may take. */
  predicate Enabled(w: World, s: Step) {
    && !w.db.fault
    && match s
       case Accept(c, _) => c !in w.db.clients
       case Dispatch(k, c) => k !in w.workers && c in w.db.clients && w.db.clients[c].armed != Disarmed
       case Request(k, f, _) => k in w.workers && w.workers[k].Handling? && w.workers[k].handler == OnRequest
                             && w.workers[k].client in w.db.clients && (f.Some? ==> Readable(f.value))
       case Answer(k) => k in w.workers && w.workers[k].Handling? && w.workers[k].handler == OnReply
                         && w.workers[k].client in w.db.clients && SubscribersKnown(w.db)
       case Return(k) => k in w.workers && w.workers[k].Leaving?
  }

  function Next(w: World, s: Step): World {
    if !Enabled(w, s) then w
    else match s
      case Accept(c, name) => w.(db := WithClient(w.db, c, Client(name, OnRequest, ArmedIn, None, [])))
      case Dispatch(k, c) =>
        World(Arm(w.db, c, w.db.clients[c].handler, Disarmed), w.workers[k := Handling(c, w.db.clients[c].handler)])
      case Request(k, f, junk) => World(RequestHandler(w.db, w.workers[k].client, f, junk), w.workers[k := Leaving])
      case Answer(k) => World(ReplyHandler(w.db, w.workers[k].client), w.workers[k := Leaving])
      case Return(k) => w.(workers := w.workers - {k})
  }

  /** Any interleaving: a sequence of scheduler choices; a choice that is not enabled changes nothing. */
  function Run(steps: seq<Step>): World {
    if steps == [] then EMPTY else Next(Run(steps[..|steps| - 1]), steps[|steps| - 1])
  }
}
