/** The handlers of src/server.c as they run: clients and topics updated in place, frames packed and written to sockets
    that may take only part of them. Each method is proved to do to the abstract state what the corresponding function of
    BrokerModel says; there, a connection carries the frames that were handed to `sendall`. */
module Broker {
  import opened Options
  import opened Bytes
  import opened Packets
  import opened Protocol
  import opened Ring
  import opened Network
  import opened Reception
  import opened Sendings
  import opened BrokerSteps
  import opened BrokerRuns
  import opened BrokerTopics
  import M = BrokerModel
  import L = SubscriberList
  import H = HashTable
  import P = Probing
  import G = Growth
  import R = HashTableRuns
  import F = BrokerFrames

  /** `wire` are the frames handed to `sendall`, `log` what became of each of those calls. */
  class Client {
    const fd: int
    const sock: OutSocket
    var name: M.Name
    var handler: M.Handler
    var armed: M.Interest
    var reply: Option<M.Reply>
    ghost var wire: seq<M.Sent>
    ghost var log: seq<Sending>

    constructor (fd: int, name: M.Name)
      ensures this.fd == fd && View() == M.Client(name, M.OnRequest, M.ArmedIn, None, [])
      ensures Valid() && fresh(sock) && log == []
    {
      this.fd, this.name := fd, name;
      handler, armed, reply, wire, log := M.OnRequest, M.ArmedIn, None, [], [];
      sock := new OutSocket();
    }

    ghost function View(): M.Client
      reads this
    {
      M.Client(name, handler, armed, reply, wire)
    }

    /** Each frame went out up to where its call stopped, and nothing else did. */
    ghost predicate Valid()
      reads this`wire, this`log, sock
    {
      EncodesAll(wire, log) && sock.wire == Stream(log)
    }

    /** `sendall` on the client's socket. */
    method Transmit(b: Buffer, ghost x: M.Sent) returns (rc: int, sent: nat)
      requires Valid() && b.Valid() && Encodes(x, b.View())
      modifies this`wire, this`log, sock
      ensures Valid() && sent <= b.size && rc == (if sent == b.size then 0 else -1)
      ensures wire == old(wire) + [x] && log == old(log) + [Sending(b.View(), sent)]
      ensures sock.wire == old(sock.wire) + b.View()[..sent]
    {
      hide Encodes, Stream;
      rc, sent := SendAll(sock, b.data, b.size);
      StreamSnoc(log, Sending(b.View(), sent));
      wire, log := wire + [x], log + [Sending(b.View(), sent)];
    }
  }

  /** `subscribers` is what the list holds. */
  class Topic {
    const name: M.Name
    const list: L.List
    var retained: Option<nat>
    ghost var subscribers: seq<M.Subscription>

    /** `create_topic`. */
    constructor (name: M.Name)
      ensures this.name == name && View() == M.Topic([], None)
      ensures Linked() && fresh(list)
    {
      this.name := name;
      list := new L.List();
      subscribers, retained := [], None;
    }

    ghost function View(): M.Topic
      reads this
    {
      M.Topic(subscribers, retained)
    }

    ghost predicate Linked()
      reads this`subscribers, list, list.nodes
    {
      list.Valid() && list.Contents() == subscribers
    }

    /** `list_head_insert` into the list of subscribers. */
    method Insert(s: M.Subscription)
      requires Linked()
      modifies this`subscribers, list
      ensures Linked() && subscribers == [s] + old(subscribers)
    {
      list.HeadInsert(s);
      subscribers := [s] + subscribers;
    }

    twostate predicate SameList()
      reads this`subscribers, list, list.nodes
    {
      unchanged(this`subscribers) && unchanged(list) && unchanged(list.nodes)
    }

    twostate lemma StillLinked()
      requires old(Linked()) && SameList()
      ensures Linked()
    {
    }
  }

  // ----- Receiving ---------------------------------------------------------------------------------

  /** Nothing is to come, or a frame that can be received and read. */
  ghost predicate Deliverable(stream: seq<byte>) {
    stream == [] || (StartsWithFrame(stream) && M.Readable(stream[..FrameLength(stream)]))
  }

  /** The packet that `recv_packet` finds. */
  ghost function Packet(stream: seq<byte>, plan: seq<nat>): (f: Option<seq<byte>>)
    requires Deliverable(stream)
    ensures f.Some? ==> M.Readable(f.value)
  {
    if stream == [] || Stalls(plan) then None else Some(stream[..FrameLength(stream)])
  }

  ghost predicate Undecoded(f: Option<seq<byte>>) {
    f.Some? && M.Readable(f.value) && M.UnpackPacket(f.value).None?
  }

  /** `recv_packet` into a ring made for it. */
  method Receive(from: InSocket) returns (b: Buffer?, opcode: byte)
    requires Deliverable(from.unread)
    modifies from
    ensures b == null <==> old(Packet(from.unread, from.plan)).None?
    ensures b != null ==> fresh(b) && fresh(b.data) && b.Valid() && b.pos == 0
    ensures b != null ==> Some(b.View()) == old(Packet(from.unread, from.plan)) && opcode == b.View()[0]
  {
    hide UnBE, Received, RingBuffer.Contents;
    var space := new byte[M.RINGSIZE];
    var ring := new RingBuffer(space);
    ghost var stream, plan := from.unread, from.plan;
    b, opcode := RecvPacket(from, ring);
    if b != null { PacketIs(stream, plan, from.unread, ring.max, b.View(), ring.Contents(), opcode); }
  }

  lemma PacketIs(stream: seq<byte>, plan: seq<nat>, unread: seq<byte>, max: nat, packet: seq<byte>, residue: seq<byte>,
                 opcode: byte)
    requires Received(stream, plan, unread, max, packet, residue, opcode)
    ensures StartsWithFrame(stream) && packet == stream[..FrameLength(stream)] && opcode == packet[0]
  {
  }

  /** `unpack_packet`: the unpackers read the buffer from its start. */
  method UnpackPacket(b: Buffer, opcode: byte) returns (req: Option<M.Request>)
    requires b.Valid() && b.pos == 0 && M.Readable(b.View()) && opcode == b.View()[0]
    modifies b`pos
    ensures req == M.UnpackPacket(b.View())
  {
    hide UnBE;
    req := None;
    if opcode == CONNECT {
      var p := UnpackConnect(b);
      req := Some(M.ConnectReq(p));
    } else if opcode == SUBSCRIBE {
      var p := UnpackSubscribe(b);
      req := Some(M.SubscribeReq(p));
    } else if opcode == PUBLISH {
      var p := UnpackPublish(b);
      req := Some(M.PublishReq(p));
    } else if opcode == SUBACK || opcode == PUBACK || opcode == PINGREQ {
      var p := UnpackAck(b);
      req := Some(M.AckReq(p));
    }
  }

  /** What a publish sends, and the state before it. */
  datatype Batch =
    Batch(before: M.Db, logs: map<int, seq<Sending>>, frame: seq<byte>, subs: seq<M.Subscription>, sender: int, p: Publish)

  /** `topics` is what the table says, which gives for a name the place of its topic among those created. `expected` and `room`
      only serve the promise that puts succeed. */
  class SizigyDB {
    var clients: map<int, Client>
    const table: H.Hashmap<M.Name, nat>
    var created: seq<Topic>
    var names: map<M.Name, int>
    var messages: map<nat, M.Message>
    var nextMessage: nat
    var nextSub: nat
    var fault: bool
    ghost var topics: map<M.Name, Topic>
    ghost var history: seq<M.Event>
    ghost const expected: set<M.Name>
    ghost var room: nat

    ghost function Socks(): set<OutSocket>
      reads this`clients
    {
      set c | c in clients.Values :: c.sock
    }

    ghost function Lists(): set<L.List>
      reads this`topics
    {
      set t | t in topics.Values :: t.list
    }

    ghost function Nodes(): set<L.Node>
      reads this`topics, Lists()
    {
      set t, i | t in topics.Values && 0 <= i < |t.list.nodes| :: t.list.nodes[i]
    }

    ghost predicate Valid()
      reads this, clients.Values, topics.Values, Socks(), Lists(), Nodes(), table, table.entries
    {
      && (forall c :: c in clients ==> clients[c].fd == c)
      && (forall t :: t in topics ==> topics[t].name == t)
      && (forall c, d :: c in clients.Values && d in clients.Values && c != d ==> c.sock != d.sock)
      && Sound() && Listed() && Tabled()
    }

    /** Every topic's list holds its subscribers, and no two topics share one. */
    ghost predicate Listed()
      reads this`topics, topics.Values`subscribers, Lists(), Nodes()
    {
      && (forall t :: t in topics.Values ==> t.Linked())
      && (forall t, u :: t in topics.Values && u in topics.Values && t != u ==> t.list != u.list)
    }

    /** The table answers like the map of the topics. */
    ghost predicate Tabled()
      reads this`topics, this`created, table, table.entries
    {
      && table.Valid() && P.Unique(table.View())
      && Indexed(P.Contents(table.View(), table.hash), created, topics)
    }

    static ghost predicate Indexed(m: map<M.Name, nat>, created: seq<Topic>, topics: map<M.Name, Topic>) {
      m.Keys == topics.Keys && forall t :: t in m ==> m[t] < |created| && created[m[t]] == topics[t]
    }

    /** Some size within memory spreads the expected names. */
    ghost predicate Roomy()
      reads this`room, table, table.entries
    {
      && table.Valid() && P.Wf(table.View(), table.hash)
      && G.Settled(table.View(), table.hash, expected) && table.CanSpread(expected, room)
    }

    /** Memory holds the array that a put of the name gives. */
    static ghost predicate CanPut(hash: M.Name -> nat, limit: nat, s: seq<P.Slot<M.Name, nat>>, name: M.Name, place: nat)
      requires |s| >= P.WINDOW
    {
      H.PutOf(hash, limit, s, name, place).Some?
    }

    ghost predicate CanStore(name: M.Name)
      requires Tabled()
      reads this`topics, this`created, table, table.entries
    {
      CanPut(table.hash, table.limit, table.View(), name, |created|)
    }

    /** What became of the sends to each client. */
    ghost function Logs(): map<int, seq<Sending>>
      reads this`clients, clients.Values
    {
      map c | c in clients :: clients[c].log
    }

    /** Every connection is sound. */
    ghost predicate Sound()
      reads this`clients, clients.Values, Socks()
    {
      forall c :: c in clients.Values ==> c.Valid()
    }

    ghost function ClientMap(): map<int, M.Client>
      reads this, clients.Values
    {
      map c | c in clients :: clients[c].View()
    }

    ghost function TopicMap(): map<M.Name, M.Topic>
      reads this, topics.Values
    {
      map t | t in topics :: topics[t].View()
    }

    ghost function State(): M.Db
      reads this, clients.Values, topics.Values
    {
      M.Db(ClientMap(), TopicMap(), names, messages, nextMessage, nextSub, fault, history)
    }

    lemma SameClients()
      ensures State().clients.Keys == clients.Keys
    {
    }

    lemma SameTopics()
      ensures State().topics.Keys == topics.Keys
    {
    }

    lemma ClientAt(c: Client)
      requires Knows(c)
      ensures c.fd in State().clients && State().clients[c.fd] == c.View()
      ensures Sound() ==> c.Valid()
    {
    }

    lemma TopicIn(t: Topic)
      requires t.name in topics && topics[t.name] == t
      ensures t.name in State().topics && State().topics[t.name] == t.View()
    {
    }

    /** Topics, lists and the table's array are as before or new. */
    twostate predicate OnlyFresh()
      reads this`topics, table
    {
      && (forall t :: t in topics.Values ==> t in old(topics).Values || (fresh(t) && fresh(t.list)))
      && (table.entries == old(table.entries) || fresh(table.entries))
    }

    ghost predicate Knows(c: Client)
      reads this
    {
      c.fd in clients && clients[c.fd] == c
    }

    lemma ClientCarries(c: Client)
      requires Valid() && c in clients.Values
      ensures CarriedBytes(c)
    {
      assert c.Valid();
      if Complete(c.log) { StreamIsCutIntoFrames(c.wire, c.log, 0); }
    }

    lemma ClientsCarry()
      requires Valid()
      ensures forall c :: c in clients ==> CarriedBytes(clients[c])
    {
      forall c | c in clients ensures CarriedBytes(clients[c]) { ClientCarries(clients[c]); }
    }

    // How the maps change when one object does.

    twostate lemma ClientChanged(c: Client)
      requires old(Valid()) && clients == old(clients) && Knows(c)
      requires forall d :: d in clients.Values && d != c ==> unchanged(d)
      requires c.Valid() && forall d :: d in clients.Values && d != c ==> unchanged(d.sock)
      ensures ClientMap() == old(ClientMap())[c.fd := c.View()] && Sound()
    {
      hide Listed, Tabled;
      forall d | d in clients.Values ensures d.Valid() {
        if d != c { assert old(d.Valid()); }
      }
      forall x | x in clients && x != c.fd ensures clients[x].View() == old(clients[x].View()) {
        assert clients[x] in clients.Values;
      }
    }

    twostate lemma LogChanged(c: Client)
      requires old(Valid()) && clients == old(clients) && Knows(c)
      requires forall d :: d in clients.Values && d != c ==> unchanged(d)
      ensures Logs() == old(Logs())[c.fd := c.log]
    {
      forall x | x in clients && x != c.fd ensures clients[x].log == old(clients[x].log) {
        assert clients[x] in clients.Values;
      }
    }

    twostate lemma ClientAdded(new c: Client)
      requires clients == old(clients)[c.fd := c] && c.fd !in old(clients)
      requires forall d :: d in old(clients.Values) ==> unchanged(d)
      ensures ClientMap() == old(ClientMap())[c.fd := c.View()]
    {
      forall x | x in clients && x != c.fd ensures clients[x].View() == old(clients[x].View()) {
        assert old(clients[x]) in old(clients.Values);
      }
    }

    twostate lemma SoundWith(new c: Client)
      requires clients == old(clients)[c.fd := c] && old(Sound()) && c.Valid()
      requires forall d :: d in old(clients.Values) ==> unchanged(d) && unchanged(d.sock)
      ensures Sound()
    {
      forall d | d in clients.Values ensures d.Valid() {
        if d != c { assert d in old(clients.Values) && old(d.Valid()); }
      }
    }

    twostate lemma ClientsSame()
      requires clients == old(clients) && forall d :: d in clients.Values ==> unchanged(d)
      requires old(Sound()) && forall d :: d in clients.Values ==> unchanged(d.sock)
      ensures ClientMap() == old(ClientMap()) && Sound()
    {
      forall x | x in clients ensures clients[x].View() == old(clients[x].View()) {
        assert clients[x] in clients.Values;
      }
    }

    twostate lemma TopicChanged(t: Topic)
      requires old(Valid()) && topics == old(topics) && t.name in topics && topics[t.name] == t
      requires forall u :: u in topics.Values && u != t ==> unchanged(u)
      ensures TopicMap() == old(TopicMap())[t.name := t.View()]
    {
      hide Sound, Listed, Tabled;
      forall x | x in topics && x != t.name ensures topics[x].View() == old(topics[x].View()) {
        assert topics[x] in topics.Values;
      }
    }

    twostate lemma TopicsSame()
      requires topics == old(topics) && forall u :: u in topics.Values ==> unchanged(u)
      requires old(Listed()) && forall u :: u in topics.Values ==> u.SameList()
      ensures TopicMap() == old(TopicMap()) && Listed()
    {
      forall x | x in topics ensures topics[x].View() == old(topics[x].View()) {
        assert topics[x] in topics.Values;
      }
      ListsSame();
    }

    twostate lemma ListsSame()
      requires old(Listed()) && topics == old(topics) && forall u :: u in topics.Values ==> u.SameList()
      ensures Listed()
    {
      hide Topic.Linked, Topic.SameList;
      forall u | u in topics.Values ensures u.Linked() { u.StillLinked(); }
    }

    /** No socket appears but with a new client. */
    twostate lemma SocksFrom()
      requires forall c :: c in clients.Values ==> c in old(clients.Values) || fresh(c.sock)
      ensures forall o :: o in Socks() ==> o in old(Socks()) || fresh(o)
    {
      forall o | o in Socks() ensures o in old(Socks()) || fresh(o) {
        var c :| c in clients.Values && c.sock == o;
        if c in old(clients.Values) { assert o in old(Socks()); }
      }
    }

    /** No list appears but with a new topic. */
    twostate lemma ListsFrom()
      requires OnlyFresh()
      ensures forall l :: l in Lists() ==> l in old(Lists()) || fresh(l)
    {
      forall l | l in Lists() ensures l in old(Lists()) || fresh(l) {
        var t :| t in topics.Values && t.list == l;
        if t in old(topics).Values { assert l in old(Lists()); }
      }
    }

    constructor (table: H.Hashmap<M.Name, nat>, ghost expected: set<M.Name>, ghost room: nat)
      requires table.Valid() && P.Unique(table.View()) && P.Contents(table.View(), table.hash) == map[]
      ensures Valid() && State() == M.EMPTY.db && clients == map[] && topics == map[]
      ensures this.table == table && this.expected == expected && this.room == room
    {
      this.table, this.expected, this.room := table, expected, room;
      clients, topics, names, messages, created := map[], map[], map[], map[], [];
      nextMessage, nextSub, fault, history := 0, 0, false, [];
    }

    /** `accept_handler`, for a descriptor not in use. */
    method Accept(fd: int, name: M.Name) returns (c: Client)
      requires Valid() && fd !in clients
      modifies this`clients
      ensures Valid() && fresh(c) && fresh(c.sock) && Knows(c) && c.log == []
      ensures clients == old(clients)[fd := c]
      ensures State() == M.WithClient(old(State()), fd, M.Client(name, M.OnRequest, M.ArmedIn, None, []))
    {
      hide Listed, Tabled, Sound, ClientMap, TopicMap;
      c := new Client(fd, name);
      clients := clients[fd := c];
      TopicsSame();
      ClientAdded(c);
      SoundWith(c);
    }

    ghost method AddEvent(e: M.Event)
      requires Valid()
      modifies this`history
      ensures Valid() && State() == old(State()).(history := old(history) + [e])
    {
      hide Listed, Tabled;
      history := history + [e];
      ClientsSame();
      TopicsSame();
    }

    /** `set_reply`, `set_ack_reply`. */
    method SetReply(c: Client, r: M.Reply, ghost e: M.Event)
      requires Valid() && Knows(c)
      modifies this`history, c`reply
      ensures Valid() && State() == M.SetReply(old(State()), c.fd, r, e)
    {
      hide ClientMap, TopicMap, Listed, Tabled, Sound;
      ClientAt(c);
      c.reply := Some(r);
      history := history + [e];
      ClientChanged(c);
      TopicsSame();
    }

    /** `set_ack_reply`: the pointer of the new reply is what its memory held. */
    method SetAckReply(c: Client, opcode: byte, rc: byte, junk: Option<nat>)
      requires Valid() && Knows(c)
      modifies this`history, c`reply
      ensures Valid() && State() == M.SetAckReply(old(State()), c.fd, opcode, rc, junk)
    {
      hide Listed, Tabled;
      SetReply(c, M.AckReply(opcode, rc, M.Uninitialised(junk)), M.Answering(c.fd, opcode, rc, junk));
    }

    /** `del_client`, the new name, `add_client`. */
    method Rename(c: Client, name: M.Name)
      requires Valid() && Knows(c)
      modifies this`names, c`name
      ensures Valid() && c.fd in old(State()).clients
      ensures
        var db := old(State());
        var client := db.clients[c.fd];
        State() == M.WithClient(db.(names := (db.names - {client.name})[name := c.fd]), c.fd, client.(name := name))
    {
      hide ClientMap, TopicMap, Listed, Tabled, Sound;
      ClientAt(c);
      names := names - {c.name};
      c.name := name;
      names := names[c.name := c.fd];
      ClientChanged(c);
      TopicsSame();
    }

    method ConnectHandler(c: Client, p: Connect, junk: Option<nat>)
      requires Valid() && Knows(c)
      modifies this`history, this`names, c`reply, c`name
      ensures Valid() && State() == M.ConnectHandler(old(State()), c.fd, p, junk)
    {
      hide ClientMap, TopicMap, Visible, M.SetAckReply, Listed, Tabled;
      ClientAt(c);
      var rc: byte := 0;
      if p.idlen == 0 {
        rc := 1;
        ClientsSame();
        TopicsSame();
      } else if p.cleanSession == 1 {
        Rename(c, Visible(p.id));
      } else {
        names := names[c.name := c.fd];
        ClientsSame();
        TopicsSame();
      }
      SetAckReply(c, CONNACK, rc, junk);
    }

    method PublishHandler(c: Client, p: Publish)
      requires Valid() && Knows(c)
      modifies this`history, c`reply
      ensures Valid() && State() == M.PublishHandler(old(State()), c.fd, p)
    {
      hide Listed, Tabled;
      if p.topicLen != 0 {
        SetReply(c, M.PublishReply(p), M.Accepted(c.fd, p));
      } else {
        ClientsSame();
        TopicsSame();
      }
    }

    /** The topic that the table has under a name. */
    method FindTopic(name: M.Name) returns (t: Topic?)
      requires Valid()
      ensures t != null <==> name in topics
      ensures t != null ==> t == topics[name]
    {
      hide Sound, Listed, P.Unique, P.Contents, P.Wf;
      t := null;
      var place := table.Get(name);
      if place.Some? { t := created[place.value]; }
    }

    twostate lemma TopicAdded(new t: Topic)
      requires topics == old(topics)[t.name := t] && t.name !in old(topics)
      requires forall u :: u in old(topics.Values) ==> unchanged(u)
      ensures TopicMap() == old(TopicMap())[t.name := t.View()]
    {
      forall x | x in topics && x != t.name ensures topics[x].View() == old(topics[x].View()) {
        assert old(topics[x]) in old(topics.Values);
      }
    }

    twostate lemma ListedWith(new t: Topic)
      requires old(Listed()) && topics == old(topics)[t.name := t] && t.name !in old(topics)
      requires t.Linked() && fresh(t) && fresh(t.list) && forall u :: u in old(topics.Values) ==> u.SameList()
      ensures Listed()
    {
      hide Topic.Linked, Topic.SameList;
      forall u | u in topics.Values ensures u.Linked() {
        if u != t { u.StillLinked(); }
      }
    }

    /** `hashmap_put` of a new topic. */
    method Register(name: M.Name, place: nat) returns (ok: bool)
      requires table.Valid() && P.Unique(table.View()) && name !in P.Contents(table.View(), table.hash)
      modifies this`room, table, table.entries
      ensures ok ==> table.Valid() && P.Unique(table.View())
      ensures ok ==> P.Contents(table.View(), table.hash) == old(P.Contents(table.View(), table.hash))[name := place]
      ensures table.entries == old(table.entries) || fresh(table.entries)
      ensures table.reliable ==> (ok <==> CanPut(table.hash, table.limit, old(table.View()), name, place))
      ensures name in expected && old(Roomy()) ==> ok && Roomy()
    {
      hide P.Wf, P.Unique, P.Contents, P.Count, H.PutDone, H.PutOf, H.NoRoom, H.NoNewEntries, H.PlacedAtStop, G.Settled, G.Spread,
        G.Scaled;
      ghost var view, size := table.View(), table.tableSize;
      R.AbsentHasNoSlotAhead(view, table.hash, name);
      var status, e := table.Put(name, place, expected, room);
      ok := status == H.OK;
      if ok {
        H.PutOnUniqueKeys(table.hash, view, name, place, table.View());
        if e <= room {
          G.ScaledAdd(size, e, room - e);
          room := room - e;
        }
      }
    }

    static lemma IndexedWith(m: map<M.Name, nat>, created: seq<Topic>, topics: map<M.Name, Topic>, t: Topic, name: M.Name)
      requires Indexed(m, created, topics)
      ensures Indexed(m[name := |created|], created + [t], topics[name := t])
    {
    }

    static lemma IndexedKeys(m: map<M.Name, nat>, created: seq<Topic>, topics: map<M.Name, Topic>)
      requires Indexed(m, created, topics)
      ensures m.Keys == topics.Keys
    {
    }

    /** The topic under its name in the table. */
    method Store(t: Topic) returns (ok: bool)
      requires Tabled() && t.name !in topics
      modifies this`topics, this`created, this`room, table, table.entries
      ensures ok ==> Tabled()
      ensures topics == old(topics)[t.name := t] && (table.entries == old(table.entries) || fresh(table.entries))
      ensures table.reliable ==> (ok <==> old(CanStore(t.name)))
      ensures t.name in expected && old(Roomy()) ==> ok && Roomy()
    {
      hide CanPut, Roomy, Indexed, P.Contents, P.Unique, P.Wf;
      ghost var m := P.Contents(table.View(), table.hash);
      IndexedKeys(m, created, topics);
      IndexedWith(m, created, topics, t, t.name);
      var place := |created|;
      created := created + [t];
      ok := Register(t.name, place);
      topics := topics[t.name := t];
    }

    /** `create_topic` and `hashmap_put`. */
    method AddTopic(name: M.Name) returns (t: Topic, ok: bool)
      requires Valid() && name !in topics
      modifies this`topics, this`created, this`room, table, table.entries
      ensures ok ==> Valid() && State() == M.WithTopic(old(State()), name)
      ensures fresh(t) && fresh(t.list) && t.name == name && topics == old(topics)[name := t]
      ensures table.entries == old(table.entries) || fresh(table.entries)
      ensures table.reliable ==> (ok <==> old(CanStore(name)))
      ensures name in expected && old(Roomy()) ==> ok && Roomy()
    {
      hide CanStore, ClientMap, TopicMap, Sound, Listed, Tabled, Roomy, Topic.Linked;
      SameTopics();
      t := new Topic(name);
      ok := Store(t);
      TopicAdded(t);
      ClientsSame();
      ListedWith(t);
    }

    /** The get-or-create that SUBSCRIBE and PUBLISH share. It is not `ok` when the table cannot take the new name: the topic
        is then lost, and others with it when the failure came in the middle of a rehash. In reliable memory that happens
        exactly when the put needs an array that memory cannot hold. */
    method TopicNamed(name: M.Name) returns (t: Topic, ok: bool)
      requires Valid()
      modifies this`topics, this`created, this`room, table, table.entries
      ensures ok ==> Valid() && name in topics && topics[name] == t && t.name == name
      ensures topics == old(topics)[name := t]
      ensures if name in old(topics) then ok && t == old(topics)[name] else fresh(t) && fresh(t.list)
      ensures ok ==> State() == M.WithTopic(old(State()), name)
      ensures OnlyFresh()
      ensures table.reliable ==> (ok <==> name in old(topics) || old(CanStore(name)))
      ensures name in expected && old(Roomy()) ==> ok && Roomy()
    {
      hide CanStore, ClientMap, TopicMap, Sound, Listed, Tabled, Roomy;
      var found := FindTopic(name);
      TopicsSame();
      ClientsSame();
      if found != null {
        t, ok := found, true;
        TopicIn(t);
        assert topics == topics[name := t];
      } else {
        t, ok := AddTopic(name);
      }
    }

    /** The lists after an insertion into one. */
    twostate lemma ListedAfter(t: Topic)
      requires old(Listed()) && topics == old(topics) && t in topics.Values && t.Linked()
      requires forall u :: u in topics.Values && u != t ==> u.SameList()
      ensures Listed()
    {
      hide Topic.Linked, Topic.SameList;
      forall u | u in topics.Values ensures u.Linked() {
        if u != t { u.StillLinked(); }
      }
    }

    /** `add_subscriber`: insertion at the head of the list of the topic that the table has under the name. */
    method AddSubscriber(t: Topic, s: M.Subscription)
      requires Valid() && t.name in topics && topics[t.name] == t
      modifies this`nextSub, t`subscribers, t.list
      ensures Valid() && nextSub == old(nextSub) + 1 && t.View() == old(t.View()).(subscribers := [s] + old(t.subscribers))
      ensures State() == old(State()).(topics := old(State()).topics[t.name := t.View()], nextSub := nextSub)
    {
      hide ClientMap, TopicMap, Sound, Tabled, Topic.Linked;
      assert t.Linked();
      var found := FindTopic(t.name);
      nextSub := nextSub + 1;
      found.Insert(s);
      ListedAfter(t);
      TopicChanged(t);
      ClientsSame();
    }

    static lemma MapTwice<K, V>(m: map<K, V>, k: K, a: V, b: V)
      ensures m[k := a][k := b] == m[k := b]
    {
    }

    /** Not `ok` when the topic cannot be stored: `add_subscriber` then follows a null pointer. */
    method SubscribeHandler(c: Client, p: Subscribe, junk: Option<nat>) returns (ok: bool)
      requires Valid() && Knows(c)
      modifies this`topics, this`created, this`room, this`nextSub, this`history, c`reply
      modifies topics.Values, Lists(), table, table.entries
      ensures ok ==> Valid() && State() == M.SubscribeHandler(old(State()), c.fd, p, junk)
      ensures OnlyFresh()
      ensures (p.topicLen > 0 ==> M.Key(p.topic) in expected) && old(Roomy()) ==> ok && Roomy()
    {
      hide ClientMap, TopicMap, Visible, M.SetReply, M.SetAckReply, Sound, Listed, Tabled, Roomy;
      ok := true;
      if p.topicLen == 0 {
        SetAckReply(c, SUBACK, 1, junk);
      } else {
        ok := SubscribeNamed(c, p);
      }
    }

    method SubscribeNamed(c: Client, p: Subscribe) returns (ok: bool)
      requires Valid() && Knows(c) && p.topicLen != 0
      modifies this`topics, this`created, this`room, this`nextSub, this`history, c`reply
      modifies topics.Values, Lists(), table, table.entries
      ensures ok ==> Valid() && State() == M.SubscribeHandler(old(State()), c.fd, p, None)
      ensures OnlyFresh()
      ensures M.Key(p.topic) in expected && old(Roomy()) ==> ok && Roomy()
    {
      hide ClientMap, TopicMap, Visible, M.SetReply, M.SetAckReply, Sound, Listed, Tabled, Roomy, OnlyFresh, CanStore, CanPut;
      ghost var db := State();
      var t;
      t, ok := TopicNamed(Visible(p.topic));
      if !ok { return; }
      TopicIn(t);
      ghost var s := M.Subscription(nextSub, c.fd, p.qos);
      MapTwice(db.topics, t.name, M.TopicAt(db, t.name), t.View().(subscribers := [s] + t.subscribers));
      SubscribeTo(c, t, p.qos);
    }

    /** `reply_suback`, `create_subscription`, `add_subscriber`, and the retained message for the reply. */
    method SubscribeTo(c: Client, t: Topic, qos: byte)
      requires Valid() && Knows(c) && t.name in topics && topics[t.name] == t
      modifies this`nextSub, this`history, c`reply, t`subscribers, t.list
      ensures Valid() && c.fd in old(State()).clients && topics == old(topics)
      ensures
        var db, s := old(State()), M.Subscription(old(nextSub), c.fd, qos);
        var topic := old(t.View()).(subscribers := [s] + old(t.subscribers));
        var db1 := db.(topics := db.topics[t.name := topic], nextSub := db.nextSub + 1);
        State() == M.SetReply(db1, c.fd, M.AckReply(SUBACK, 0, M.PointerTo(old(t.retained))), M.Subscribed(c.fd, s, t.name))
    {
      hide ClientMap, TopicMap, M.SetReply, Sound, Listed, Tabled;
      ClientAt(c);
      var s := M.Subscription(nextSub, c.fd, qos);
      AddSubscriber(t, s);
      SetReply(c, M.AckReply(SUBACK, 0, M.PointerTo(t.retained)), M.Subscribed(c.fd, s, t.name));
    }

    method PingreqHandler(c: Client, junk: Option<nat>)
      requires Valid() && Knows(c)
      modifies this`history, c`reply
      ensures Valid() && State() == M.PingreqHandler(old(State()), c.fd, junk)
    {
      hide Listed, Tabled;
      SetAckReply(c, PINGRESP, 0, junk);
    }

    /** The command table. */
    method Command(c: Client, opcode: byte, req: M.Request, junk: Option<nat>) returns (ok: bool)
      requires Valid() && Knows(c)
      modifies this`topics, this`created, this`room, this`names, this`nextSub, this`history, c`reply, c`name
      modifies topics.Values, Lists(), table, table.entries
      ensures ok ==> Valid() && Knows(c) && State() == M.Command(old(State()), c.fd, opcode, req, junk)
      ensures OnlyFresh()
      ensures RequestNames(req, expected) && old(Roomy()) ==> ok && Roomy()
    {
      hide ClientMap, TopicMap, Sound, Listed, Tabled, Roomy, M.ConnectHandler, M.PublishHandler, M.SubscribeHandler,
        M.PingreqHandler, M.Key;
      ok := true;
      match req {
        case ConnectReq(p) => ConnectHandler(c, p, junk);
        case PublishReq(p) => PublishHandler(c, p);
        case SubscribeReq(p) => ok := SubscribeHandler(c, p, junk);
        case AckReq(_) =>
          if opcode == PINGREQ { PingreqHandler(c, junk); } else { ClientsSame(); TopicsSame(); }
      }
    }

    /** Set the handler and register the descriptor (`mod_epoll`). */
    method Arm(c: Client, h: M.Handler, i: M.Interest)
      requires Valid() && Knows(c)
      modifies c`handler, c`armed
      ensures Valid() && State() == M.Arm(old(State()), c.fd, h, i)
    {
      hide ClientMap, TopicMap, Listed, Tabled, Sound;
      ClientAt(c);
      c.handler, c.armed := h, i;
      ClientChanged(c);
      TopicsSame();
    }

    /** `request_handler`: receive a packet into a ring of its own, unpack it and execute it. `r` is the result that the worker
        ignores; it is not `ok` when a topic could not be stored. */
    method RequestHandler(c: Client, from: InSocket, junk: Option<nat>) returns (r: int, ok: bool)
      requires Valid() && Knows(c) && Deliverable(from.unread)
      modifies from
      modifies this`topics, this`created, this`room, this`names, this`nextSub, this`history, c`name, c`handler, c`armed, c`reply
      modifies topics.Values, Lists(), table, table.entries
      ensures ok ==> Valid() && State() == M.RequestHandler(old(State()), c.fd, old(Packet(from.unread, from.plan)), junk)
      ensures ok ==> (r == -1 <==> Undecoded(old(Packet(from.unread, from.plan))))
      ensures OnlyFresh()
      ensures PacketNames(old(Packet(from.unread, from.plan)), expected) && old(Roomy()) ==> ok && Roomy()
    {
      hide ClientMap, TopicMap, Sound, Listed, Tabled, Roomy, M.UnpackPacket, M.Readable, M.Command, UnBE, Packet, Deliverable,
        EncodesAll, Stream, RequestNames;
      ok := true;
      var b, opcode := Receive(from);
      ClientsSame();
      TopicsSame();
      if b == null {
        ClientAt(c);
        Arm(c, M.OnRequest, M.ArmedIn);
        return 0, true;
      }
      var req := UnpackPacket(b, opcode);
      ClientsSame();
      TopicsSame();
      if req.None? { return -1, true; }
      ok := Command(c, opcode, req.value, junk);
      r := 0;
      if ok { Arm(c, M.OnReply, M.ArmedOut); }
    }

    /** `retain_message`: the previous message of the topic is freed. */
    method RetainMessage(t: Topic, p: Publish)
      requires Valid() && t.name in topics && topics[t.name] == t
      modifies this`messages, this`nextMessage, t`retained
      ensures Valid() && State() == M.RetainMessage(old(State()), t.name, p)
    {
      hide ClientMap, TopicMap, M.MessageOf, Listed, Tabled, Sound;
      TopicIn(t);
      if t.retained.Some? {
        messages := messages - {t.retained.value};
      }
      messages := messages[nextMessage := M.MessageOf(p)];
      t.retained := Some(nextMessage);
      nextMessage := nextMessage + 1;
      ListsSame();
      TopicChanged(t);
      ClientsSame();
    }

    method RetainIfAsked(t: Topic, p: Publish)
      requires Valid() && t.name in topics && topics[t.name] == t
      modifies this`messages, this`nextMessage, t`retained
      ensures Valid() && State() == if p.retain != 0 then M.RetainMessage(old(State()), t.name, p) else old(State())
    {
      hide ClientMap, TopicMap, M.RetainMessage, Sound, Listed, Tabled;
      if p.retain != 0 {
        RetainMessage(t, p);
      } else {
        ClientsSame();
        TopicsSame();
      }
    }

    lemma SubscribersIn(t: Topic)
      requires t.name in topics && topics[t.name] == t && M.SubscribersKnown(State())
      ensures forall s :: s in t.subscribers ==> s.client in clients && s.client in State().clients
    {
      assert State().topics[t.name].subscribers == t.subscribers;
    }

    static lemma KeptClients(db: M.Db, t: M.Name, p: Publish)
      ensures M.RetainMessage(db, t, p).clients == db.clients
    {
    }

    static lemma PublishIs(db: M.Db, kept: M.Db, t: M.Name, sender: int, p: Publish)
      requires t in db.topics && M.SubscribersKnown(db)
      requires kept == if p.retain != 0 then M.RetainMessage(db, t, p) else db
      ensures
        var subs := db.topics[t].subscribers;
        && kept.clients == db.clients && kept.history == db.history
        && (forall s :: s in subs ==> s.client in db.clients)
        && M.PublishMessage(db, t, sender, p) ==
           kept.(clients := M.Deliver(db.clients, subs, sender, p, |subs|), history := db.history + [M.Published(sender, p)])
    {
      hide M.Deliver;
      KeptClients(db, t, p);
    }

    static lemma DeliverNone(clients: map<int, M.Client>, subs: seq<M.Subscription>, sender: int, p: Publish)
      requires forall s :: s in subs ==> s.client in clients
      ensures M.Deliver(clients, subs, sender, p, 0) == clients
    {
    }

    static lemma DeliverOne(clients: map<int, M.Client>, subs: seq<M.Subscription>, sender: int, p: Publish, i: nat)
      requires i < |subs| && forall s :: s in subs ==> s.client in clients
      ensures
        var m, s := M.Deliver(clients, subs, sender, p, i), subs[i];
        M.Deliver(clients, subs, sender, p, i + 1) ==
        m[s.client := m[s.client].(wire := m[s.client].wire + [M.Relayed(s.id, sender, p)])]
    {
    }

    // What goes out.

    /** `sendall` of one frame to one client. */
    method SendFrame(c: Client, b: Buffer, ghost x: M.Sent) returns (rc: int, sent: nat)
      requires Valid() && Knows(c) && b.Valid() && Encodes(x, b.View())
      modifies c`wire, c`log, c.sock
      ensures Valid() && c.fd in old(State()).clients
      ensures
        var client := old(State()).clients[c.fd];
        State() == M.WithClient(old(State()), c.fd, client.(wire := client.wire + [x]))
      ensures sent <= b.size && rc == (if sent == b.size then 0 else -1)
      ensures c.wire == old(c.wire) + [x] && c.log == old(c.log) + [Sending(b.View(), sent)]
    {
      hide ClientMap, TopicMap, Encodes, EncodesAll, Stream, Listed, Tabled, Sound;
      ClientAt(c);
      rc, sent := c.Transmit(b, x);
      ClientChanged(c);
      TopicsSame();
    }

    /** One of `sendall`'s callers that only acknowledges. */
    method SendAck(c: Client, opcode: byte, rc: byte) returns (status: int)
      requires Valid() && Knows(c)
      modifies c`wire, c`log, c.sock
      ensures Valid() && State() == M.Send(old(State()), c.fd, M.AckFrame(opcode, rc))
      ensures SentOwn(c, status)
    {
      hide ClientMap, TopicMap, M.WithClient, Listed, Tabled, Sound, EncodesAll, Stream, Client.Valid;
      var b := PackedAck(AckPkt(opcode, 0, rc));
      ClientsSame();
      TopicsSame();
      var sent;
      status, sent := SendFrame(c, b, M.Direct(M.AckFrame(opcode, rc)));
    }

    /** One more frame of its own was handed to `sendall` for `c`; the status says whether all of it went out. */
    twostate predicate SentOwn(c: Client, status: int)
      reads c
    {
      && |c.log| == |old(c.log)| + 1 && c.log[..|old(c.log)|] == old(c.log)
      && status == if c.log[|old(c.log)|].sent == |c.log[|old(c.log)|].bytes| then 0 else -1
    }

    /** The copy of a retained message that follows a SUBACK. */
    method SendRetained(c: Client, m: M.Message) returns (status: int)
      requires Valid() && Knows(c) && FitsMessage(m)
      modifies c`wire, c`log, c.sock
      ensures Valid() && State() == M.Send(old(State()), c.fd, M.PublishFrame(M.RetainedPkt(m)))
      ensures SentOwn(c, status)
    {
      hide ClientMap, TopicMap, M.WithClient, StrLen, PublishBytes, EncodesAll, Stream, Visible, Listed, Tabled;
      var p := M.RetainedPkt(m);
      var b := PackedPublish(p);
      TopicsSame();
      var sent;
      status, sent := SendFrame(c, b, M.Direct(M.PublishFrame(p)));
    }

    /** One turn of the loop of `publish_message`. */
    method SendCopy(c: Client, b: Buffer, ghost s: M.Subscription, ghost p: Publish, ghost sender: int) returns (sent: nat)
      requires Valid() && Knows(c) && c.fd == s.client && b.Valid() && IsPacked(p, b.View())
      modifies c`wire, c`log, c.sock
      ensures Valid() && sent <= b.size && s.client in old(State()).clients
      ensures
        var m := old(State()).clients;
        State() == old(State()).(clients := m[s.client := m[s.client].(wire := m[s.client].wire + [M.Relayed(s.id, sender, p)])])
      ensures s.client in old(Logs()) && Logs() == old(Logs())[s.client := old(Logs())[s.client] + [Sending(b.View(), sent)]]
    {
      hide ClientMap, TopicMap, IsPacked, EncodesAll, Stream, Listed, Tabled;
      var rc;
      rc, sent := SendFrame(c, b, M.Relayed(s.id, sender, p));
      LogChanged(c);
    }

    lemma ListInOrder(t: Topic, nodes: seq<L.Node>)
      requires Valid() && t in topics.Values && nodes == t.list.nodes
      ensures t.list.head == L.NodeAt(nodes, 0) && |nodes| == |t.subscribers| && L.InOrder(nodes, t.subscribers)
    {
      assert t.Linked();
      L.NodesInOrder(t.list.head, nodes);
    }

    /** The first `|sents|` of the subscribers were sent the frame, and nothing else happened. */
    ghost predicate Underway(d: Batch, sents: seq<nat>, total: nat)
      reads this, clients.Values, topics.Values, Socks(), Lists(), Nodes(), table, table.entries
    {
      && Valid() && |sents| <= |d.subs| && total == Sum(sents) && (forall i :: 0 <= i < |sents| ==> sents[i] <= |d.frame|)
      && (forall s :: s in d.subs ==> s.client in clients && s.client in d.before.clients)
      && State() == d.before.(clients := M.Deliver(d.before.clients, d.subs, d.sender, d.p, |sents|))
      && Copied(d.logs, Logs(), d.frame, d.subs[..|sents|], sents)
    }

    /** One turn of the loop of `publish_message`. */
    method SendNext(b: Buffer, s: M.Subscription, total: nat, ghost sents: seq<nat>, ghost d: Batch, ghost ends: set<object>)
      returns (sum: nat, ghost sums: seq<nat>)
      requires Underway(d, sents, total) && |sents| < |d.subs| && s == d.subs[|sents|]
      requires b.Valid() && b.View() == d.frame && IsPacked(d.p, d.frame) && ends == clients.Values + Socks()
      modifies ends
      ensures Underway(d, sums, sum) && |sums| == |sents| + 1
    {
      hide ClientMap, TopicMap, Logs, M.Deliver, IsPacked, EncodesAll, Stream, CopiesLog, Sound, Listed, Tabled, Copied, Sum;
      ghost var sofar := Logs();
      DeliverOne(d.before.clients, d.subs, d.sender, d.p, |sents|);
      var sent := SendCopy(clients[s.client], b, s, d.p, d.sender);
      CopiedOne(d.logs, sofar, d.frame, d.subs, sents, |sents|, sent);
      SumSnoc(sents, sent);
      sum, sums := total + sent, sents + [sent];
    }

    /** The loop of `publish_message` over the list of subscribers. `ends` is what the sends change. */
    method SendToAll(b: Buffer, head: L.Node?, ghost nodes: seq<L.Node>, ghost d: Batch, ghost ends: set<object>)
      returns (total: nat, ghost sents: seq<nat>)
      requires head == L.NodeAt(nodes, 0) && L.InOrder(nodes, d.subs) && Underway(d, [], 0)
      requires b.Valid() && b.View() == d.frame && IsPacked(d.p, d.frame)
      requires ends == clients.Values + Socks() && {this, b, b.data} !! ends && forall n :: n in nodes ==> n !in ends
      modifies ends
      ensures |sents| == |d.subs| && Underway(d, sents, total)
    {
      assert |nodes| == |d.subs|;
      hide IsPacked, L.InOrder, Underway, Socks;
      var cursor := head;
      total, sents := 0, [];
      while cursor != null
        invariant |sents| <= |d.subs| && cursor == L.NodeAt(nodes, |sents|) && L.InOrder(nodes, d.subs)
        invariant Underway(d, sents, total) && ends == clients.Values + Socks()
        decreases |d.subs| - |sents|
      {
        L.AtNode(nodes, d.subs, |sents|);
        total, sents := SendNext(b, cursor.data, total, sents, d, ends);
        cursor := cursor.next;
      }
    }

    /** Each subscriber is sent `b`; `sents` says how much of it each call got out. */
    method SendCopies(b: Buffer, t: Topic, p: Publish, sender: int) returns (total: nat, ghost sents: seq<nat>)
      requires Valid() && t in topics.Values && b.Valid() && IsPacked(p, b.View())
      requires forall s :: s in t.subscribers ==> s.client in clients && s.client in State().clients
      modifies clients.Values, Socks()
      ensures Valid()
      ensures State() == old(State()).(clients := M.Deliver(old(State()).clients, t.subscribers, sender, p, |t.subscribers|))
      ensures Copied(old(Logs()), Logs(), b.View(), t.subscribers, sents)
      ensures total == Sum(sents) && forall i :: 0 <= i < |sents| ==> sents[i] <= b.size
    {
      hide IsPacked, Sum, Topic.Linked, Valid, State, Logs, M.Deliver, Copied, Underway, L.InOrder;
      ghost var nodes, d := t.list.nodes, Batch(State(), Logs(), b.View(), t.subscribers, sender, p);
      ListInOrder(t, nodes);
      NothingUnderway(d);
      ghost var ends: set<object> := clients.Values + Socks();
      total, sents := SendToAll(b, t.list.head, nodes, d, ends);
      EndUnderway(d, sents, total);
    }

    lemma NothingUnderway(d: Batch)
      requires Valid() && d.before == State() && d.logs == Logs()
      requires forall s :: s in d.subs ==> s.client in clients && s.client in d.before.clients
      ensures Underway(d, [], 0)
    {
      hide Copied, Valid, State, Logs;
      DeliverNone(d.before.clients, d.subs, d.sender, d.p);
      CopiedNone(d.logs, d.frame);
      assert d.subs[..0] == [];
    }

    lemma EndUnderway(d: Batch, sents: seq<nat>, total: nat)
      requires |sents| == |d.subs| && Underway(d, sents, total)
      ensures Valid() && (forall s :: s in d.subs ==> s.client in d.before.clients)
      ensures State() == d.before.(clients := M.Deliver(d.before.clients, d.subs, d.sender, d.p, |d.subs|))
      ensures Copied(d.logs, Logs(), d.frame, d.subs, sents)
      ensures total == Sum(sents) && forall i :: 0 <= i < |sents| ==> sents[i] <= |d.frame|
    {
      hide Copied, Valid, State, Logs;
      assert d.subs[..|sents|] == d.subs;
    }

    /** `publish_message` once the frame is packed into `b`. */
    method Distribute(b: Buffer, t: Topic, p: Publish, sender: int) returns (total: nat, ghost sents: seq<nat>)
      requires Valid() && t.name in topics && topics[t.name] == t && M.SubscribersKnown(State())
      requires b.Valid() && IsPacked(p, b.View())
      modifies this`messages, this`nextMessage, this`history, t`retained, clients.Values, Socks()
      ensures Valid() && State() == M.PublishMessage(old(State()), t.name, sender, p)
      ensures t.subscribers == old(t.subscribers) && Copied(old(Logs()), Logs(), b.View(), t.subscribers, sents)
      ensures total == Sum(sents) && forall i :: 0 <= i < |sents| ==> sents[i] <= b.size
    {
      hide ClientMap, TopicMap, Sound, M.RetainMessage, M.SubscribersKnown, M.Deliver, EncodesAll, Stream, CopiesLog, Sum,
        IsPacked, Logs, Copied, M.PublishMessage, Listed, Tabled;
      ghost var before := State();
      TopicIn(t);
      SubscribersIn(t);
      RetainIfAsked(t, p);
      PublishIs(before, State(), t.name, sender, p);
      total, sents := SendCopies(b, t, p, sender);
      AddEvent(M.Published(sender, p));
    }

    /** `publish_message`: the packed frame is `frame`; `sents` says how much of it each call of `sendall` got out. */
    method PublishMessage(t: Topic, p: Publish, sender: int)
      returns (total: nat, ghost frame: seq<byte>, ghost sents: seq<nat>)
      requires Valid() && t.name in topics && topics[t.name] == t && M.SubscribersKnown(State()) && FitsItself(p)
      modifies this`messages, this`nextMessage, this`history, t`retained, clients.Values, Socks()
      ensures Valid() && State() == M.PublishMessage(old(State()), t.name, sender, p)
      ensures t.subscribers == old(t.subscribers) && IsPacked(p, frame)
      ensures Copied(old(Logs()), Logs(), frame, t.subscribers, sents)
      ensures total == Sum(sents) && forall i :: 0 <= i < |sents| ==> sents[i] <= |frame|
      ensures total == p.header.size * |t.subscribers| <==> forall i :: 0 <= i < |sents| ==> sents[i] == |frame|
    {
      hide ClientMap, TopicMap, Sound, M.PublishMessage, M.SubscribersKnown, EncodesAll, Stream, CopiesLog, Sum, StrLen,
        PublishBytes, Listed, Tabled;
      ClientsSame();
      TopicsSame();
      var b := PackedPublish(p);
      ClientsSame();
      TopicsSame();
      frame := b.View();
      total, sents := Distribute(b, t, p, sender);
      SumIsFull(sents, |frame|);
    }

    /** `free_reply`, and wait for the next request. */
    method Finish(c: Client)
      requires Valid() && Knows(c)
      modifies c`reply, c`handler, c`armed
      ensures Valid() && State() == M.Done(old(State()), c.fd)
    {
      hide ClientMap, TopicMap, M.Arm, Listed, Tabled, Sound;
      ClientAt(c);
      c.reply := None;
      ClientChanged(c);
      TopicsSame();
      Arm(c, M.OnRequest, M.ArmedIn);
    }

    method FinishAnswering(c: Client)
      requires Valid() && Knows(c)
      modifies this`history, c`reply, c`handler, c`armed
      ensures Valid() && State() == M.DoneAnswering(old(State()), c.fd)
    {
      hide ClientMap, TopicMap, Sound, M.Done, Listed, Tabled;
      Finish(c);
      AddEvent(M.Answered(c.fd));
    }

    /** The bad pointer was used: nothing is promised from here on. */
    method Fault()
      requires Valid()
      modifies this`fault
      ensures Valid() && State() == old(State()).(fault := true)
    {
      hide Listed, Tabled;
      fault := true;
      ClientsSame();
      TopicsSame();
    }

    /** How many frames a reply step hands to `sendall` for its own client. */
    static function OwnFrames(reply: Option<M.Reply>): nat {
      match reply
      case None => 0
      case Some(PublishReply(p)) => if p.qos == 1 then 1 else 0
      case Some(AckReply(opcode, _, r)) => if opcode == SUBACK && r != M.Null then 2 else 1
    }

    /** The last `n` sends to `c` got everything out. */
    ghost predicate AllOut(c: Client, n: nat)
      reads c`log
    {
      |c.log| >= n && Complete(c.log[|c.log| - n..])
    }

    /** Find or create the topic, and publish. */
    method ExecutePublish(c: Client, p: Publish) returns (ok: bool)
      requires Valid() && Knows(c) && M.SubscribersKnown(State()) && FitsItself(p)
      modifies this`topics, this`created, this`room, this`messages, this`nextMessage, this`history, clients.Values, Socks()
      modifies topics.Values, table, table.entries
      ensures clients == old(clients) && (ok ==> Valid())
      ensures ok ==> State() == M.PublishMessage(M.WithTopic(old(State()), M.Key(p.topic)), M.Key(p.topic), c.fd, p)
      ensures OnlyFresh()
      ensures M.Key(p.topic) in expected && old(Roomy()) ==> ok && Roomy()
    {
      hide Valid, State, Logs, Roomy, OnlyFresh, CanStore, M.PublishMessage, M.WithTopic, M.SubscribersKnown, Visible, FitsItself,
        Copied, IsPacked, Sum;
      var t;
      t, ok := TopicNamed(Visible(p.topic));
      if ok { var total, frame, sents := PublishMessage(t, p, c.fd); }
    }

    /** `reply_handler`, for a publish. */
    method AnswerPublish(c: Client, p: Publish) returns (ret: int, ok: bool)
      requires Valid() && Knows(c) && M.SubscribersKnown(State()) && c.reply == Some(M.PublishReply(p)) && FitsItself(p)
      modifies this`topics, this`created, this`room, this`messages, this`nextMessage, this`history, clients.Values, Socks()
      modifies topics.Values, table, table.entries
      ensures clients == old(clients) && (ok ==> Valid() && State() == M.ReplyHandler(old(State()), c.fd))
      ensures ok ==> ret == if AllOut(c, OwnFrames(old(c.reply))) then 0 else -1
      ensures OnlyFresh()
      ensures M.Key(p.topic) in expected && old(Roomy()) ==> ok && Roomy()
    {
      hide ClientMap, TopicMap, Sound, Listed, Tabled, Roomy, M.PublishMessage, M.WithTopic, M.Key, M.Send, M.Done,
        M.SubscribersKnown, FitsItself;
      ClientAt(c);
      ret := 0;
      ok := ExecutePublish(c, p);
      if !ok { return; }
      if p.qos == 1 { ret := SendAck(c, PUBACK, 0); }
      Finish(c);
    }

    /** `reply_handler`, for an acknowledgement whose pointer is not used. */
    method AnswerAck(c: Client, opcode: byte, rc: byte, ghost r: M.Pointer) returns (ret: int)
      requires Valid() && Knows(c) && M.SubscribersKnown(State()) && c.reply == Some(M.AckReply(opcode, rc, r))
      requires opcode != SUBACK || r == M.Null
      modifies this`history, c`reply, c`handler, c`armed, c`wire, c`log, c.sock
      ensures Valid() && State() == M.ReplyHandler(old(State()), c.fd)
      ensures ret == if AllOut(c, OwnFrames(old(c.reply))) then 0 else -1
    {
      hide ClientMap, TopicMap, Sound, M.Send, M.DoneAnswering, M.SubscribersKnown, Listed, Tabled;
      ClientAt(c);
      ret := SendAck(c, opcode, rc);
      FinishAnswering(c);
    }

    /** `reply_handler`, for the SUBACK of a subscription with a retained message, or one whose pointer was never set. */
    method AnswerWithRetained(c: Client, rc: byte, r: M.Pointer) returns (ret: int)
      requires Valid() && Knows(c) && M.SubscribersKnown(State()) && c.reply == Some(M.AckReply(SUBACK, rc, r)) && r != M.Null
      requires r.To? && r.message in messages ==> FitsMessage(messages[r.message])
      modifies this`history, this`fault, c`reply, c`handler, c`armed, c`wire, c`log, c.sock
      ensures Valid() && State() == M.ReplyHandler(old(State()), c.fd)
      ensures !fault ==> ret == if AllOut(c, OwnFrames(old(c.reply))) then 0 else -1
    {
      hide ClientMap, TopicMap, Sound, M.Send, M.DoneAnswering, M.SubscribersKnown, FitsMessage, M.RetainedPkt, Listed, Tabled;
      ClientAt(c);
      ret := SendAck(c, SUBACK, rc);
      if r.Wild? || r.message !in messages { Fault(); return; }
      var more := SendRetained(c, messages[r.message]);
      if more == -1 { ret := -1; }
      FinishAnswering(c);
    }

    /** `reply_handler`: -1 is returned when a frame of the client's own did not go out completely. It is not `ok` when a topic
        could not be stored. */
    method ReplyHandler(c: Client) returns (ret: int, ok: bool)
      requires Valid() && Knows(c) && M.SubscribersKnown(State()) && Packable(State())
      modifies this`topics, this`created, this`room, this`messages, this`nextMessage, this`history, this`fault
      modifies clients.Values, Socks(), topics.Values, table, table.entries
      ensures clients == old(clients) && (ok ==> Valid() && State() == M.ReplyHandler(old(State()), c.fd))
      ensures ok && !fault ==> ret == if AllOut(c, OwnFrames(old(c.reply))) then 0 else -1
      ensures OnlyFresh()
      ensures ReplyNames(old(c.reply), expected) && old(Roomy()) ==> ok && Roomy()
    {
      hide ClientMap, TopicMap, M.SubscribersKnown, FitsItself, FitsMessage, Sound, Listed, Tabled, Roomy, M.Key;
      ok := true;
      ClientAt(c);
      if c.reply.None? { ClientsSame(); TopicsSame(); return 0, true; }
      match c.reply.value {
        case PublishReply(p) => hide M.ReplyHandler; ret, ok := AnswerPublish(c, p);
        case AckReply(opcode, rc, retained) =>
          hide M.ReplyHandler;
          if opcode == SUBACK && retained != M.Null {
            ret := AnswerWithRetained(c, rc, retained);
          } else {
            ret := AnswerAck(c, opcode, rc, retained);
          }
      }
    }
  }

  // ----- Any schedule ------------------------------------------------------------------------------

  /** How the bytes of a request reach the broker: the sizes in which they come, and what follows them. */
  datatype Arrival = Arrival(plan: seq<nat>, more: seq<byte>)

  /** The receiving end of a client that sent one packet, or nothing. */
  method Incoming(f: Option<seq<byte>>, a: Arrival) returns (from: InSocket)
    requires (f.Some? ==> M.Readable(f.value)) && !Stalls(a.plan)
    ensures fresh(from) && Deliverable(from.unread) && Packet(from.unread, from.plan) == f
  {
    hide UnBE;
    from := new InSocket(if f.None? then [] else f.value + a.more, a.plan);
    if f.Some? { assert (f.value + a.more)[..|f.value|] == f.value && (f.value + a.more)[1..5] == f.value[1..5]; }
  }

  /** `request_handler` for what a client sent. */
  method HandleRequest(db: SizigyDB, c: Client, f: Option<seq<byte>>, a: Arrival, junk: Option<nat>) returns (ok: bool)
    requires db.Valid() && db.Knows(c) && (f.Some? ==> M.Readable(f.value)) && !Stalls(a.plan)
    modifies db`topics, db`created, db`room, db`names, db`nextSub, db`history, c`name, c`handler, c`armed, c`reply
    modifies db.topics.Values, db.Lists(), db.table, db.table.entries
    ensures ok ==> db.Valid() && M.RequestHandler(old(db.State()), c.fd, f, junk) == db.State()
    ensures db.OnlyFresh()
    ensures PacketNames(f, db.expected) && old(db.Roomy()) ==> ok && db.Roomy()
  {
    hide SizigyDB.ClientMap, SizigyDB.TopicMap, SizigyDB.Sound, SizigyDB.Listed, SizigyDB.Tabled, SizigyDB.Roomy, M.RequestHandler,
      M.Readable, PacketNames;
    var from := Incoming(f, a);
    db.ClientsSame();
    db.TopicsSame();
    var r;
    r, ok := db.RequestHandler(c, from, junk);
  }

  /** A choice of the scheduler that runs no handler. */
  method Schedule(db: SizigyDB, workers: map<nat, M.Work>, s: M.Step) returns (after: map<nat, M.Work>)
    requires db.Valid() && !db.fault && !s.Request? && !s.Answer?
    modifies db`clients, db.clients.Values`handler, db.clients.Values`armed
    ensures db.Valid() && M.World(db.State(), after) == M.Next(M.World(old(db.State()), workers), s)
    ensures forall c :: c in db.clients.Values ==> c in old(db.clients).Values || (fresh(c) && fresh(c.sock))
  {
    hide SizigyDB.ClientMap, SizigyDB.TopicMap, SizigyDB.Sound, SizigyDB.Listed, SizigyDB.Tabled;
    after := workers;
    db.SameClients();
    match s {
      case Accept(fd, name) =>
        if fd !in db.clients {
          var c := db.Accept(fd, name);
        }
      case Dispatch(k, fd) =>
        if k !in workers && fd in db.clients && db.clients[fd].armed != M.Disarmed {
          var c := db.clients[fd];
          db.ClientAt(c);
          after := workers[k := M.Handling(fd, c.handler)];
          db.Arm(c, c.handler, M.Disarmed);
        } else if fd in db.clients {
          db.ClientAt(db.clients[fd]);
        }
      case Return(k) =>
        if k in workers && workers[k].Leaving? {
          after := workers - {k};
        }
      case _ =>
    }
  }

  /** One choice of the scheduler. */
  method TakeStep(db: SizigyDB, workers: map<nat, M.Work>, s: M.Step, a: Arrival) returns (after: map<nat, M.Work>, ok: bool)
    requires db.Valid() && M.SubscribersKnown(db.State()) && Packable(db.State()) && !Stalls(a.plan)
    modifies db, db.clients.Values, db.Socks(), db.topics.Values, db.Lists(), db.table, db.table.entries
    ensures ok ==> db.Valid() && M.World(db.State(), after) == M.Next(M.World(old(db.State()), workers), s)
    ensures forall c :: c in db.clients.Values ==> c in old(db.clients).Values || (fresh(c) && fresh(c.sock))
    ensures db.OnlyFresh()
    ensures StepNames(s, db.expected) && PendingNames(old(db.State()), db.expected) && old(db.Roomy()) ==> ok && db.Roomy()
  {
    hide SizigyDB.ClientMap, SizigyDB.TopicMap, SizigyDB.Sound, SizigyDB.Listed, SizigyDB.Tabled, SizigyDB.Roomy, M.RequestHandler,
      M.ReplyHandler, M.SubscribersKnown, M.Readable, Packable, PacketNames, ReplyNames;
    after, ok := workers, true;
    db.SameClients();
    if db.fault { return; }
    match s {
      case Request(k, f, junk) =>
        if && k in workers && workers[k].Handling? && workers[k].handler == M.OnRequest && workers[k].client in db.clients
           && (f.Some? ==> M.Readable(f.value)) {
          ok := HandleRequest(db, db.clients[workers[k].client], f, a, junk);
          after := workers[k := M.Leaving];
        }
      case Answer(k) =>
        if k in workers && workers[k].Handling? && workers[k].handler == M.OnReply && workers[k].client in db.clients {
          var ret;
          db.ClientAt(db.clients[workers[k].client]);
          ret, ok := db.ReplyHandler(db.clients[workers[k].client]);
          after := workers[k := M.Leaving];
        }
      case _ => after := Schedule(db, workers, s);
    }
  }

  /** Every interleaving of the imperative broker, with its topics in the hash table and their subscribers in lists, however
      the bytes of its requests arrive and whatever its sockets take, is the run of the state machine as long as the table
      can store the topics; so all that BrokerRuns proves of runs holds of it. What a connection has carried there is what was
      handed to `sendall`, frame by frame; the socket holds of each frame the part that went out, and where all of it did, a
      receiver that cuts the bytes by their length fields finds those frames. Until a bad pointer is used, they are the frames
      that are due for the frames served. The table can store all topics when memory is reliable and some size within it spreads
      the names in the frames. */
  method Execute(steps: seq<M.Step>, arrivals: seq<Arrival>, hash: M.Name -> nat, limit: nat, reliable: bool,
                 ghost expected: set<M.Name>, ghost room: nat)
    returns (db: SizigyDB?, workers: map<nat, M.Work>, ok: bool)
    requires |arrivals| == |steps| && forall i :: 0 <= i < |arrivals| ==> !Stalls(arrivals[i].plan)
    ensures ok ==> db != null && db.Valid() && M.World(db.State(), workers) == M.Run(steps)
    ensures ok ==> forall c :: c in db.clients ==> CarriedBytes(db.clients[c])
    ensures ok && !db.fault ==> forall c :: c in db.clients ==> F.Plain(db.clients[c].wire) == F.FramesDue(F.Acts(steps), c)
    ensures reliable && R.SpreadFits(expected, hash, room, limit) && AllStepNames(steps, expected) ==> ok
  {
    hide SizigyDB.Valid, SizigyDB.State, SizigyDB.Roomy, SizigyDB.Socks,
      SizigyDB.Lists, M.Next, M.SubscribersKnown, Packable, CarriedBytes, StepNames, PendingNames;
    ghost var helps := reliable && R.SpreadFits(expected, hash, room, limit) && AllStepNames(steps, expected);
    workers, ok := map[], false;
    db := Start(hash, limit, reliable, expected, room);
    if db == null { return; }
    ok := true;
    for i := 0 to |steps|
      invariant db.Valid() && fresh(db) && fresh(db.clients.Values) && fresh(db.Socks()) && fresh(db.topics.Values)
      invariant fresh(db.Lists()) && fresh(db.table) && fresh(db.table.entries) && db.expected == expected
      invariant M.World(db.State(), workers) == M.Run(steps[..i])
      invariant ok && (helps ==> db.Roomy())
    {
      assert steps[..i + 1][..i] == steps[..i];
      RunKnowsSubscribers(steps[..i]);
      RunIsPackable(steps[..i]);
      if helps { RunKeepsNames(steps[..i], expected); }
      label before: workers, ok := TakeStep(db, workers, steps[i], arrivals[i]);
      if !ok { return; }
      db.SocksFrom@before();
      db.ListsFrom@before();
    }
    assert steps[..|steps|] == steps;
    db.ClientsCarry();
    if !db.fault { FramesCarried(db, steps, workers); }
  }

  /** `hashmap_create` for the topics, and an empty broker. */
  method Start(hash: M.Name -> nat, limit: nat, reliable: bool, ghost expected: set<M.Name>, ghost room: nat)
    returns (db: SizigyDB?)
    ensures db != null ==> fresh(db) && fresh(db.table) && fresh(db.table.entries) && db.Valid() && db.State() == M.EMPTY.db
    ensures db != null ==> db.clients == map[] && db.topics == map[] && db.Socks() == {} && db.Lists() == {}
    ensures db != null ==> db.expected == expected
    ensures reliable && R.SpreadFits(expected, hash, room, limit) ==> db != null && db.Roomy()
  {
    hide G.Spread, G.Settled, P.Wf, P.Contents, P.Unique;
    G.ScaledSteps(H.INITIAL_SIZE, room);
    var table := H.Hashmap<M.Name, nat>.Create(hash, limit, reliable);
    db := null;
    if table != null { db := new SizigyDB(table, expected, room); }
  }

  /** Each client was handed the frames that the frames served make due. */
  lemma FramesCarried(db: SizigyDB, steps: seq<M.Step>, workers: map<nat, M.Work>)
    requires db.Valid() && M.World(db.State(), workers) == M.Run(steps) && !db.fault
    ensures forall c :: c in db.clients ==> F.Plain(db.clients[c].wire) == F.FramesDue(F.Acts(steps), c)
  {
    hide SizigyDB.TopicMap, SizigyDB.Sound, SizigyDB.Listed, SizigyDB.Tabled, M.Run, F.Plain, F.FramesDue, F.Acts;
    forall c | c in db.clients ensures F.Plain(db.clients[c].wire) == F.FramesDue(F.Acts(steps), c) {
      db.ClientAt(db.clients[c]);
      F.ConnectionIsOfFrames(steps, c);
    }
  }

  /** The bytes of a connection and the frames it stands for. */
  ghost predicate CarriedBytes(c: Client)
    reads c, c.sock
  {
    && EncodesAll(c.wire, c.log) && c.sock.wire == Stream(c.log)
    && (Complete(c.log) ==> Cut(c.sock.wire) == Handed(c.log))
  }

  lemma RunKnowsSubscribers(steps: seq<M.Step>)
    ensures M.SubscribersKnown(M.Run(steps).db)
  {
    RunKeeps(steps);
    InvKnowsSubscribers(M.Run(steps).db);
  }
}
