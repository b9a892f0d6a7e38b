/** Runs in which the broker uses a bad pointer, or loses a client. */
module BrokerFailures {
  import opened Options
  import opened Bytes
  import opened Packets
  import opened BrokerModel
  import opened BrokerHistory
  import opened BrokerInvariants
  import opened BrokerSteps
  import opened BrokerRuns
  import opened BrokerService

  // ----- One exchange ------------------------------------------------------------------------------

  /** The client is registered for input and the worker is free. */
  ghost predicate Ready(w: World, k: nat, c: int) {
    !w.db.fault && k !in w.workers && c in w.db.clients && w.db.clients[c].armed == ArmedIn
  }

  lemma ReceiveOne(w: World, k: nat, c: int, f: seq<byte>, junk: Option<nat>)
    requires WorldInv(w) && Ready(w, k, c) && Readable(f) && UnpackPacket(f).Some?
    ensures
      var w1 := Next(w, Dispatch(k, c));
      && w1 == World(Arm(w.db, c, OnRequest, Disarmed), w.workers[k := Handling(c, OnRequest)])
      && var w2 := Next(w1, Request(k, Some(f), junk));
         && w2 == World(RequestHandler(w1.db, c, Some(f), junk), w.workers[k := Leaving])
         && !w2.db.fault && c in w2.db.clients && w2.db.clients[c].armed == ArmedOut && w2.db.clients[c].handler == OnReply
         && OnlyWiresOfOthers(w.db.clients, w2.db.clients, c)
  {
    hide Inv, UnpackPacket, Command;
    var db1 := Arm(w.db, c, OnRequest, Disarmed);
    assert Enabled(w, Dispatch(k, c)) && Phase(w.db.clients[c]) && w.db.clients[c].handler == OnRequest;
    assert OnlyWiresOfOthers(w.db.clients, db1.clients, c);
    var w1 := Next(w, Dispatch(k, c));
    assert w1 == World(db1, w.workers[k := Handling(c, OnRequest)]);
    assert Enabled(w1, Request(k, Some(f), junk));
    assert w.workers[k := Handling(c, OnRequest)][k := Leaving] == w.workers[k := Leaving];
    CommandTouches(db1, c, f[0], UnpackPacket(f).value, junk);
    RequestTouches(db1, c, Some(f), junk);
    TouchesTwice(w.db.clients, db1.clients, RequestHandler(db1, c, Some(f), junk).clients, c);
  }

  lemma ArmTouches(db: Db, c: int, h: Handler, i: Interest)
    requires c in db.clients
    ensures OnlyWiresOfOthers(db.clients, Arm(db, c, h, i).clients, c) && Arm(db, c, h, i).fault == db.fault
  {
  }

  lemma AnswerIsEnabled(w: World, k: nat, c: int)
    requires WorldInv(w) && !w.db.fault && c in w.db.clients && k in w.workers && w.workers[k] == Handling(c, OnReply)
    ensures Enabled(w, Answer(k))
  {
    KnowsSubscribers(w);
  }

  /** A worker takes a request of the client, and then the event that its reply can be written. */
  function Received(w: World, k: nat, c: int, f: seq<byte>, junk: Option<nat>): World {
    Redispatched(Next(Next(w, Dispatch(k, c)), Request(k, Some(f), junk)), k, c)
  }

  lemma ReceivedKeeps(w: World, k: nat, c: int, f: seq<byte>, junk: Option<nat>)
    requires WorldInv(w)
    ensures WorldInv(Received(w, k, c, f, junk))
  {
    hide WorldInv, Next;
    var w2 := Next(Next(w, Dispatch(k, c)), Request(k, Some(f), junk));
    NextKeeps(w, Dispatch(k, c));
    NextKeeps(Next(w, Dispatch(k, c)), Request(k, Some(f), junk));
    NextKeeps(w2, Return(k));
    NextKeeps(Next(w2, Return(k)), Dispatch(k, c));
  }

  /** What such a round leaves, up to the reply step. */
  lemma AfterReceive(w: World, k: nat, c: int, f: seq<byte>, junk: Option<nat>)
    requires WorldInv(w) && Ready(w, k, c) && Readable(f) && UnpackPacket(f).Some?
    ensures
      var next := Received(w, k, c, f, junk);
      && next.db == Arm(RequestHandler(Arm(w.db, c, OnRequest, Disarmed), c, Some(f), junk), c, OnReply, Disarmed)
      && next.workers == w.workers[k := Handling(c, OnReply)]
      && !next.db.fault && OnlyWiresOfOthers(w.db.clients, next.db.clients, c)
  {
    hide Next, WorldInv, Readable, UnpackPacket, RequestHandler, OnlyWiresOfOthers, Arm, Enabled;
    ReceiveOne(w, k, c, f, junk);
    var w2 := Next(Next(w, Dispatch(k, c)), Request(k, Some(f), junk));
    AfterRedispatch(w2, k, c);
    ArmTouches(w2.db, c, OnReply, Disarmed);
    TouchesTwice(w.db.clients, w2.db.clients, Received(w, k, c, f, junk).db.clients, c);
  }

  lemma ReceivedAnswers(w: World, k: nat, c: int, f: seq<byte>, junk: Option<nat>)
    requires WorldInv(w) && Ready(w, k, c) && Readable(f) && UnpackPacket(f).Some?
    ensures Enabled(Received(w, k, c, f, junk), Answer(k))
  {
    ReceivedKeeps(w, k, c, f, junk);
    AfterReceive(w, k, c, f, junk);
    hide Received, WorldInv, Readable, UnpackPacket, RequestHandler, Arm, Enabled;
    TouchesKeys(w.db.clients, Received(w, k, c, f, junk).db.clients, c);
    AnswerIsEnabled(Received(w, k, c, f, junk), k, c);
  }

  lemma TouchesKeys(a: map<int, Client>, b: map<int, Client>, c: int)
    requires OnlyWiresOfOthers(a, b, c)
    ensures a.Keys == b.Keys
  {
  }

  /** And the reply step, and the worker's return. */
  function Exchanged(w: World, k: nat, c: int, f: seq<byte>): World {
    Next(Next(Received(w, k, c, f, None), Answer(k)), Return(k))
  }

  /** A PUBLISH on a topic that asks to be retained. */
  predicate Retaining(f: seq<byte>) {
    Readable(f) && f[0] == PUBLISH && ParsePublish(f).topicLen > 0 && ParsePublish(f).retain != 0
  }

  lemma PublishEvents(db: Db, c: int, f: seq<byte>)
    requires c in db.clients && Retaining(f)
    ensures
      var next := Arm(RequestHandler(Arm(db, c, OnRequest, Disarmed), c, Some(f), None), c, OnReply, Disarmed);
      && c in next.clients && next.clients[c].reply == Some(PublishReply(ParsePublish(f)))
      && next.history == db.history + [Accepted(c, ParsePublish(f))]
  {
    hide ParsePublish;
  }

  /** The reply step of a publish, and the worker's return. */
  lemma PublishOne(w: World, k: nat, c: int, p: Publish)
    requires WorldInv(w) && Enabled(w, Answer(k)) && w.workers[k].client == c && w.db.clients[c].reply == Some(PublishReply(p))
    ensures
      var w2 := Next(Next(w, Answer(k)), Return(k));
      && w2.db.history == w.db.history + [Published(c, p)]
      && w2.workers == w.workers - {k} && WorldInv(w2) && Ready(w2, k, c)
      && OnlyWiresOfOthers(w.db.clients, w2.db.clients, c)
  {
    hide WorldInv, PublishDone, ReplyHandler, SubscribersKnown, OnlyWiresOfOthers;
    NextKeeps(w, Answer(k));
    NextKeeps(Next(w, Answer(k)), Return(k));
    KnowsSubscribers(w);
    PublishIsDone(w.db, c, p);
    PublishTouches(w.db, c, p);
    PublishDoneHistory(w.db, ReplyHandler(w.db, c), c, p);
    TouchesKeys(w.db.clients, ReplyHandler(w.db, c).clients, c);
    assert Next(w, Answer(k)) == World(ReplyHandler(w.db, c), w.workers[k := Leaving]);
    assert w.workers[k := Leaving] - {k} == w.workers - {k};
  }

  lemma PublishDoneHistory(db: Db, db': Db, c: int, p: Publish)
    requires PublishDone(db, db', c, p)
    ensures db'.history == db.history + [Published(c, p)]
  {
  }

  /** A whole exchange with a publisher. */
  lemma AfterPublish(w: World, k: nat, c: int, f: seq<byte>)
    requires WorldInv(w) && Ready(w, k, c) && Retaining(f)
    ensures
      var next, p := Exchanged(w, k, c, f), ParsePublish(f);
      && next.db.history == w.db.history + [Accepted(c, p), Published(c, p)]
      && next.workers == w.workers && WorldInv(next) && Ready(next, k, c)
      && OnlyWiresOfOthers(w.db.clients, next.db.clients, c)
  {
    hide Next, WorldInv, RequestHandler, OnlyWiresOfOthers, Arm, Enabled, ParsePublish, Received, UnBE;
    assert Readable(f) && f[0] == PUBLISH && UnpackPacket(f).Some?;
    hide Readable, Retaining, UnpackPacket;
    var p, w4, next := ParsePublish(f), Received(w, k, c, f, None), Exchanged(w, k, c, f);
    AfterReceive(w, k, c, f, None);
    ReceivedKeeps(w, k, c, f, None);
    ReceivedAnswers(w, k, c, f, None);
    PublishEvents(w.db, c, f);
    PublishOne(w4, k, c, p);
    assert w.workers[k := Handling(c, OnReply)] - {k} == w.workers;
    assert w.db.history + [Accepted(c, p)] + [Published(c, p)] == w.db.history + [Accepted(c, p), Published(c, p)];
    TouchesTwice(w.db.clients, w4.db.clients, next.db.clients, c);
  }

  lemma SubscribeEvents(db: Db, c: int, g: seq<byte>)
    requires c in db.clients && Readable(g) && g[0] == SUBSCRIBE && ParseSubscribe(g).topicLen > 0
    ensures
      var next := Arm(RequestHandler(Arm(db, c, OnRequest, Disarmed), c, Some(g), None), c, OnReply, Disarmed);
      var p := ParseSubscribe(g);
      next.history == db.history + [Subscribed(c, Subscription(db.nextSub, c, p.qos), Key(p.topic))]
  {
    hide ParseSubscribe, Key;
  }

  /** A subscriber's request, up to the reply step. */
  lemma AfterSubscribe(w: World, k: nat, c: int, g: seq<byte>) returns (sub: Subscription)
    requires WorldInv(w) && Ready(w, k, c) && Readable(g) && g[0] == SUBSCRIBE && ParseSubscribe(g).topicLen > 0
    ensures
      var next := Received(w, k, c, g, None);
      && next.db.history == w.db.history + [Subscribed(c, sub, Key(ParseSubscribe(g).topic))]
      && next.workers == w.workers[k := Handling(c, OnReply)]
      && WorldInv(next) && !next.db.fault && OnlyWiresOfOthers(w.db.clients, next.db.clients, c)
  {
    assert UnpackPacket(g).Some? by { hide UnBE, ParseSubscribe, Received, WorldInv; }
    hide Received, WorldInv, RequestHandler, Readable, ParseSubscribe, OnlyWiresOfOthers, UnpackPacket, UnBE, Arm, Key;
    AfterReceive(w, k, c, g, None);
    ReceivedKeeps(w, k, c, g, None);
    ReceivedAnswers(w, k, c, g, None);
    SubscribeEvents(w.db, c, g);
    sub := Subscription(w.db.nextSub, c, ParseSubscribe(g).qos);
  }

  /** A client registered for input stays so while others are served. */
  lemma StaysReady(w: World, next: World, k: nat, c: int, x: int)
    requires Ready(w, k, x) && x != c && OnlyWiresOfOthers(w.db.clients, next.db.clients, c)
    requires !next.db.fault && k !in next.workers
    ensures Ready(next, k, x)
  {
  }

  /** A worker takes a request of the client, and then the event that its reply can be written. */
  function Receive(k: nat, c: int, f: seq<byte>, junk: Option<nat>): seq<Step> {
    [Dispatch(k, c), Request(k, Some(f), junk), Return(k), Dispatch(k, c)]
  }

  function Exchange(k: nat, c: int, f: seq<byte>): seq<Step> {
    Receive(k, c, f, None) + [Answer(k), Return(k)]
  }

  lemma RunReceive(steps: seq<Step>, k: nat, c: int, f: seq<byte>, junk: Option<nat>)
    ensures Run(steps + Receive(k, c, f, junk)) == Received(Run(steps), k, c, f, junk)
  {
    hide Run, Next;
    var two := steps + [Dispatch(k, c), Request(k, Some(f), junk)];
    RunTwo(steps, Dispatch(k, c), Request(k, Some(f), junk));
    RunTwo(two, Return(k), Dispatch(k, c));
    assert two + [Return(k), Dispatch(k, c)] == steps + Receive(k, c, f, junk);
  }

  lemma RunExchange(steps: seq<Step>, k: nat, c: int, f: seq<byte>)
    ensures Run(steps + Exchange(k, c, f)) == Exchanged(Run(steps), k, c, f)
  {
    hide Run, Next, Receive, Received;
    var four := steps + Receive(k, c, f, None);
    RunReceive(steps, k, c, f, None);
    RunTwo(four, Answer(k), Return(k));
    assert four + [Answer(k), Return(k)] == steps + Exchange(k, c, f);
  }

  /** Client 1 has a message retained, client 2 subscribes, client 1 has another retained, and then the reply to client 2
      is sent. */
  function ReplaceWhileWaiting(f: seq<byte>, g: seq<byte>): seq<Step> {
    [Accept(1, []), Accept(2, [])] + Exchange(0, 1, f) + Receive(0, 2, g, None) + Exchange(1, 1, f) + [Answer(0)]
  }

  /** For every PUBLISH to be retained and SUBSCRIBE of the same topic, that run uses the freed message. */
  lemma ReplacingFails(f: seq<byte>, g: seq<byte>)
    requires Retaining(f) && Readable(g) && g[0] == SUBSCRIBE && ParseSubscribe(g).topicLen > 0
    requires Key(ParseSubscribe(g).topic) == Key(ParsePublish(f).topic)
    ensures Run(ReplaceWhileWaiting(f, g)).db.fault
  {
    var s0 := [Accept(1, []), Accept(2, [])];
    var s1 := s0 + Exchange(0, 1, f);
    var s2 := s1 + Receive(0, 2, g, None);
    var s3 := s2 + Exchange(1, 1, f);
    assert ReplaceWhileWaiting(f, g) == s3 + [Answer(0)];
    hide *;
    AfterAccepts(1, 2);
    RunKeeps(s0);
    RunExchange(s0, 0, 1, f);
    RunReceive(s1, 0, 2, g, None);
    RunExchange(s2, 1, 1, f);
    ReplacedWhileWaiting(Run(s0), f, g);
    RetainedReachesSubscriber(s3, 0);
    RunSnoc(s3, Answer(0));
  }

  lemma ReplacedWhileWaiting(w: World, f: seq<byte>, g: seq<byte>)
    requires WorldInv(w) && w.db.history == [] && w.workers == map[] && Ready(w, 0, 1) && Ready(w, 0, 2)
    requires Retaining(f) && Readable(g) && g[0] == SUBSCRIBE && ParseSubscribe(g).topicLen > 0
    requires Key(ParseSubscribe(g).topic) == Key(ParsePublish(f).topic)
    ensures
      var next := Exchanged(Received(Exchanged(w, 0, 1, f), 0, 2, g, None), 1, 1, f);
      Enabled(next, Answer(0)) && 0 in next.workers && next.workers[0] == Handling(2, OnReply) && Doomed(next.db.history, 2)
  {
    hide Exchanged, Received, ParsePublish, ParseSubscribe, Key, UnBE, WorldInv, OnlyWiresOfOthers, Doomed, Enabled;
    var p := ParsePublish(f);
    assert p.retain != 0;
    hide Retaining, Readable;
    var w1 := Exchanged(w, 0, 1, f);
    var w2 := Received(w1, 0, 2, g, None);
    var w3 := Exchanged(w2, 1, 1, f);
    AfterPublish(w, 0, 1, f);
    StaysReady(w, w1, 0, 1, 2);
    var sub := AfterSubscribe(w1, 0, 2, g);
    StaysReady(w1, w2, 1, 2, 1);
    AfterPublish(w2, 1, 1, f);
    var t := Key(p.topic);
    assert w3.db.history == [Accepted(1, p), Published(1, p), Subscribed(2, sub, t), Accepted(1, p), Published(1, p)];
    ReplacedIsDoomed(p, sub, w3.db.history);
    TouchesKeys(w1.db.clients, w2.db.clients, 2);
    TouchesKeys(w2.db.clients, w3.db.clients, 1);
    AnswerIsEnabled(w3, 0, 2);
  }

  lemma AfterAccept(a: int)
    ensures Run([Accept(a, [])]) == World(WithClient(EMPTY.db, a, Client([], OnRequest, ArmedIn, None, [])), map[])
    ensures Ready(Run([Accept(a, [])]), 0, a)
  {
    RunSnoc([], Accept(a, []));
    assert [] + [Accept(a, [])] == [Accept(a, [])];
  }

  lemma AfterAccepts(a: int, b: int)
    requires a != b
    ensures
      var w := Run([Accept(a, []), Accept(b, [])]);
      && w.db.history == [] && w.workers == map[] && Ready(w, 0, a) && Ready(w, 0, b)
  {
    AfterAccept(a);
    RunSnoc([Accept(a, [])], Accept(b, []));
    assert [Accept(a, [])] + [Accept(b, [])] == [Accept(a, []), Accept(b, [])];
  }

  lemma ReplacedIsDoomed(p: Publish, sub: Subscription, h: seq<Event>)
    requires p.retain != 0
    requires h == [Accepted(1, p), Published(1, p), Subscribed(2, sub, Key(p.topic)), Accepted(1, p), Published(1, p)]
    ensures Doomed(h, 2)
  {
    hide Key;
    var t := Key(p.topic);
    assert h[..4] == h[..3] + [h[3]] && h[..3] == h[..2] + [h[2]] && h[..2] == h[..1] + [h[1]] && h[..1] == [] + [h[0]];
    assert LastRequest(h[..3], 2) == Some(2) && LastRequest(h[..4], 2) == Some(2);
    assert Outstanding(h[..1], 2) == 0 && Outstanding(h[..2], 2) == 0 && Outstanding(h[..3], 2) == 1 && Outstanding(h[..4], 2) == 1;
    assert LastRetained(h[..2], t) == Some(p);
    assert Retains(h[4], t);
  }

  /** Client 1 connects and sends one frame. */
  function OneRequest(g: seq<byte>): seq<Step> {
    [Accept(1, []), Dispatch(0, 1), Request(0, Some(g), None)]
  }

  /** For every UNSUBSCRIBE, its client is silent then. */
  lemma UnsubscribeSilences(g: seq<byte>)
    requires Readable(g) && g[0] == UNSUBSCRIBE
    ensures Silent(Run(OneRequest(g)), 1)
  {
    var s1, s2 := [Accept(1, [])], [Accept(1, []), Dispatch(0, 1)];
    AfterAccept(1);
    RunSnoc(s1, Dispatch(0, 1));
    assert s1 + [Dispatch(0, 1)] == s2;
    assert Enabled(Run(s2), Request(0, Some(g), None)) && Run(s2).workers[0].client == 1;
    UnknownOpcodeSilences(s2, 0, Some(g), None);
    RunSnoc(s2, Request(0, Some(g), None));
    assert s2 + [Request(0, Some(g), None)] == OneRequest(g);
  }

  lemma MisdirectedReplies(db: Db, c: int, g: seq<byte>, bits: nat)
    requires c in db.clients && Readable(g) && Misdirected(g, Some(bits))
    ensures
      var next := Arm(RequestHandler(Arm(db, c, OnRequest, Disarmed), c, Some(g), Some(bits)), c, OnReply, Disarmed);
      c in next.clients && next.clients[c].reply == Some(AckReply(SUBACK, 1, Wild(bits)))
  {
    hide RequestHandler, ParseSubscribe;
    SubscribeSets(Arm(db, c, OnRequest, Disarmed), c, g, Some(bits));
  }

  /** Client 1 connects and sends one frame, for whose reply the memory held `bits`; the reply is sent. */
  function OneAnswer(g: seq<byte>, bits: nat): seq<Step> {
    [Accept(1, [])] + Receive(0, 1, g, Some(bits)) + [Answer(0)]
  }

  /** For every SUBSCRIBE without topic, that run uses a pointer that was never set. */
  lemma MisdirectedFails(g: seq<byte>, bits: nat)
    requires Readable(g) && Misdirected(g, Some(bits))
    ensures Run(OneAnswer(g, bits)).db.fault
  {
    var s1 := [Accept(1, [])];
    var w := Run(s1);
    assert UnpackPacket(g).Some? by { hide UnBE, ParseSubscribe, Receive, Run; }
    AfterAccept(1);
    hide Received, WorldInv, RequestHandler, Readable, ParseSubscribe, Enabled, OnlyWiresOfOthers, UnpackPacket, Receive,
      Misdirected, ReplyHandler, Arm, UnBE, Run;
    RunKeeps(s1);
    RunReceive(s1, 0, 1, g, Some(bits));
    AfterReceive(w, 0, 1, g, Some(bits));
    ReceivedKeeps(w, 0, 1, g, Some(bits));
    ReceivedAnswers(w, 0, 1, g, Some(bits));
    var w2 := Received(w, 0, 1, g, Some(bits));
    MisdirectedReplies(w.db, 1, g, bits);
    KnowsSubscribers(w2);
    AnswerStep(w2.db, 1);
    RunSnoc(s1 + Receive(0, 1, g, Some(bits)), Answer(0));
  }

  lemma SmallNumbers(b: byte)
    ensures UnBE([0, b]) == b && UnBE([0, 0, 0, b]) == b
  {
    var s4: seq<byte> := [0, 0, 0, b];
    var s3: seq<byte> := [0, 0, 0];
    var s2: seq<byte> := [0, 0];
    var s1: seq<byte> := [0];
    var t2: seq<byte> := [0, b];
    assert s4[..3] == s3 && s3[..2] == s2 && s2[..1] == s1 && t2[..1] == s1;
    assert UnBE(s1) == 0 && UnBE(s2) == 0 && UnBE(s3) == 0;
  }

  // Frames that those runs speak of: topics are "a" or empty, messages empty.

  lemma APublish() returns (f: seq<byte>)
    ensures Retaining(f) && ParsePublish(f).topic == [97]
  {
    f := [PUBLISH, 0, 0, 0, 15, 0, 1, 0, 0, 0, 0, 0, 1, 0, 97];
    SmallNumbers(15);
    SmallNumbers(0);
    SmallNumbers(1);
    hide UnBE;
    var size: seq<byte> := [0, 0, 0, 15];
    var one: seq<byte> := [0, 1];
    var zero: seq<byte> := [0, 0, 0, 0];
    var a: seq<byte> := [97];
    assert f[1..5] == size;
    assert f[5..7] == one;
    assert f[7..11] == zero;
    assert f[14..15] == a;
  }

  lemma ASubscribe(topic: seq<byte>) returns (g: seq<byte>)
    requires |topic| <= 1
    ensures Readable(g) && g[0] == SUBSCRIBE && ParseSubscribe(g).topicLen == |topic| && ParseSubscribe(g).topic == topic
  {
    g := [SUBSCRIBE, 0, 0, 0, 8 + |topic|, 0, |topic|, 0] + topic;
    SmallNumbers(8 + |topic|);
    SmallNumbers(|topic|);
    hide UnBE;
    var size: seq<byte> := [0, 0, 0, 8 + |topic|];
    var len: seq<byte> := [0, |topic|];
    assert g[1..5] == size;
    assert g[5..7] == len;
    assert g[8..8 + |topic|] == topic;
  }

  lemma AnUnsubscribe() returns (u: seq<byte>)
    ensures Readable(u) && u[0] == UNSUBSCRIBE
  {
    u := [UNSUBSCRIBE, 0, 0, 0, 8, 0, 1, 97];
    SmallNumbers(8);
    hide UnBE;
    var size: seq<byte> := [0, 0, 0, 8];
    assert u[1..5] == size;
  }

  /** Both failures of the broker and the loss of a client do happen. */
  lemma BrokerCanFail()
    ensures exists f, g :: Run(ReplaceWhileWaiting(f, g)).db.fault
    ensures exists g, bits :: Run(OneAnswer(g, bits)).db.fault
    ensures exists u :: Silent(Run(OneRequest(u)), 1)
  {
    hide Run, Silent, ReplaceWhileWaiting, OneAnswer, OneRequest, Readable, Retaining, ParsePublish, ParseSubscribe;
    var f := APublish();
    var g := ASubscribe([97]);
    ReplacingFails(f, g);
    var m := ASubscribe([]);
    MisdirectedFails(m, 1);
    var u := AnUnsubscribe();
    UnsubscribeSilences(u);
  }
}
