/** Which requests are the last that their client is served, in every interleaving. */
module BrokerService {
  import opened Options
  import opened Bytes
  import opened Packets
  import opened BrokerModel
  import opened BrokerHistory
  import opened BrokerInvariants
  import opened BrokerSteps
  import opened BrokerRuns

  // ----- Silent clients ----------------------------------------------------------------------------

  /** The client's descriptor is registered for nothing and no handler will register it. */
  ghost predicate Silent(w: World, c: int) {
    c in w.db.clients && w.db.clients[c].armed == Disarmed && forall k :: !Runs(w, k, c)
  }

  lemma StaysUnhandled(w: World, s: Step, c: int)
    requires Enabled(w, s) && Silent(w, c)
    ensures forall k :: !Runs(Next(w, s), k, c)
  {
    hide RequestHandler, ReplyHandler, Readable, SubscribersKnown, Arm, WithClient;
    forall k ensures !Runs(Next(w, s), k, c) { assert !Runs(w, k, c); }
  }

  lemma StaysDisarmed(w: World, s: Step, c: int)
    requires WorldInv(w) && Enabled(w, s) && Silent(w, c)
    ensures c in Next(w, s).db.clients && Next(w, s).db.clients[c].armed == Disarmed
  {
    hide Inv, RequestHandler, ReplyHandler, Readable;
    match s
    case Request(k, f, junk) =>
      assert Runs(w, k, w.workers[k].client);
      RequestTouches(w.db, w.workers[k].client, f, junk);
    case Answer(k) =>
      assert Runs(w, k, w.workers[k].client);
      ReplyTouches(w.db, w.workers[k].client);
    case _ =>
  }

  lemma StaysSilent(w: World, s: Step, c: int)
    requires WorldInv(w) && Silent(w, c)
    ensures Silent(Next(w, s), c)
  {
    if Enabled(w, s) {
      StaysUnhandled(w, s, c);
      StaysDisarmed(w, s, c);
      hide Inv, WorldInv, Next, Enabled;
    }
  }

  /** A silent client stays silent. */
  lemma {:induction false} SilentForever(steps: seq<Step>, more: seq<Step>, c: int)
    requires Silent(Run(steps), c)
    ensures Silent(Run(steps + more), c)
  {
    hide Silent, WorldInv, Next;
    if more == [] {
      assert steps + more == steps;
    } else {
      var front := steps + more[..|more| - 1];
      SilentForever(steps, more[..|more| - 1], c);
      assert (steps + more)[..|steps + more| - 1] == front;
      RunKeeps(front);
      StaysSilent(Run(front), more[|more| - 1], c);
    }
  }

  /** In every run, a request silences its client at once exactly when its opcode is none that is unpacked;
      UNSUBSCRIBE and DISCONNECT are among those. */
  lemma UnknownOpcodeSilences(steps: seq<Step>, k: nat, f: Option<seq<byte>>, junk: Option<nat>)
    requires Enabled(Run(steps), Request(k, f, junk))
    ensures
      var c := Run(steps).workers[k].client;
      Silent(Next(Run(steps), Request(k, f, junk)), c) <==>
        f.Some? && f.value[0] !in {CONNECT, SUBSCRIBE, PUBLISH, SUBACK, PUBACK, PINGREQ}
  {
    RunKeeps(steps);
    var w := Run(steps);
    var c := w.workers[k].client;
    assert Runs(w, k, c);
    RequestHandlerArms(w.db, c, f, junk);
    assert forall l :: !Runs(Next(w, Request(k, f, junk)), l, c) by {
      assert forall l :: Runs(Next(w, Request(k, f, junk)), l, c) ==> Runs(w, l, c) && l != k;
    }
  }

  lemma RequestHandlerArms(db: Db, c: int, f: Option<seq<byte>>, junk: Option<nat>)
    requires c in db.clients && (f.Some? ==> Readable(f.value)) && db.clients[c].armed == Disarmed
    ensures
      var db' := RequestHandler(db, c, f, junk);
      && c in db'.clients
      && (db'.clients[c].armed == Disarmed <==> f.Some? && UnpackPacket(f.value).None?)
  {
    hide Command, UnpackPacket;
    if f.Some? && UnpackPacket(f.value).Some? {
      CommandTouches(db, c, f.value[0], UnpackPacket(f.value).value, junk);
    }
  }

  /** The pending reply cannot be sent: there is none, or its pointer is bad. */
  ghost predicate Unsendable(db: Db, c: int)
    requires c in db.clients
  {
    match db.clients[c].reply
    case None => true
    case Some(PublishReply(_)) => false
    case Some(AckReply(opcode, _, r)) => !Usable(db, opcode, r)
  }

  /** In every run, a reply step silences its client exactly when the pending reply cannot be sent. */
  lemma UnsendableSilences(steps: seq<Step>, k: nat)
    requires Enabled(Run(steps), Answer(k))
    ensures
      var w, c := Run(steps), Run(steps).workers[k].client;
      Silent(Next(w, Answer(k)), c) <==> Unsendable(w.db, c)
  {
    RunKeeps(steps);
    var w := Run(steps);
    var c := w.workers[k].client;
    assert Runs(w, k, c);
    ReplyHandlerArms(w.db, c);
    assert forall l :: !Runs(Next(w, Answer(k)), l, c) by {
      assert forall l :: Runs(Next(w, Answer(k)), l, c) ==> Runs(w, l, c) && l != k;
    }
  }

  lemma ReplyHandlerArms(db: Db, c: int)
    requires c in db.clients && SubscribersKnown(db) && db.clients[c].armed == Disarmed
    ensures
      var next := ReplyHandler(db, c);
      && c in next.clients
      && (next.clients[c].armed == Disarmed <==> Unsendable(db, c))
      && (!Unsendable(db, c) ==> next.clients[c].armed == ArmedIn && next.clients[c].handler == OnRequest && next.fault == db.fault)
  {
    match db.clients[c].reply
    case None =>
    case Some(PublishReply(p)) => PublishTouches(db, c, p);
    case Some(AckReply(_, _, _)) => hide RetainedPkt, Deliver;
  }

  // ----- Never served again --------------------------------------------------------------------------

  /** The scheduler may hand a request of the client to its handler. */
  ghost predicate Serves(w: World, s: Step, c: int) {
    s.Request? && Enabled(w, s) && w.workers[s.worker].client == c
  }

  /** Some continuation of the run serves a request of the client. */
  ghost predicate ServedAgain(steps: seq<Step>, c: int) {
    exists more: seq<Step>, s: Step :: Serves(Run(steps + more), s, c)
  }

  /** No request of the client is served from here on: the broker has failed, or nothing will register the client for
      input. A handler without a reply to send returns before it does, and a pointer that was never set leads nowhere. */
  ghost predicate Abandoned(w: World, c: int) {
    w.db.fault || Silent(w, c) || (c in w.db.clients && w.db.clients[c].handler == OnReply && Hopeless(w.db.clients[c].reply))
  }

  predicate Hopeless(reply: Option<Reply>) {
    match reply
    case None => true
    case Some(PublishReply(_)) => false
    case Some(AckReply(opcode, _, r)) => opcode == SUBACK && r.Wild?
  }

  lemma AbandonedIsNotServed(w: World, s: Step, c: int)
    requires WorldInv(w) && Abandoned(w, c)
    ensures !Serves(w, s, c)
  {
    hide Inv, Phase;
    if s.Request? && Enabled(w, s) { assert Runs(w, s.worker, w.workers[s.worker].client); }
  }

  lemma StaysAbandoned(w: World, s: Step, c: int)
    requires WorldInv(w) && Abandoned(w, c)
    ensures Abandoned(Next(w, s), c)
  {
    hide Inv, RequestHandler, ReplyHandler, Readable, Silent, Phase;
    if Enabled(w, s) && !Silent(w, c) {
      match s
      case Request(k, f, junk) =>
        assert Runs(w, k, w.workers[k].client);
        OthersRequest(w, k, f, junk, c);
      case Answer(k) =>
        assert Runs(w, k, w.workers[k].client);
        if w.workers[k].client == c { NothingToAnswer(w.db, c); } else { ReplyTouches(w.db, w.workers[k].client); }
      case _ =>
    } else {
      StaysSilentOrFailed(w, s, c);
    }
  }

  lemma StaysSilentOrFailed(w: World, s: Step, c: int)
    requires WorldInv(w) && Abandoned(w, c) && (Enabled(w, s) ==> Silent(w, c))
    ensures Abandoned(Next(w, s), c)
  {
    if Silent(w, c) { StaysSilent(w, s, c); }
    hide WorldInv, Silent;
  }

  lemma OthersRequest(w: World, k: nat, f: Option<seq<byte>>, junk: Option<nat>, c: int)
    requires WorldInv(w) && Enabled(w, Request(k, f, junk)) && c in w.db.clients && w.db.clients[c].handler == OnReply
    ensures c in Next(w, Request(k, f, junk)).db.clients
    ensures Next(w, Request(k, f, junk)).db.clients[c] == w.db.clients[c].(wire := Next(w, Request(k, f, junk)).db.clients[c].wire)
  {
    hide Inv, RequestHandler, Readable;
    assert Runs(w, k, w.workers[k].client);
    RequestTouches(w.db, w.workers[k].client, f, junk);
  }

  lemma NothingToAnswer(db: Db, c: int)
    requires c in db.clients && SubscribersKnown(db)
    requires Hopeless(db.clients[c].reply)
    ensures ReplyHandler(db, c).fault || ReplyHandler(db, c) == db
  {
  }

  lemma {:induction false} AbandonedForever(steps: seq<Step>, more: seq<Step>, c: int)
    requires Abandoned(Run(steps), c)
    ensures Abandoned(Run(steps + more), c)
  {
    hide Abandoned, WorldInv, Next;
    if more == [] {
      assert steps + more == steps;
    } else {
      var front := steps + more[..|more| - 1];
      AbandonedForever(steps, more[..|more| - 1], c);
      assert (steps + more)[..|steps + more| - 1] == front;
      RunKeeps(front);
      StaysAbandoned(Run(front), more[|more| - 1], c);
    }
  }

  // ----- What a request leaves -----------------------------------------------------------------------

  /** The requests that set no reply: a PUBLISH without topic, and acknowledgements. */
  predicate Unanswered(f: seq<byte>)
    requires Readable(f)
  {
    (f[0] == PUBLISH && ParsePublish(f).topicLen == 0) || f[0] == SUBACK || f[0] == PUBACK
  }

  /** The requests whose SUBACK has a pointer that nothing sets, and the memory for it was not NULL. */
  predicate Misdirected(f: seq<byte>, junk: Option<nat>)
    requires Readable(f)
  {
    f[0] == SUBSCRIBE && ParseSubscribe(f).topicLen == 0 && junk.Some?
  }

  lemma ConnectReplies(db: Db, c: int, p: Connect, junk: Option<nat>)
    requires c in db.clients
    ensures
      var next := ConnectHandler(db, c, p, junk);
      && c in next.clients && next.clients[c].reply.Some?
      && next.clients[c].reply.value.AckReply? && next.clients[c].reply.value.opcode == CONNACK
  {
    hide Visible, SetAckReply;
    if p.idlen != 0 && p.cleanSession == 1 {
      var client, name := db.clients[c], Visible(p.id);
      SetAckReplies(WithClient(db.(names := (db.names - {client.name})[name := c]), c, client.(name := name)), c, CONNACK, 0, junk);
    } else {
      SetAckReplies(db, c, CONNACK, 1, junk);
      SetAckReplies(db.(names := db.names[db.clients[c].name := c]), c, CONNACK, 0, junk);
    }
  }

  lemma SetAckReplies(db: Db, c: int, opcode: byte, rc: byte, junk: Option<nat>)
    requires c in db.clients
    ensures c in SetAckReply(db, c, opcode, rc, junk).clients
    ensures SetAckReply(db, c, opcode, rc, junk).clients[c].reply == Some(AckReply(opcode, rc, Uninitialised(junk)))
  {
  }

  /** The reply that a command leaves. */
  lemma CommandReplies(db: Db, c: int, f: seq<byte>, junk: Option<nat>)
    requires c in db.clients && db.clients[c].reply.None? && Readable(f) && UnpackPacket(f).Some?
    ensures
      var next := Command(db, c, f[0], UnpackPacket(f).value, junk);
      && c in next.clients
      && (next.clients[c].reply.None? <==> Unanswered(f))
      && (f[0] != SUBSCRIBE && next.clients[c].reply.Some? && next.clients[c].reply.value.AckReply? ==>
            next.clients[c].reply.value.opcode != SUBACK)
  {
    hide Key, ParsePublish, ParseConnect, ParseAck, ParseSubscribe, ConnectHandler, TopicAt, SetAckReply, UnBE, Visible;
    match UnpackPacket(f).value
    case ConnectReq(p) => ConnectReplies(db, c, p, junk);
    case PublishReq(p) =>
    case SubscribeReq(p) => SetAckReplies(db, c, SUBACK, 1, junk);
    case AckReq(_) => SetAckReplies(db, c, PINGRESP, 0, junk);
  }

  /** A SUBSCRIBE's reply can be sent unless it has a pointer that nothing set. */
  lemma SubscribeReplies(db: Db, c: int, f: seq<byte>, junk: Option<nat>)
    requires Inv(db) && c in db.clients && Readable(f) && f[0] == SUBSCRIBE
    ensures
      var next := RequestHandler(db, c, Some(f), junk);
      && c in next.clients
      && (Misdirected(f, junk) ==> next.clients[c].reply == Some(AckReply(SUBACK, 1, Wild(junk.value))))
      && (Unsendable(next, c) <==> Misdirected(f, junk))
  {
    var t := Key(ParseSubscribe(f).topic);
    assert TopicInv(db, t);
    if TopicAt(db, t).retained.Some? { RetainedIsKept(db, t); }
    SubscribeSets(db, c, f, junk);
    hide Inv, Key, UnBE, TopicInv, RequestHandler, ParseSubscribe;
  }

  /** What is pending after a request that was unpacked. */
  lemma ReplyAfterRequest(db: Db, c: int, f: seq<byte>, junk: Option<nat>)
    requires Inv(db) && c in db.clients && db.clients[c].reply.None? && Readable(f) && UnpackPacket(f).Some?
    ensures
      var next := RequestHandler(db, c, Some(f), junk);
      && next.clients.Keys == db.clients.Keys && next.fault == db.fault
      && next.clients[c].handler == OnReply && next.clients[c].armed == ArmedOut
      && (next.clients[c].reply.None? <==> Unanswered(f))
      && (Misdirected(f, junk) ==> next.clients[c].reply == Some(AckReply(SUBACK, 1, Wild(junk.value))))
      && (Unsendable(next, c) <==> Unanswered(f) || Misdirected(f, junk))
  {
    hide Inv, Command, UnpackPacket, ParseSubscribe, ParsePublish;
    CommandTouches(db, c, f[0], UnpackPacket(f).value, junk);
    CommandReplies(db, c, f, junk);
    if f[0] == SUBSCRIBE { SubscribeReplies(db, c, f, junk); }
  }

  // ----- One round of a worker -----------------------------------------------------------------------

  lemma RunSnoc(steps: seq<Step>, s: Step)
    ensures Run(steps + [s]) == Next(Run(steps), s)
  {
    assert (steps + [s])[..|steps + [s]| - 1] == steps;
  }

  /** The worker returns and is given the client's next ready event. */
  function Redispatched(w: World, k: nat, c: int): World {
    Next(Next(w, Return(k)), Dispatch(k, c))
  }

  lemma AfterRedispatch(w: World, k: nat, c: int)
    requires !w.db.fault && k in w.workers && w.workers[k].Leaving? && c in w.db.clients && w.db.clients[c].armed != Disarmed
    ensures
      var h := w.db.clients[c].handler;
      Redispatched(w, k, c) == World(Arm(w.db, c, h, Disarmed), w.workers[k := Handling(c, h)])
  {
    hide Arm;
    assert (w.workers - {k})[k := Handling(c, w.db.clients[c].handler)] == w.workers[k := Handling(c, w.db.clients[c].handler)];
  }

  lemma RunTwo(steps: seq<Step>, s: Step, t: Step)
    ensures Run(steps + [s, t]) == Next(Next(Run(steps), s), t)
  {
    hide Run, Next;
    RunSnoc(steps, s);
    RunSnoc(steps + [s], t);
    assert steps + [s] + [t] == steps + [s, t];
  }

  /** After a worker has left a client that waits for input, the client's next request can be served. */
  lemma WaitingIsServed(steps: seq<Step>, k: nat, c: int)
    requires
      var w := Run(steps);
      && !w.db.fault && k in w.workers && w.workers[k].Leaving?
      && c in w.db.clients && w.db.clients[c].armed == ArmedIn && w.db.clients[c].handler == OnRequest
    ensures ServedAgain(steps, c)
  {
    AfterRedispatch(Run(steps), k, c);
    RunTwo(steps, Return(k), Dispatch(k, c));
    assert Serves(Run(steps + [Return(k), Dispatch(k, c)]), Request(k, None, None), c);
  }

  /** So can it after a reply that can be sent. */
  lemma SendableIsServed(steps: seq<Step>, k: nat, c: int)
    requires
      var w := Run(steps);
      && !w.db.fault && k in w.workers && w.workers[k].Leaving?
      && c in w.db.clients && w.db.clients[c].armed == ArmedOut && w.db.clients[c].handler == OnReply && !Unsendable(w.db, c)
    ensures ServedAgain(steps, c)
  {
    hide WorldInv;
    var more := [Return(k), Dispatch(k, c)];
    AfterRedispatch(Run(steps), k, c);
    RunTwo(steps, Return(k), Dispatch(k, c));
    var w := Run(steps + more);
    RunKeeps(steps + more);
    KnowsSubscribers(w);
    assert Enabled(w, Answer(k)) && w.db.clients[c].reply == Run(steps).db.clients[c].reply && !Unsendable(w.db, c);
    ReplyHandlerArms(w.db, c);
    RunSnoc(steps + more, Answer(k));
    assert steps + more + [Answer(k)] == steps + (more + [Answer(k)]);
    WaitingIsServed(steps + (more + [Answer(k)]), k, c);
    ServedLater(steps, more + [Answer(k)], c);
  }

  lemma KnowsSubscribers(w: World)
    requires WorldInv(w)
    ensures SubscribersKnown(w.db)
  {
    InvKnowsSubscribers(w.db);
  }

  lemma ServedLater(steps: seq<Step>, more: seq<Step>, c: int)
    requires ServedAgain(steps + more, c)
    ensures ServedAgain(steps, c)
  {
    hide Serves;
    var rest, s :| Serves(Run(steps + more + rest), s, c);
    assert steps + more + rest == steps + (more + rest);
  }

  /** In every run, for every packet or none: after the request, some continuation serves a request of the client again
      exactly when there was no packet, or its opcode is one that is unpacked, it sets a reply, and it is not a SUBSCRIBE
      without topic whose reply's memory held a pointer. */
  lemma ServedAgainIff(steps: seq<Step>, k: nat, f: Option<seq<byte>>, junk: Option<nat>)
    requires Enabled(Run(steps), Request(k, f, junk))
    ensures
      var c := Run(steps).workers[k].client;
      ServedAgain(steps + [Request(k, f, junk)], c) <==>
        || f.None?
        || (&& f.value[0] in {CONNECT, SUBSCRIBE, PUBLISH, SUBACK, PUBACK, PINGREQ}
            && !Unanswered(f.value) && !Misdirected(f.value, junk))
  {
    var w := Run(steps);
    var c := w.workers[k].client;
    RunKeeps(steps);
    assert Runs(w, k, c);
    RunSnoc(steps, Request(k, f, junk));
    var after := steps + [Request(k, f, junk)];
    if f.None? {
      WaitingIsServed(after, k, c);
    } else if UnpackPacket(f.value).None? {
      UnknownOpcodeSilences(steps, k, f, junk);
      NotServed(after, c);
    } else {
      hide Inv, Silent, RequestHandler, Readable, UnpackPacket;
      ReplyAfterRequest(w.db, c, f.value, junk);
      if Unanswered(f.value) || Misdirected(f.value, junk) { NotServed(after, c); } else { SendableIsServed(after, k, c); }
    }
  }

  lemma NotServed(steps: seq<Step>, c: int)
    requires Abandoned(Run(steps), c)
    ensures !ServedAgain(steps, c)
  {
    hide Abandoned, Serves, WorldInv;
    forall more: seq<Step>, s: Step ensures !Serves(Run(steps + more), s, c) {
      AbandonedForever(steps, more, c);
      RunKeeps(steps + more);
      AbandonedIsNotServed(Run(steps + more), s, c);
    }
  }
}
