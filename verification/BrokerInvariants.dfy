/** What every step of the broker keeps: state and history agree. */
module BrokerInvariants {
  import opened Options
  import opened Bytes
  import opened Packets
  import opened BrokerModel
  import opened BrokerHistory

  // ----- The invariant ---------------------------------------------------------------------------

  /** A connection has carried exactly what its client's subscriptions were due. */
  ghost predicate Owed(wire: seq<Sent>, h: seq<Event>, c: int) {
    && (forall sub: nat :: SentFor(wire, sub) == if SubInfo(h, sub).Some? && SubInfo(h, sub).value.0 == c then DueTo(h, sub) else [])
    && RelayedOn(wire) == DueToClient(h, c)
  }

  function PendingPublish(r: Option<Reply>): seq<Publish> {
    match r
    case Some(PublishReply(p)) => [p]
    case _ => []
  }

  /** The pending reply is the one reply set and not sent. */
  ghost predicate Accounted(r: Option<Reply>, h: seq<Event>, c: int) {
    && Outstanding(h, c) == (if r.Some? then 1 else 0)
    && AcceptedFrom(h, c) == PublishedBy(h, c) + PendingPublish(r)
  }

  ghost predicate TopicInv(db: Db, t: Name) {
    var topic := TopicAt(db, t);
    && topic.subscribers == SubsOf(db.history, t)
    && match topic.retained
       case None => LastRetained(db.history, t).None?
       case Some(i) => && i < db.nextMessage && i in db.messages && LastRetained(db.history, t).Some?
                       && db.messages[i] == MessageOf(LastRetained(db.history, t).value)
  }

  ghost predicate RetainedApart(db: Db) {
    forall t, u {:trigger TopicAt(db, t), TopicAt(db, u)} ::
      t != u && TopicAt(db, t).retained.Some? ==> TopicAt(db, t).retained != TopicAt(db, u).retained
  }

  /** A pending reply answers the client's last request. The pointer of a successful SUBSCRIBE's points to a message when
      one was retained then: the topic's retained message, or one freed by a later publish. Other pointers are as they came. */
  ghost predicate PointerInv(db: Db, c: int)
    requires c in db.clients
  {
    var h, k := db.history, LastRequest(db.history, c);
    match db.clients[c].reply
    case None => true
    case Some(PublishReply(p)) => k.Some? && h[k.value] == Accepted(c, p)
    case Some(AckReply(opcode, rc, r)) =>
      && k.Some?
      && match h[k.value]
         case Answering(_, o, x, junk) => o == opcode && x == rc && r == Uninitialised(junk)
         case Subscribed(_, _, t) =>
           && opcode == SUBACK && rc == 0 && !r.Wild? && (r.To? <==> LastRetained(h[..k.value], t).Some?)
           && (r.To? ==>
                 && r.message < db.nextMessage
                 && if RetainedSince(h, t, k.value) then r.message !in db.messages else TopicAt(db, t).retained == Some(r.message))
         case _ => false
  }

  /** Until a bad pointer is used, each connection has carried exactly what the history says. */
  ghost predicate WireInv(db: Db, c: int)
    requires c in db.clients
  {
    !db.fault ==> db.clients[c].wire == Carried(db.history, c)
  }

  ghost predicate ClientInv(db: Db, c: int)
    requires c in db.clients
  {
    && Owed(db.clients[c].wire, db.history, c)
    && Accounted(db.clients[c].reply, db.history, c)
    && PointerInv(db, c)
    && WireInv(db, c)
  }

  ghost predicate Inv(db: Db) {
    && Numbered(db.history, db.nextSub)
    && (forall i {:trigger db.history[i]} :: 0 <= i < |db.history| ==> db.history[i].client in db.clients)
    && (forall t: Name :: TopicInv(db, t))
    && RetainedApart(db)
    && (forall c :: c in db.clients ==> ClientInv(db, c))
  }

  // ----- One event, one connection ---------------------------------------------------------------

  lemma OwedDirect(wire: seq<Sent>, h: seq<Event>, c: int, f: Frame)
    requires Owed(wire, h, c)
    ensures Owed(wire + [Direct(f)], h, c)
  {
  }

  lemma OwedQuiet(wire: seq<Sent>, h: seq<Event>, e: Event, c: int, next: nat)
    requires Owed(wire, h, c) && !e.Published?
    requires Numbered(h, next) && (e.Subscribed? ==> e.sub.id >= next)
    ensures Owed(wire, h + [e], c)
  {
    Snoc(h, e);
    forall sub: nat
      ensures SentFor(wire, sub) ==
              if SubInfo(h + [e], sub).Some? && SubInfo(h + [e], sub).value.0 == c then DueTo(h + [e], sub) else []
    {
      assert DueTo(h + [e], sub) == DueTo(h, sub);
      if e.Subscribed? && e.sub.id == sub {
        UnusedNumber(h, next, sub);
        NobodysSub(h, sub);
      }
    }
  }

  lemma OwedPublish(wire: seq<Sent>, h: seq<Event>, e: Event, c: int, next: nat)
    requires Owed(wire, h, c) && e.Published? && Numbered(h, next)
    ensures Owed(wire + Copies(SubsOf(h, Key(e.p.topic)), c, e.client, e.p), h + [e], c)
  {
    hide DueTo, SubInfo, Copies, SubsOf, SentFor, RelayedOn, DueToClient, CountSubs, Repeat, Key, Numbered;
    var t := Key(e.p.topic);
    var copies := Copies(SubsOf(h, t), c, e.client, e.p);
    forall sub: nat
      ensures SentFor(wire + copies, sub) ==
              if SubInfo(h + [e], sub).Some? && SubInfo(h + [e], sub).value.0 == c then DueTo(h + [e], sub) else []
    {
      SentForAppend(wire, copies, sub);
      CopiesForSub(h, next, t, c, e.client, e.p, sub);
      DueAfterPublish(h, e, sub);
    }
    RelayedOnAppend(wire, copies);
    CopiesForClient(h, next, t, c, e.client, e.p);
    ClientDueAfterPublish(h, e, c);
  }

  lemma DueAfterPublish(h: seq<Event>, e: Event, sub: nat)
    requires e.Published?
    ensures SubInfo(h + [e], sub) == SubInfo(h, sub)
    ensures DueTo(h + [e], sub) ==
            DueTo(h, sub) + (if SubInfo(h, sub).Some? && SubInfo(h, sub).value.1 == Key(e.p.topic) then [(e.client, e.p)] else [])
  {
    Snoc(h, e);
    hide Key;
  }

  lemma ClientDueAfterPublish(h: seq<Event>, e: Event, c: int)
    requires e.Published?
    ensures DueToClient(h + [e], c) == DueToClient(h, c) + Repeat(e.p, CountSubs(h, c, Key(e.p.topic)))
  {
    Snoc(h, e);
    hide Key, Repeat, CountSubs;
  }

  lemma AccountedOther(r: Option<Reply>, h: seq<Event>, e: Event, c: int)
    requires Accounted(r, h, c) && e.client != c
    ensures Accounted(r, h + [e], c)
  {
  }

  /** Setting a reply while none is pending. */
  lemma AccountedSet(r: Reply, h: seq<Event>, e: Event, c: int)
    requires Accounted(None, h, c) && e.client == c
    requires match e
             case Accepted(_, p) => r == PublishReply(p)
             case Subscribed(_, _, _) => r.AckReply?
             case Answering(_, _, _, _) => r.AckReply?
             case _ => false
    ensures Accounted(Some(r), h + [e], c)
  {
  }

  lemma AccountedSent(r: Reply, h: seq<Event>, e: Event, c: int)
    requires Accounted(Some(r), h, c) && e.client == c
    requires match e case Published(_, p) => r == PublishReply(p) case Answered(_) => r.AckReply? case _ => false
    ensures Accounted(None, h + [e], c)
  {
  }

  lemma NumberedSnoc(h: seq<Event>, e: Event, next: nat)
    requires Numbered(h, next)
    requires e.Subscribed? ==> e.sub.id == next && e.sub.client == e.client
    ensures Numbered(h + [e], if e.Subscribed? then next + 1 else next)
  {
  }

  lemma RetainedSinceSnoc(h: seq<Event>, e: Event, t: Name, k: nat)
    requires k < |h|
    ensures RetainedSince(h + [e], t, k) <==> RetainedSince(h, t, k) || Retains(e, t)
  {
    if RetainedSince(h, t, k) {
      var j :| k <= j < |h| && Retains(h[j], t);
      assert Retains((h + [e])[j], t);
    }
    if Retains(e, t) { assert Retains((h + [e])[|h|], t); }
    if RetainedSince(h + [e], t, k) && !Retains(e, t) {
      var j :| k <= j < |h| + 1 && Retains((h + [e])[j], t);
      assert Retains(h[j], t);
    }
  }

  /** What is known of position `k` of a history stays so when an event is added. */
  lemma PastStays(h: seq<Event>, e: Event, k: nat)
    requires k < |h|
    ensures (h + [e])[k] == h[k] && (h + [e])[..k] == h[..k] && AnswerTo(h + [e], k) == AnswerTo(h, k)
  {
  }

  lemma LastRequestSnoc(h: seq<Event>, e: Event, c: int)
    ensures LastRequest(h + [e], c) ==
            if e.client == c && (e.Accepted? || e.Subscribed? || e.Answering?) then Some(|h|) else LastRequest(h, c)
  {
    Snoc(h, e);
  }

  lemma CarriedSnoc(h: seq<Event>, e: Event, c: int)
    ensures !e.Published? && !(e.Answered? && e.client == c) ==> Carried(h + [e], c) == Carried(h, c)
    ensures e.Published? ==>
              Carried(h + [e], c) ==
              Carried(h, c) + Copies(SubsOf(h, Key(e.p.topic)), c, e.client, e.p) + (if e.client == c then Pubacks(e.p) else [])
    ensures e == Answered(c) && LastRequest(h, c).Some? ==>
              Carried(h + [e], c) == Carried(h, c) + AnswerTo(h, LastRequest(h, c).value)
  {
    Snoc(h, e);
  }
}
