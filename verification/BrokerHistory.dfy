/** What a history of broker events promises, read off the events alone: the reference the state is compared with. */
module BrokerHistory {
  import opened Options
  import opened Bytes
  import opened Packets
  import opened BrokerModel

  // ----- Subscriptions ---------------------------------------------------------------------------

  /** The subscriptions of a topic, newest first. */
  function SubsOf(h: seq<Event>, t: Name): seq<Subscription> {
    if h == [] then []
    else
      var before, e := SubsOf(h[..|h| - 1], t), h[|h| - 1];
      if e.Subscribed? && e.topic == t then [e.sub] + before else before
  }

  /** Whose subscription this is, and of what. */
  function SubInfo(h: seq<Event>, sub: nat): Option<(int, Name)> {
    if h == [] then None
    else
      var e := h[|h| - 1];
      if e.Subscribed? && e.sub.id == sub then Some((e.client, e.topic)) else SubInfo(h[..|h| - 1], sub)
  }

  /** How many subscriptions to the topic a client has made. */
  function CountSubs(h: seq<Event>, c: int, t: Name): nat {
    if h == [] then 0
    else
      var e := h[|h| - 1];
      CountSubs(h[..|h| - 1], c, t) + (if e.Subscribed? && e.client == c && e.topic == t then 1 else 0)
  }

  /** Subscriptions are numbered in the order they are made, and carry their client. */
  ghost predicate Numbered(h: seq<Event>, next: nat) {
    && (forall i {:trigger h[i]} :: 0 <= i < |h| && h[i].Subscribed? ==> h[i].sub.id < next && h[i].sub.client == h[i].client)
    && (forall i, j {:trigger h[i], h[j]} :: 0 <= i < j < |h| && h[i].Subscribed? && h[j].Subscribed? ==> h[i].sub.id != h[j].sub.id)
  }

  // ----- Deliveries ------------------------------------------------------------------------------

  /** The publishes a subscription must relay: those on its topic executed after it was made, in that order. */
  function DueTo(h: seq<Event>, sub: nat): seq<(int, Publish)> {
    if h == [] then []
    else
      var before, e := h[..|h| - 1], h[|h| - 1];
      DueTo(before, sub)
      + (if e.Published? && SubInfo(before, sub).Some? && SubInfo(before, sub).value.1 == Key(e.p.topic) then [(e.client, e.p)] else [])
  }

  function Repeat(p: Publish, n: nat): seq<Publish> {
    if n == 0 then [] else Repeat(p, n - 1) + [p]
  }

  /** The publishes a client must be sent: each as often as it has subscriptions to the topic at that moment. */
  function DueToClient(h: seq<Event>, c: int): seq<Publish> {
    if h == [] then []
    else
      var before, e := h[..|h| - 1], h[|h| - 1];
      DueToClient(before, c) + (if e.Published? then Repeat(e.p, CountSubs(before, c, Key(e.p.topic))) else [])
  }

  /** What was sent on behalf of one subscription. */
  function SentFor(wire: seq<Sent>, sub: nat): seq<(int, Publish)> {
    if wire == [] then []
    else
      var x := wire[|wire| - 1];
      SentFor(wire[..|wire| - 1], sub) + (if x.Relayed? && x.sub == sub then [(x.sender, x.p)] else [])
  }

  /** The PUBLISH frames relayed over a connection. */
  function RelayedOn(wire: seq<Sent>): seq<Publish> {
    if wire == [] then []
    else
      var x := wire[|wire| - 1];
      RelayedOn(wire[..|wire| - 1]) + (if x.Relayed? then [x.p] else [])
  }

  // ----- Requests and replies --------------------------------------------------------------------

  function AcceptedFrom(h: seq<Event>, c: int): seq<Publish> {
    if h == [] then []
    else
      var e := h[|h| - 1];
      AcceptedFrom(h[..|h| - 1], c) + (if e.Accepted? && e.client == c then [e.p] else [])
  }

  function PublishedBy(h: seq<Event>, c: int): seq<Publish> {
    if h == [] then []
    else
      var e := h[|h| - 1];
      PublishedBy(h[..|h| - 1], c) + (if e.Published? && e.client == c then [e.p] else [])
  }

  /** Replies set minus replies sent. */
  function Outstanding(h: seq<Event>, c: int): int {
    if h == [] then 0
    else
      var e := h[|h| - 1];
      Outstanding(h[..|h| - 1], c) + (if e.client != c then 0 else if e.Published? || e.Answered? then -1 else 1)
  }

  /** The publishes on a topic, with their publishers. */
  function PublishesOn(h: seq<Event>, t: Name): seq<(int, Publish)> {
    if h == [] then []
    else
      var e := h[|h| - 1];
      PublishesOn(h[..|h| - 1], t) + (if e.Published? && Key(e.p.topic) == t then [(e.client, e.p)] else [])
  }

  /** Those of one publisher. */
  function From(s: seq<(int, Publish)>, c: int): seq<Publish> {
    if s == [] then [] else From(s[..|s| - 1], c) + (if s[|s| - 1].0 == c then [s[|s| - 1].1] else [])
  }

  /** Those on one topic. */
  function OnTopic(s: seq<Publish>, t: Name): seq<Publish> {
    if s == [] then [] else OnTopic(s[..|s| - 1], t) + (if Key(s[|s| - 1].topic) == t then [s[|s| - 1]] else [])
  }

  // ----- Retention -------------------------------------------------------------------------------

  predicate Retains(e: Event, t: Name) {
    e.Published? && e.p.retain != 0 && Key(e.p.topic) == t
  }

  /** The last publish on the topic that asked to be retained. */
  function LastRetained(h: seq<Event>, t: Name): Option<Publish> {
    if h == [] then None
    else
      var e := h[|h| - 1];
      if Retains(e, t) then Some(e.p) else LastRetained(h[..|h| - 1], t)
  }

  /** Where the client's last request that set a reply stands in the history. */
  function LastRequest(h: seq<Event>, c: int): (k: Option<nat>)
    ensures k.Some? ==> k.value < |h|
  {
    if h == [] then None
    else
      var e := h[|h| - 1];
      if e.client == c && (e.Accepted? || e.Subscribed? || e.Answering?) then Some(|h| - 1) else LastRequest(h[..|h| - 1], c)
  }

  ghost predicate RetainedSince(h: seq<Event>, t: Name, k: nat) {
    exists j :: k <= j < |h| && Retains(h[j], t)
  }

  // ----- All that a connection carries -------------------------------------------------------------

  function RetainedCopy(h: seq<Event>, t: Name): seq<Sent> {
    match LastRetained(h, t)
    case None => []
    case Some(p) => [Direct(PublishFrame(RetainedPkt(MessageOf(p))))]
  }

  /** The answer to the request at position `k`. */
  function AnswerTo(h: seq<Event>, k: nat): seq<Sent>
    requires k < |h|
  {
    match h[k]
    case Answering(_, opcode, rc, _) => [Direct(AckFrame(opcode, rc))]
    case Subscribed(_, _, t) => [Direct(AckFrame(SUBACK, 0))] + RetainedCopy(h[..k], t)
    case _ => []
  }

  function Pubacks(p: Publish): seq<Sent> {
    if p.qos == 1 then [Direct(AckFrame(PUBACK, 0))] else []
  }

  /** Every frame sent to a client, in order: copies of publishes, acknowledgements of its own, answers. */
  function Carried(h: seq<Event>, c: int): seq<Sent> {
    if h == [] then []
    else
      var before, e := h[..|h| - 1], h[|h| - 1];
      Carried(before, c) +
      match e
      case Published(x, p) => Copies(SubsOf(before, Key(p.topic)), c, x, p) + (if x == c then Pubacks(p) else [])
      case Answered(x) => if x == c && LastRequest(before, c).Some? then AnswerTo(before, LastRequest(before, c).value) else []
      case _ => []
  }

  // ----- Pointers that go bad ----------------------------------------------------------------------

  /** The client's pending answer will use a bad pointer: the SUBACK of a SUBSCRIBE since which the message retained then
      was replaced, or the SUBACK of a SUBSCRIBE without topic whose pointer, never set, did not come as NULL. */
  ghost predicate Doomed(h: seq<Event>, c: int) {
    && Outstanding(h, c) == 1
    && var k := LastRequest(h, c);
       && k.Some?
       && match h[k.value]
          case Subscribed(_, _, t) => LastRetained(h[..k.value], t).Some? && RetainedSince(h, t, k.value)
          case Answering(_, opcode, _, junk) => opcode == SUBACK && junk.Some?
          case _ => false
  }

  // ----- Facts about histories -------------------------------------------------------------------

  lemma Snoc<T>(h: seq<T>, e: T)
    ensures (h + [e])[..|h + [e]| - 1] == h && (h + [e])[|h + [e]| - 1] == e
  {
  }

  lemma {:induction false} NobodysSub(h: seq<Event>, sub: nat)
    requires SubInfo(h, sub).None?
    ensures DueTo(h, sub) == []
  {
    if h != [] { NobodysSub(h[..|h| - 1], sub); }
  }

  lemma {:induction false} UnusedNumber(h: seq<Event>, next: nat, sub: nat)
    requires Numbered(h, next) && sub >= next
    ensures SubInfo(h, sub).None?
  {
    if h != [] { UnusedNumber(h[..|h| - 1], next, sub); }
  }

  /** A client that no event mentions is owed nothing. */
  lemma {:induction false} Stranger(h: seq<Event>, c: int)
    requires forall i {:trigger h[i]} :: 0 <= i < |h| ==> h[i].client != c
    ensures DueToClient(h, c) == [] && AcceptedFrom(h, c) == [] && PublishedBy(h, c) == [] && Outstanding(h, c) == 0
    ensures forall t :: CountSubs(h, c, t) == 0
    ensures forall sub :: SubInfo(h, sub).Some? ==> SubInfo(h, sub).value.0 != c
  {
    if h != [] {
      var before := h[..|h| - 1];
      assert forall i :: 0 <= i < |before| ==> before[i] == h[i];
      Stranger(before, c);
    }
  }

  // ----- One delivery ----------------------------------------------------------------------------

  /** What one publish sends to client `c`, for a list of subscriptions. */
  function Copies(subs: seq<Subscription>, c: int, sender: int, p: Publish): seq<Sent> {
    if subs == [] then []
    else
      var s := subs[|subs| - 1];
      Copies(subs[..|subs| - 1], c, sender, p) + (if s.client == c then [Relayed(s.id, sender, p)] else [])
  }

  lemma {:induction false} CopiesCons(s: Subscription, subs: seq<Subscription>, c: int, sender: int, p: Publish)
    ensures Copies([s] + subs, c, sender, p) == (if s.client == c then [Relayed(s.id, sender, p)] else []) + Copies(subs, c, sender, p)
  {
    if subs == [] {
      assert [s] + subs == [s] && [s][..0] == [];
    } else {
      var m := |subs| - 1;
      assert ([s] + subs)[..|[s] + subs| - 1] == [s] + subs[..m];
      CopiesCons(s, subs[..m], c, sender, p);
    }
  }

  /** `publish_message`'s loop gives each client its copies and changes nothing else. */
  lemma {:induction false} DeliverIsCopies(clients: map<int, Client>, subs: seq<Subscription>, sender: int, p: Publish, i: nat, c: int)
    requires i <= |subs| && (forall s :: s in subs ==> s.client in clients) && c in clients
    ensures Deliver(clients, subs, sender, p, i)[c] == clients[c].(wire := clients[c].wire + Copies(subs[..i], c, sender, p))
  {
    if i > 0 {
      DeliverIsCopies(clients, subs, sender, p, i - 1, c);
      assert subs[..i][..i - 1] == subs[..i - 1];
    }
  }

  lemma {:induction false} SentForAppend(a: seq<Sent>, b: seq<Sent>, sub: nat)
    ensures SentFor(a + b, sub) == SentFor(a, sub) + SentFor(b, sub)
  {
    if b == [] {
      assert a + b == a;
    } else {
      assert (a + b)[..|a + b| - 1] == a + b[..|b| - 1];
      SentForAppend(a, b[..|b| - 1], sub);
    }
  }

  lemma {:induction false} RelayedOnAppend(a: seq<Sent>, b: seq<Sent>)
    ensures RelayedOn(a + b) == RelayedOn(a) + RelayedOn(b)
  {
    if b == [] {
      assert a + b == a;
    } else {
      assert (a + b)[..|a + b| - 1] == a + b[..|b| - 1];
      RelayedOnAppend(a, b[..|b| - 1]);
    }
  }

  lemma OneRelayed(s: nat, sender: int, p: Publish, sub: nat)
    ensures SentFor([Relayed(s, sender, p)], sub) == if s == sub then [(sender, p)] else []
    ensures RelayedOn([Relayed(s, sender, p)]) == [p]
  {
  }

  lemma NothingRelayed(c: int, sender: int, p: Publish)
    ensures Copies([], c, sender, p) == [] && RelayedOn([]) == [] && Repeat(p, 0) == []
  {
  }

  lemma {:induction false} RepeatFront(p: Publish, n: nat)
    ensures Repeat(p, n + 1) == [p] + Repeat(p, n)
  {
    if n > 0 { RepeatFront(p, n - 1); }
  }

  /** A publish reaches each subscription to its topic exactly once. */
  lemma {:induction false} CopiesForSub(h: seq<Event>, next: nat, t: Name, c: int, sender: int, p: Publish, sub: nat)
    requires Numbered(h, next)
    ensures SentFor(Copies(SubsOf(h, t), c, sender, p), sub) == if SubInfo(h, sub) == Some((c, t)) then [(sender, p)] else []
  {
    if h != [] {
      var before, e := h[..|h| - 1], h[|h| - 1];
      NumberedFront(h, next);
      CopiesForSub(before, next, t, c, sender, p, sub);
      if e.Subscribed? {
        NotBefore(before, e.sub.id);
        if e.topic == t {
          var x := if e.client == c then [Relayed(e.sub.id, sender, p)] else [];
          CopiesCons(e.sub, SubsOf(before, t), c, sender, p);
          SentForAppend(x, Copies(SubsOf(before, t), c, sender, p), sub);
          OneRelayed(e.sub.id, sender, p, sub);
        }
      }
    }
  }

  /** A publish reaches a client once per subscription. */
  lemma {:induction false} CopiesForClient(h: seq<Event>, next: nat, t: Name, c: int, sender: int, p: Publish)
    requires Numbered(h, next)
    ensures RelayedOn(Copies(SubsOf(h, t), c, sender, p)) == Repeat(p, CountSubs(h, c, t))
  {
    hide Numbered, Copies, RelayedOn, Repeat;
    NothingRelayed(c, sender, p);
    if h != [] {
      var before, e := h[..|h| - 1], h[|h| - 1];
      NumberedFront(h, next);
      CopiesForClient(before, next, t, c, sender, p);
      if e.Subscribed? && e.topic == t {
        var x := if e.client == c then [Relayed(e.sub.id, sender, p)] else [];
        CopiesCons(e.sub, SubsOf(before, t), c, sender, p);
        RelayedOnAppend(x, Copies(SubsOf(before, t), c, sender, p));
        OneRelayed(e.sub.id, sender, p, 0);
        RepeatFront(p, CountSubs(before, c, t));
      }
    }
  }

  lemma NumberedFront(h: seq<Event>, next: nat)
    requires h != [] && Numbered(h, next)
    ensures Numbered(h[..|h| - 1], next)
    ensures h[|h| - 1].Subscribed? ==> h[|h| - 1].sub.client == h[|h| - 1].client
    ensures forall i {:trigger h[..|h| - 1][i]} :: 0 <= i < |h| - 1 && h[|h| - 1].Subscribed? && h[..|h| - 1][i].Subscribed? ==>
              h[..|h| - 1][i].sub.id != h[|h| - 1].sub.id
  {
  }

  lemma {:induction false} NoCopies(h: seq<Event>, next: nat, t: Name, c: int, sender: int, p: Publish)
    requires Numbered(h, next) && forall i {:trigger h[i]} :: 0 <= i < |h| ==> h[i].client != c
    ensures Copies(SubsOf(h, t), c, sender, p) == []
  {
    if h != [] {
      var before, e := h[..|h| - 1], h[|h| - 1];
      NumberedFront(h, next);
      assert forall i :: 0 <= i < |before| ==> before[i] == h[i];
      NoCopies(before, next, t, c, sender, p);
      if e.Subscribed? && e.topic == t { CopiesCons(e.sub, SubsOf(before, t), c, sender, p); }
    }
  }

  lemma {:induction false} StrangerCarriesNothing(h: seq<Event>, next: nat, c: int)
    requires Numbered(h, next) && forall i {:trigger h[i]} :: 0 <= i < |h| ==> h[i].client != c
    ensures Carried(h, c) == []
  {
    if h != [] {
      var before, e := h[..|h| - 1], h[|h| - 1];
      NumberedFront(h, next);
      assert forall i :: 0 <= i < |before| ==> before[i] == h[i];
      StrangerCarriesNothing(before, next, c);
      if e.Published? { NoCopies(before, next, Key(e.p.topic), c, e.client, e.p); }
    }
  }

  lemma {:induction false} NotBefore(h: seq<Event>, sub: nat)
    requires forall i {:trigger h[i]} :: 0 <= i < |h| && h[i].Subscribed? ==> h[i].sub.id != sub
    ensures SubInfo(h, sub).None?
  {
    if h != [] {
      assert forall i :: 0 <= i < |h| - 1 ==> h[..|h| - 1][i] == h[i];
      NotBefore(h[..|h| - 1], sub);
    }
  }

  // ----- What a subscription is due, in terms of what followed it ----------------------------------

  lemma {:induction false} SubInfoAt(h: seq<Event>, next: nat, k: nat)
    requires Numbered(h, next) && k < |h| && h[k].Subscribed?
    ensures SubInfo(h, h[k].sub.id) == Some((h[k].client, h[k].topic))
  {
    var m := |h| - 1;
    if k < m {
      assert forall i :: 0 <= i < m ==> h[..m][i] == h[i];
      SubInfoAt(h[..m], next, k);
      if h[m].Subscribed? { assert h[k].sub.id != h[m].sub.id; }
    }
  }

  lemma NothingPublished(t: Name)
    ensures PublishesOn([], t) == []
  {
  }

  lemma PublishesSnoc(h: seq<Event>, e: Event, t: Name)
    ensures PublishesOn(h + [e], t) == PublishesOn(h, t) + (if e.Published? && Key(e.p.topic) == t then [(e.client, e.p)] else [])
  {
    Snoc(h, e);
  }

  /** A subscription is due the publishes on its topic that come after it, all of them, in order. */
  lemma {:induction false} DueIsWhatFollows(h: seq<Event>, next: nat, k: nat)
    requires Numbered(h, next) && k < |h| && h[k].Subscribed?
    ensures DueTo(h, h[k].sub.id) == PublishesOn(h[k + 1..], h[k].topic)
  {
    hide SubInfo, PublishesOn;
    var m := |h| - 1;
    var before := h[..m];
    assert forall i :: 0 <= i < m ==> before[i] == h[i];
    if k == m {
      NotBefore(before, h[k].sub.id);
      NobodysSub(before, h[k].sub.id);
      assert h[k + 1..] == [];
      NothingPublished(h[k].topic);
    } else {
      DueIsWhatFollows(before, next, k);
      SubInfoAt(before, next, k);
      assert h[k + 1..] == before[k + 1..] + [h[m]];
      PublishesSnoc(before[k + 1..], h[m], h[k].topic);
    }
  }

  /** Each publisher's share of a topic's publishes is that publisher's publishes on the topic, in its own order. */
  lemma {:induction false} FromPublisher(h: seq<Event>, t: Name, c: int)
    ensures From(PublishesOn(h, t), c) == OnTopic(PublishedBy(h, c), t)
  {
    if h != [] {
      var m := |h| - 1;
      FromPublisher(h[..m], t, c);
      var e, A, B := h[m], PublishesOn(h[..m], t), PublishedBy(h[..m], c);
      assert A + [] == A && B + [] == B && From(A, c) + [] == From(A, c);
      if e.Published? {
        FromSnoc(A, (e.client, e.p), c);
        OnTopicSnoc(B, e.p, t);
      }
    }
  }

  lemma FromSnoc(s: seq<(int, Publish)>, x: (int, Publish), c: int)
    ensures From(s + [x], c) == From(s, c) + (if x.0 == c then [x.1] else [])
  {
  }

  lemma OnTopicSnoc(s: seq<Publish>, p: Publish, t: Name)
    ensures OnTopic(s + [p], t) == OnTopic(s, t) + (if Key(p.topic) == t then [p] else [])
  {
  }

  lemma {:induction false} PublishedBySplit(a: seq<Event>, b: seq<Event>, c: int)
    ensures PublishedBy(a + b, c) == PublishedBy(a, c) + PublishedBy(b, c)
  {
    if b == [] {
      assert a + b == a;
    } else {
      assert (a + b)[..|a + b| - 1] == a + b[..|b| - 1];
      PublishedBySplit(a, b[..|b| - 1], c);
    }
  }

  lemma {:induction false} LastRetainedSplit(h: seq<Event>, t: Name, k: nat)
    requires k <= |h| && !RetainedSince(h, t, k)
    ensures LastRetained(h, t) == LastRetained(h[..k], t)
  {
    if k == |h| {
      assert h[..k] == h;
    } else {
      var m := |h| - 1;
      assert !Retains(h[m], t);
      assert h[..m][..k] == h[..k];
      forall j | k <= j < m ensures !Retains(h[..m][j], t) { assert h[..m][j] == h[j]; }
      LastRetainedSplit(h[..m], t, k);
    }
  }
}
