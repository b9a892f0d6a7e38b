/** The linked list of src/list.c as src/sizigy.c uses it for subscribers: insertion at the head, removal of the first
    node of a client. */
module SubscriberList {
  import opened Bytes
  import opened BrokerModel

  class Node {
    var data: Subscription
    var next: Node?

    constructor (data: Subscription, next: Node?)
      ensures this.data == data && this.next == next
    {
      this.data, this.next := data, next;
    }
  }

  /** `nodes` is the chain that starts at `head` and ends in NULL. */
  ghost predicate Chain(head: Node?, nodes: seq<Node>)
    reads nodes
  {
    if nodes == [] then head == null
    else head == nodes[0] && head !in nodes[1..] && Chain(head.next, nodes[1..])
  }

  ghost function Data(nodes: seq<Node>): (s: seq<Subscription>)
    reads nodes
    ensures |s| == |nodes|
  {
    if nodes == [] then [] else [nodes[0].data] + Data(nodes[1..])
  }

  /** Where a walk over the list stands after `k` nodes. */
  ghost function NodeAt(nodes: seq<Node>, k: nat): Node? {
    if k < |nodes| then nodes[k] else null
  }

  /** A walk over the list meets `s`. */
  ghost predicate InOrder(nodes: seq<Node>, s: seq<Subscription>)
    reads nodes
  {
    |s| == |nodes| && forall k :: 0 <= k < |nodes| ==> nodes[k].data == s[k] && nodes[k].next == NodeAt(nodes, k + 1)
  }

  lemma AtNode(nodes: seq<Node>, s: seq<Subscription>, k: nat)
    requires InOrder(nodes, s) && NodeAt(nodes, k) != null
    ensures k < |s| && NodeAt(nodes, k).data == s[k] && NodeAt(nodes, k).next == NodeAt(nodes, k + 1)
  {
  }

  lemma {:induction false} NodesInOrder(head: Node?, nodes: seq<Node>)
    requires Chain(head, nodes)
    ensures head == NodeAt(nodes, 0) && InOrder(nodes, Data(nodes))
  {
    if nodes != [] {
      NodesInOrder(head.next, nodes[1..]);
      assert nodes == [nodes[0]] + nodes[1..];
    }
  }

  // ----- The abstract list -----------------------------------------------------------------------

  /** The list without the first entry of `client`. */
  function RemoveFirst(s: seq<Subscription>, client: int): (r: seq<Subscription>)
    ensures forall x :: x in r ==> x in s
    ensures |s| - 1 <= |r| <= |s|
  {
    if s == [] then [] else if s[0].client == client then s[1..] else [s[0]] + RemoveFirst(s[1..], client)
  }

  function Entries(s: seq<Subscription>, client: int): seq<Subscription> {
    if s == [] then []
    else (if s[0].client == client then [s[0]] else []) + Entries(s[1..], client)
  }

  /** Removal takes the newest entry of its client and no other. */
  lemma {:induction false} RemoveFirstEntries(s: seq<Subscription>, client: int, other: int)
    ensures Entries(RemoveFirst(s, client), other) ==
            if other == client && Entries(s, client) != [] then Entries(s, client)[1..] else Entries(s, other)
  {
    if s != [] && s[0].client != client {
      RemoveFirstEntries(s[1..], client, other);
      assert RemoveFirst(s, client)[1..] == RemoveFirst(s[1..], client);
    }
  }

  // ----- The heap operations ---------------------------------------------------------------------

  /** `list_remove_node` with `sub_compare`: the two clients' descriptors are compared. */
  method RemoveNode(head: Node?, client: int, ghost nodes: seq<Node>) returns (h: Node?, ghost left: seq<Node>)
    requires Chain(head, nodes)
    modifies nodes
    ensures Chain(h, left) && (forall n :: n in left ==> n in nodes)
    ensures forall n :: n in nodes ==> n.data == old(n.data)
    ensures Data(left) == RemoveFirst(old(Data(nodes)), client)
    decreases |nodes|
  {
    if head == null { return null, []; }
    if head.data.client == client {
      h, left := head.next, nodes[1..];
      return;
    }
    var rest;
    ghost var tail;
    rest, tail := RemoveNode(head.next, client, nodes[1..]);
    assert Data(tail) == RemoveFirst(old(Data(nodes[1..])), client);
    head.next := rest;
    h, left := head, [head] + tail;
    assert left[1..] == tail;
  }

  class List {
    var head: Node?
    var tail: Node?
    var len: nat
    ghost var nodes: seq<Node>

    /** `len` counts insertions and is never lowered. */
    ghost predicate Valid()
      reads this, nodes
    {
      Chain(head, nodes) && len >= |nodes|
    }

    ghost function Contents(): seq<Subscription>
      reads this, nodes
    {
      Data(nodes)
    }

    constructor ()
      ensures Valid() && nodes == [] && len == 0
    {
      head, tail, len, nodes := null, null, 0, [];
    }

    /** `list_head_insert`. Its empty-list branch runs on a truly empty chain only. */
    method HeadInsert(val: Subscription)
      requires Valid()
      modifies this
      ensures Valid() && Contents() == [val] + old(Contents())
      ensures len == old(len) + 1
      ensures old(len) == 0 ==> old(Contents()) == [] && head == tail
      ensures forall n :: n in nodes ==> n in old(nodes) || fresh(n)
    {
      var node := new Node(val, null);
      if len == 0 {
        head, tail := node, node;
        node.next := null;
      } else {
        node.next := head;
        head := node;
      }
      len := len + 1;
      nodes := [node] + nodes;
      assert nodes[1..] == old(nodes);
    }

    /** `del_subscriber`: only the head is updated; `len` and `tail` stay. */
    method Remove(client: int)
      requires Valid()
      modifies this, nodes
      ensures Valid() && Contents() == RemoveFirst(old(Contents()), client)
      ensures len == old(len) && tail == old(tail)
      ensures forall n :: n in nodes ==> n in old(nodes)
    {
      head, nodes := RemoveNode(head, client, nodes);
      assert |Data(nodes)| <= old(|Data(nodes)|);
    }
  }

  // ----- Every run of additions and removals -----------------------------------------------------

  /** Subscriptions are numbered in the order they are made. */
  datatype Op = Add(client: int, qos: byte) | Del(client: int)

  function AfterOp(s: seq<Subscription>, op: Op, id: nat): seq<Subscription> {
    match op
    case Add(c, q) => [Subscription(id, c, q)] + s
    case Del(c) => RemoveFirst(s, c)
  }

  function AfterRun(ops: seq<Op>): seq<Subscription> {
    if ops == [] then [] else AfterOp(AfterRun(ops[..|ops| - 1]), ops[|ops| - 1], |ops| - 1)
  }

  function Additions(ops: seq<Op>): nat {
    if ops == [] then 0 else Additions(ops[..|ops| - 1]) + (if ops[|ops| - 1].Add? then 1 else 0)
  }

  /** The reference: one stack per client. */
  function Stack(ops: seq<Op>, client: int): seq<Subscription> {
    if ops == [] then []
    else
      var s, op := Stack(ops[..|ops| - 1], client), ops[|ops| - 1];
      if op.client != client then s
      else if op.Add? then [Subscription(|ops| - 1, client, op.qos)] + s
      else if s == [] then s else s[1..]
  }

  ghost predicate NewestFirst(s: seq<Subscription>) {
    forall i, j :: 0 <= i < j < |s| ==> s[i].id > s[j].id
  }

  /** The list interleaves the clients' stacks, newest first: each removal pops its own client's stack. */
  lemma {:induction false} RunIsStacks(ops: seq<Op>, client: int)
    ensures Entries(AfterRun(ops), client) == Stack(ops, client)
    ensures NewestFirst(AfterRun(ops))
    ensures forall x :: x in AfterRun(ops) ==> x.id < |ops|
  {
    if ops != [] {
      var before, op := ops[..|ops| - 1], ops[|ops| - 1];
      RunIsStacks(before, client);
      var s := AfterRun(before);
      match op
      case Add(_, _) =>
        assert AfterRun(ops)[1..] == s;
      case Del(c) =>
        RemoveFirstEntries(s, c, client);
        RemoveFirstKeepsOrder(s, c);
    }
  }

  lemma {:induction false} RemoveFirstKeepsOrder(s: seq<Subscription>, client: int)
    requires NewestFirst(s)
    ensures NewestFirst(RemoveFirst(s, client))
  {
    if s != [] && s[0].client != client {
      assert NewestFirst(s[1..]);
      RemoveFirstKeepsOrder(s[1..], client);
      var r := RemoveFirst(s[1..], client);
      forall i | 0 <= i < |r| ensures s[0].id > r[i].id {
        assert r[i] in s[1..];
      }
    }
  }

  /** Every run from `list_create`. */
  method Run(ops: seq<Op>) returns (l: List)
    ensures l.Valid() && l.Contents() == AfterRun(ops)
    ensures l.len == Additions(ops) >= |AfterRun(ops)|
  {
    l := new List();
    for i := 0 to |ops|
      invariant l.Valid() && fresh(l) && fresh(set n | n in l.nodes)
      invariant l.Contents() == AfterRun(ops[..i]) && l.len == Additions(ops[..i])
    {
      assert ops[..i + 1][..i] == ops[..i];
      match ops[i]
      case Add(c, q) => l.HeadInsert(Subscription(i, c, q));
      case Del(c) => l.Remove(c);
    }
    assert ops[..|ops|] == ops;
    assert |l.Contents()| == |l.nodes|;
  }
}
