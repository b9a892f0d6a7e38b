/** The linked FIFO of src/queue.c. Its lock makes every call one monitor step; a dequeuer waits while `len` is 0. */
module WaitQueue {

  import opened Options

  class Item<T> {
    var data: T
    var next: Item?<T>

    constructor (data: T)
      ensures this.data == data && next == null
    {
      this.data, next := data, null;
    }
  }

  class Queue<T> {
    var len: nat
    var front: Item?<T>
    var rear: Item?<T>
    ghost var items: seq<Item<T>>

    /** `items` is the chain from `front` to `rear`. */
    ghost predicate Valid()
      reads this, items
    {
      && len == |items|
      && (forall i, j :: 0 <= i < j < |items| ==> items[i] != items[j])
      && (forall i :: 0 <= i < |items| - 1 ==> items[i].next == items[i + 1])
      && (if items == [] then front == null && rear == null
          else front == items[0] && rear == items[|items| - 1] && rear.next == null)
    }

    ghost function Contents(): (s: seq<T>)
      reads this, items
    {
      seq(|items|, i requires 0 <= i < |items| reads this, items => items[i].data)
    }

    constructor ()
      ensures Valid() && Contents() == [] && items == []
    {
      len, front, rear, items := 0, null, null, [];
    }

    method Enqueue(data: T)
      requires Valid()
      modifies this, items
      ensures Valid() && Contents() == old(Contents()) + [data]
      ensures forall n :: n in items ==> n in old(items) || fresh(n)
    {
      var item := new Item(data);
      len := len + 1;
      if front == null && rear == null {
        front, rear := item, item;
      } else {
        rear.next := item;
        rear := item;
      }
      items := items + [item];
    }

    /** One attempt of a dequeuer that holds the lock: it goes on waiting when `len` is 0. */
    method TryDequeue() returns (r: Option<T>)
      requires Valid()
      modifies this
      ensures Valid()
      ensures r.None? <==> old(Contents()) == []
      ensures r.None? ==> Contents() == []
      ensures r.Some? ==> old(Contents()) == [r.value] + Contents()
      ensures forall n :: n in items ==> n in old(items)
    {
      if len == 0 { return None; }
      var item := front;
      front := front.next;
      if front == null { rear := null; }
      r := Some(item.data);
      items := items[1..];
      len := len - 1;
    }
  }

  // ----- Every interleaving ------------------------------------------------------------------------

  /** A monitor step of some thread: an enqueue, or one attempt to dequeue. */
  datatype Step<+T> = Enq(data: T) | Attempt

  ghost function Enqueued<T>(steps: seq<Step<T>>): seq<T> {
    if steps == [] then []
    else Enqueued(steps[..|steps| - 1]) + (if steps[|steps| - 1].Enq? then [steps[|steps| - 1].data] else [])
  }

  /** The items dequeued and the items queued: an attempt that finds the queue empty takes nothing, each other attempt takes
      the oldest item. */
  ghost function Replay<T>(steps: seq<Step<T>>): (seq<T>, seq<T>) {
    if steps == [] then ([], [])
    else
      var (dequeued, queued) := Replay(steps[..|steps| - 1]);
      match steps[|steps| - 1]
      case Enq(x) => (dequeued, queued + [x])
      case Attempt => if queued == [] then (dequeued, queued) else (dequeued + [queued[0]], queued[1..])
  }

  /** Nothing is lost, duplicated or reordered. */
  lemma {:induction false} ReplayConserves<T>(steps: seq<Step<T>>)
    ensures Replay(steps).0 + Replay(steps).1 == Enqueued(steps)
  {
    if steps != [] {
      var (dequeued, queued) := Replay(steps[..|steps| - 1]);
      ReplayConserves(steps[..|steps| - 1]);
      match steps[|steps| - 1]
      case Enq(x) => assert dequeued + (queued + [x]) == dequeued + queued + [x];
      case Attempt =>
        assert dequeued + queued + [] == dequeued + queued;
        if queued != [] { assert dequeued + [queued[0]] + queued[1..] == dequeued + queued; }
    }
  }

  /** Every interleaving of the heap queue. */
  method Run<T>(steps: seq<Step<T>>) returns (q: Queue<T>, dequeued: seq<T>)
    ensures q.Valid() && (dequeued, q.Contents()) == Replay(steps)
    ensures dequeued + q.Contents() == Enqueued(steps)
    ensures q.len == |Enqueued(steps)| - |dequeued|
  {
    q := new Queue();
    dequeued := [];
    for i := 0 to |steps|
      invariant q.Valid() && fresh(q) && fresh(set n | n in q.items)
      invariant (dequeued, q.Contents()) == Replay(steps[..i])
    {
      assert steps[..i + 1][..i] == steps[..i];
      match steps[i]
      case Enq(x) => q.Enqueue(x);
      case Attempt =>
        var r := q.TryDequeue();
        if r.Some? { dequeued := dequeued + [r.value]; }
    }
    assert steps[..|steps|] == steps;
    ReplayConserves(steps);
    assert |q.Contents()| == q.len;
  }
}
