/** The byte ring of src/ringbuf.c: head and tail indices into a fixed array, and a flag that tells a full ring
    from an empty one when they meet. */
module Ring {
  import opened Bytes

  class RingBuffer {
    var buffer: array<byte>
    var head: nat
    var tail: nat
    var full: bool
    const max: nat

    ghost predicate Valid()
      reads this, buffer
    {
      && buffer.Length == max > 0
      && head < max && tail < max
      && (full ==> head == tail)
    }

    /** The bytes held, oldest first. */
    ghost function Contents(): (s: seq<byte>)
      requires Valid()
      reads this, buffer
      ensures |s| <= max
    {
      if full then buffer[tail..] + buffer[..head]
      else if head >= tail then buffer[tail..head]
      else buffer[tail..] + buffer[..head]
    }

    constructor (buffer: array<byte>)
      requires buffer.Length > 0
      ensures Valid() && this.buffer == buffer && max == buffer.Length
      ensures Contents() == []
    {
      this.buffer, max := buffer, buffer.Length;
      head, tail, full := 0, 0, false;
    }

    method IsEmpty() returns (r: bool)
      requires Valid()
      ensures r <==> Contents() == []
    {
      r := !full && head == tail;
    }

    method Size() returns (size: nat)
      requires Valid()
      ensures size == |Contents()| <= max
      ensures full <==> size == max
    {
      size := max;
      if !full {
        if head >= tail { size := head - tail; } else { size := max + head - tail; }
      }
    }

    /** The i-th byte held sits `i` places after `tail`, modulo the capacity. */
    lemma ContentsAt(i: nat)
      requires Valid() && i < |Contents()|
      ensures Contents()[i] == buffer[(tail + i) % max]
    {
      WrapOnce(tail + i, max);
    }

    method AdvancePointer()
      requires Valid()
      modifies this`head, this`tail, this`full
      ensures head == (if old(head) + 1 == max then 0 else old(head) + 1)
      ensures tail == if !old(full) then old(tail) else if old(tail) + 1 == max then 0 else old(tail) + 1
      ensures full <==> head == tail
    {
      WrapOnce(head + 1, max);
      WrapOnce(tail + 1, max);
      if full { tail := (tail + 1) % max; }
      head := (head + 1) % max;
      full := head == tail;
    }

    method RetreatPointer()
      requires Valid()
      modifies this`tail, this`full
      ensures tail == (if old(tail) + 1 == max then 0 else old(tail) + 1) && !full
    {
      WrapOnce(tail + 1, max);
      full := false;
      tail := (tail + 1) % max;
    }

    method Push(data: byte) returns (r: int)
      requires Valid()
      modifies this, buffer
      ensures Valid() && buffer == old(buffer)
      ensures r == if |old(Contents())| < max then 0 else -1
      ensures Contents() == if r == 0 then old(Contents()) + [data] else old(Contents())
    {
      r := -1;
      if !full {
        buffer[head] := data;
        AdvancePointer();
        r := 0;
      }
    }

    /** Append the longest prefix that fits; -1 exactly when some byte did not. */
    method BulkPush(data: seq<byte>) returns (r: int)
      requires Valid()
      modifies this, buffer
      ensures Valid() && buffer == old(buffer)
      ensures Contents() == Capped(old(Contents()) + data, max)
      ensures r == if |data| <= max - |old(Contents())| then 0 else -1
    {
      hide Contents;
      ghost var s := Contents();
      assert s + data[..0] == s;
      r := 0;
      for i := 0 to |data|
        invariant Valid() && buffer == old(buffer) && r == 0
        invariant |s| + i <= max
        invariant Contents() == s + data[..i]
      {
        assert s + data[..i + 1] == s + data[..i] + [data[i]];
        r := Push(data[i]);
        if r == -1 {
          assert (s + data)[..max] == s + data[..i];
          return;
        }
      }
      assert data[..|data|] == data;
    }

    method Pop() returns (r: int, data: byte)
      requires Valid()
      modifies this
      ensures Valid() && buffer == old(buffer)
      ensures r == if old(Contents()) == [] then -1 else 0
      ensures r == 0 ==> data == old(Contents())[0] && Contents() == old(Contents())[1..]
      ensures r == -1 ==> Contents() == []
    {
      r, data := -1, 0;
      if full || head != tail {
        data := buffer[tail];
        RetreatPointer();
        r := 0;
      }
    }
  }

  lemma WrapOnce(i: nat, n: nat)
    requires i < 2 * n
    ensures i % n == if i < n then i else i - n
  {
  }
}
