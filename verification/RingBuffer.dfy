/**
 * The queue structure of src/os/linux/pthread_queue.c as one object: the body of a send or a
 * receive between its lock and its unlock, with the wait reduced to its outcome.  `QueueProtocol`
 * shows that these bodies are what any interleaving of threads amounts to.
 */
module RingBuffer {
  import Q = QueueProtocol

  class Queue<T(0)> {
    const buffer: array<T>
    var items: int
    var inPos: nat
    var outPos: nat

    ghost predicate Valid()
      reads this, buffer
    {
      0 <= items <= buffer.Length &&
      (buffer.Length == 0 ==> inPos == 0 && outPos == 0) &&
      (buffer.Length > 0 ==>
        inPos < buffer.Length && outPos < buffer.Length && inPos == Q.Wrap(outPos + items, buffer.Length))
    }

    ghost function Contents(): seq<T>
      reads this, buffer
      requires Valid()
    {
      Q.Window(buffer[..], outPos, items)
    }

    constructor (length: nat)
      ensures Valid() && fresh(buffer) && buffer.Length == length && Contents() == []
    {
      buffer := new T[length];
      items, inPos, outPos := 0, 0, 0;
    }

    /** `os_pthread_queue_send`; `ok` is false when the wait for room ran out. */
    method Send(v: T) returns (ok: bool)
      requires Valid()
      modifies this, buffer
      ensures Valid()
      ensures ok <==> |old(Contents())| < buffer.Length
      ensures Contents() == if ok then old(Contents()) + [v] else old(Contents())
    {
      if items == buffer.Length {
        return false;
      }
      Q.WindowGrows(buffer[..], outPos, items, v);
      Q.WrapIsMod(inPos + 1, buffer.Length);
      ghost var before := buffer[..];
      buffer[inPos] := v;
      assert buffer[..] == before[inPos := v];
      items := items + 1;
      inPos := (inPos + 1) % buffer.Length;
      ok := true;
    }

    /** `os_pthread_queue_receive`; `ok` is false when the wait for an item ran out. */
    method Receive(empty: T) returns (ok: bool, x: T)
      requires Valid()
      modifies this
      ensures Valid()
      ensures ok <==> old(Contents()) != []
      ensures if ok then old(Contents()) == [x] + Contents() else Contents() == old(Contents()) && x == empty
    {
      if items == 0 {
        return false, empty;
      }
      Q.WindowShrinks(buffer[..], outPos, items);
      Q.WrapIsMod(outPos + 1, buffer.Length);
      x := buffer[outPos];
      items := items - 1;
      outPos := (outPos + 1) % buffer.Length;
      ok := true;
    }
  }
}
