/** The linked list of byte slices between the mux loop and Read. */
module Buffer {
  import opened Bytes

  datatype ReadStatus = Done | EndOfFile | TimedOut | WouldWait | NoStream

  function Concat(chunks: seq<seq<byte>>): seq<byte>
  {
    if chunks == [] then [] else chunks[0] + Concat(chunks[1..])
  }

  lemma {:induction false} ConcatAppend(chunks: seq<seq<byte>>, last: seq<byte>)
    ensures Concat(chunks + [last]) == Concat(chunks) + last
  {
    if chunks == [] {
      assert [last][1..] == [] && chunks + [last] == [last];
      assert Concat([last]) == last + [];
    } else {
      assert (chunks + [last])[1..] == chunks[1..] + [last];
      ConcatAppend(chunks[1..], last);
    }
  }

  lemma ConcatFront(chunks: seq<seq<byte>>, r: nat)
    requires chunks != [] && r <= |chunks[0]|
    ensures Concat(chunks) == chunks[0][..r] + Concat(chunks[0 := chunks[0][r..]])
  {
    var cut := chunks[0 := chunks[0][r..]];
    assert cut[1..] == chunks[1..];
    assert chunks[0] == chunks[0][..r] + chunks[0][r..];
  }

  class Element {
    var buf: seq<byte>
    var next: Element?

    constructor (b: seq<byte>)
      ensures buf == b && next == null
    {
      buf := b;
      next := null;
    }
  }

  class Buffer {
    var head: Element
    var tail: Element
    var closed: bool
    ghost var spine: seq<Element>      // the elements from head to tail
    ghost var chunks: seq<seq<byte>>   // their slices
    ghost var repr: set<Element>

    ghost predicate Valid()
      reads this, repr
    {
      && |spine| == |chunks| > 0
      && (forall i :: 0 <= i < |spine| ==> spine[i] in repr)
      && head == spine[0] && tail == spine[|spine| - 1]
      && (forall i :: 0 <= i < |spine| - 1 ==> spine[i].next == spine[i + 1])
      && (forall i :: 0 <= i < |spine| ==> spine[i].buf == chunks[i])
      && (forall i, j :: 0 <= i < j < |spine| ==> spine[i] != spine[j])
    }

    ghost function Contents(): seq<byte>
      reads this
    {
      Concat(chunks)
    }

    constructor ()
      ensures Valid() && Contents() == [] && !closed && fresh(repr)
    {
      var e := new Element([]);
      head, tail, closed := e, e, false;
      spine, chunks, repr := [e], [[]], {e};
    }

    method Write(buf: seq<byte>)
      requires Valid()
      modifies this, repr
      ensures Valid() && Contents() == old(Contents()) + buf
      ensures closed == old(closed) && fresh(repr - old(repr))
    {
      var e := new Element(buf);
      tail.next := e;
      tail := e;
      ConcatAppend(chunks, buf);
      spine, chunks, repr := spine + [e], chunks + [buf], repr + {e};
    }

    method Eof()
      requires Valid()
      modifies this
      ensures Valid() && closed && Contents() == old(Contents()) && repr == old(repr)
    {
      closed := true;
    }

    /** Copies up to `limit` bytes out of the first slice. */
    method TakeFromHead(limit: nat) returns (bytes: seq<byte>)
      requires Valid() && limit > 0 && |head.buf| > 0
      modifies head`buf, `chunks
      ensures Valid() && 0 < |bytes| <= limit
      ensures bytes + Contents() == old(Contents())
    {
      var r := if limit < |head.buf| then limit else |head.buf|;
      ConcatFront(chunks, r);
      bytes := head.buf[..r];
      head.buf := head.buf[r..];
      chunks := chunks[0 := chunks[0][r..]];
    }

    /** Makes the next element the first. */
    method AdvanceHead()
      requires Valid() && |head.buf| == 0 && head != tail
      modifies `head, `spine, `chunks
      ensures Valid() && Contents() == old(Contents())
      ensures spine == old(spine)[1..]
    {
      assert |spine| > 1 && spine[0].next == spine[1];
      head := head.next;
      spine, chunks := spine[1..], chunks[1..];
    }

    /** Takes as much as fits in `n` bytes. `timedOut` is what the idle timer reports when there is nothing;
        `WouldWait` stands for the call waiting on its condition variable. */
    method Read(n: nat, timedOut: bool) returns (out: seq<byte>, status: ReadStatus)
      requires Valid()
      modifies this, repr
      ensures Valid() && closed == old(closed) && repr == old(repr)
      ensures out + Contents() == old(Contents())
      ensures |out| == if n < |old(Contents())| then n else |old(Contents())|
      ensures out != [] || n == 0 ==> status == Done
      ensures n > 0 && old(Contents()) == [] ==>
                status == if closed then EndOfFile else if timedOut then TimedOut else WouldWait
    {
      out, status := [], Done;
      var left := n;
      while left > 0
        invariant Valid() && closed == old(closed) && repr == old(repr)
        invariant out + Contents() == old(Contents())
        invariant 0 <= left && |out| + left == n
        invariant status == Done
        decreases left + |spine|
      {
        if |head.buf| > 0 {
          var bytes := TakeFromHead(left);
          out, left := out + bytes, left - |bytes|;
          continue;
        }
        if head != tail {
          AdvanceHead();
          continue;
        }
        OnlyEmpty();
        assert out == old(Contents());
        if |out| > 0 {
          break;
        }
        if closed {
          status := EndOfFile;
        } else if timedOut {
          status := TimedOut;
        } else {
          status := WouldWait;
        }
        break;
      }
      assert |old(Contents())| == |out| + |Contents()|;
    }

    lemma OnlyEmpty()
      requires Valid() && |head.buf| == 0 && head == tail
      ensures Contents() == []
    {
      assert spine[0] == spine[|spine| - 1];
      assert |chunks| == 1 && chunks[0] == spine[0].buf == [];
      assert chunks[1..] == [] && Concat(chunks[1..]) == [];
      assert Concat(chunks) == chunks[0] + Concat(chunks[1..]);
    }
  }
}
