/** The headroom/tail byte buffer of bt_skbuff.c: a bounded deque of bytes inside one
    allocation. Pointers are offsets from the start of the allocation. */
module RtkBuffers {
  import opened Bytes

  const DEFAULT_HEADER_SIZE: nat := 12

  class RtkBuffer {
    var head: array<byte>
    var data: nat
    var end: nat
    var tail: nat
    var length: nat
    var headRoom: nat

    ghost predicate Valid()
      reads this
    {
      && data <= end <= tail <= head.Length
      && length == end - data
      && headRoom == data
    }

    ghost function Content(): seq<byte>
      reads this, head
      requires Valid()
    {
      head[data..end]
    }

    ghost function TailRoom(): nat
      reads this
      requires Valid()
    {
      tail - end
    }

    /** RtbAllocate: `room` bytes at the tail, and `headRoom` (12 when 0 is asked for) before. */
    constructor (room: nat, reserve: nat)
      ensures Valid() && fresh(head)
      ensures Content() == [] && TailRoom() == room
      ensures headRoom == if reserve == 0 then 12 else reserve
    {
      var h := if reserve != 0 then reserve else DEFAULT_HEADER_SIZE;
      head := new byte[(room + h + 3) / 4 * 4];
      headRoom, data, end, tail, length := h, h, h, h + room, 0;
    }

    /** Grows the content at the front; refused exactly when the headroom is too small. What the
        new bytes hold is what the headroom held. */
    method AddHead(n: nat) returns (start: int)
      requires Valid()
      modifies `data, `length, `headRoom
      ensures Valid()
      ensures start == -1 <==> n > old(headRoom)
      ensures start == -1 ==> unchanged(this)
      ensures start != -1 ==>
        && start == data && headRoom == old(headRoom) - n
        && Content() == head[data..data + n] + old(Content())
    {
      if data >= n {
        data, length, headRoom := data - n, length + n, headRoom - n;
        return data;
      }
      return -1;
    }

    /** Drops the first `n` bytes of the content into the headroom. */
    method RemoveHead(n: nat) returns (ok: bool)
      requires Valid()
      modifies `data, `length, `headRoom
      ensures Valid()
      ensures ok <==> n <= |old(Content())|
      ensures !ok ==> unchanged(this)
      ensures ok ==> Content() == old(Content())[n..] && headRoom == old(headRoom) + n
    {
      if length >= n {
        data, length, headRoom := data + n, length - n, headRoom + n;
        return true;
      }
      return false;
    }

    /** Grows the content at the back; refused exactly when the tail room is too small. */
    method AddTail(n: nat) returns (start: int)
      requires Valid()
      modifies `end, `length
      ensures Valid()
      ensures start == -1 <==> n > old(TailRoom())
      ensures start == -1 ==> unchanged(this)
      ensures start != -1 ==>
        && start == old(end) && TailRoom() == old(TailRoom()) - n
        && Content() == old(Content()) + head[start..start + n]
    {
      if tail - end >= n {
        start := end;
        end, length := end + n, length + n;
        return;
      }
      return -1;
    }

    /** Drops the last `n` bytes of the content. */
    method RemoveTail(n: nat) returns (ok: bool)
      requires Valid()
      modifies `end, `length
      ensures Valid()
      ensures ok <==> n <= |old(Content())|
      ensures !ok ==> unchanged(this)
      ensures ok ==>
        && Content() == old(Content())[..|old(Content())| - n]
        && TailRoom() == old(TailRoom()) + n
    {
      ghost var was := Content();
      if end - data >= n {
        end, length := end - n, length - n;
        assert Content() == was[..|was| - n];
        return true;
      }
      return false;
    }

    /** The skb_put of one byte: reserve it at the tail and copy it in. When it does not fit, the
        copy goes to a null destination and nothing changes. */
    method Put(b: byte)
      requires Valid()
      modifies `end, `length, head
      ensures Valid()
      ensures old(TailRoom()) == 0 ==> unchanged(this) && unchanged(head)
      ensures old(TailRoom()) > 0 ==>
        Content() == old(Content()) + [b] && TailRoom() == old(TailRoom()) - 1
    {
      ghost var was := Content();
      var p := AddTail(1);
      if p != -1 {
        head[p] := b;
        assert head[data..p] == was;
      }
    }
  }
}
