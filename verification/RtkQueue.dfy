/** The intrusive circular list of bt_list.c and the counted queue bt_skbuff.c builds on it. */
module RtkQueues {
  import opened Bytes

  /** What a queued buffer carries: the packet type of its context and its bytes. */
  datatype Skb = Skb(ptype: byte, data: seq<byte>)

  class Node {
    var next: Node
    var prev: Node
    const skb: Skb

    /** ListInitializeHeader: an entry linked to itself. */
    constructor (skb: Skb)
      ensures next == this && prev == this && this.skb == skb
    {
      this.skb := skb;
      next := this;
      prev := this;
    }
  }

  /** The ring that starts and ends at the list head. */
  ghost function Ring(head: Node, nodes: seq<Node>): seq<Node> {
    [head] + nodes + [head]
  }

  ghost predicate Linked(ring: seq<Node>)
    reads ring
  {
    forall i {:trigger ring[i].next} {:trigger ring[i + 1]} :: 0 <= i < |ring| - 1 ==>
      ring[i].next == ring[i + 1] && ring[i + 1].prev == ring[i]
  }

  ghost predicate Distinct(head: Node, nodes: seq<Node>) {
    && head !in nodes
    && forall i, j :: 0 <= i < j < |nodes| ==> nodes[i] != nodes[j]
  }

  ghost predicate IsRing(head: Node, nodes: seq<Node>)
    reads head, nodes
  {
    Distinct(head, nodes) && Linked(Ring(head, nodes))
  }

  lemma RingInsert(head: Node, nodes: seq<Node>, n: Node, k: nat)
    requires Distinct(head, nodes) && n !in nodes && n != head && k <= |nodes|
    ensures var nodes' := nodes[..k] + [n] + nodes[k..];
      && Distinct(head, nodes')
      && |Ring(head, nodes')| == |nodes| + 3
      && forall i :: 0 <= i < |nodes| + 3 ==>
           Ring(head, nodes')[i] == if i <= k then Ring(head, nodes)[i]
                                    else if i == k + 1 then n else Ring(head, nodes)[i - 1]
  {
    var r, nodes' := Ring(head, nodes), nodes[..k] + [n] + nodes[k..];
    assert r[..k + 1] == [head] + nodes[..k] && r[k + 1..] == nodes[k..] + [head];
    assert Ring(head, nodes') == r[..k + 1] + [n] + r[k + 1..];
  }

  lemma RingRemove(head: Node, nodes: seq<Node>, k: nat)
    requires Distinct(head, nodes) && k < |nodes|
    ensures var nodes' := nodes[..k] + nodes[k + 1..];
      && Distinct(head, nodes') && nodes[k] !in nodes'
      && (set x | x in nodes') == (set x | x in nodes) - {nodes[k]}
      && Ring(head, nodes') == Ring(head, nodes)[..k + 1] + Ring(head, nodes)[k + 2..]
  {
    var nodes' := nodes[..k] + nodes[k + 1..];
    forall x | x in nodes && x != nodes[k]
      ensures x in nodes'
    {
      var i :| 0 <= i < |nodes| && nodes[i] == x;
      assert nodes'[if i < k then i else i - 1] == x;
    }
  }

  ghost predicate Carries(nodes: seq<Node>, contents: seq<Skb>) {
    |nodes| == |contents| && forall i :: 0 <= i < |nodes| ==> nodes[i].skb == contents[i]
  }

  lemma CarriesInsert(nodes: seq<Node>, contents: seq<Skb>, n: Node, k: nat)
    requires Carries(nodes, contents) && k <= |nodes|
    ensures Carries(nodes[..k] + [n] + nodes[k..], contents[..k] + [n.skb] + contents[k..])
  {}

  lemma CarriesRemove(nodes: seq<Node>, contents: seq<Skb>, k: nat)
    requires Carries(nodes, contents) && k < |nodes|
    ensures Carries(nodes[..k] + nodes[k + 1..], contents[..k] + contents[k + 1..])
  {}

  lemma NextSuffix<T>(s: seq<T>, r: nat)
    requires r < |s|
    ensures s[r..][1..] == s[r + 1..]
  {}

  lemma FirstOff<T>(s: seq<T>)
    requires s != []
    ensures s[..0] + s[1..] == s[1..] && s == [s[0]] + s[1..]
  {}

  lemma LastOff<T>(s: seq<T>)
    requires s != []
    ensures var k := |s| - 1;
      s[..k] + s[k + 1..] == s[..k] && s == s[..k] + [s[k]]
  {}

  // ----- bt_list.c

  /** ListAdd: link `n` between two consecutive entries. */
  method ListAdd(n: Node, prev: Node, next: Node)
    requires n != prev && n != next
    modifies next`prev, n`next, n`prev, prev`next
    ensures prev.next == n && n.prev == prev
    ensures n.next == next && next.prev == n
  {
    next.prev := n;
    n.next := next;
    n.prev := prev;
    prev.next := n;
  }

  /** ListDeleteNode: its neighbours are linked to each other, and it to itself. */
  method ListDeleteNode(n: Node)
    modifies n.next`prev, n.prev`next, n`next, n`prev
    ensures old(n.next) != n ==> old(n.next).prev == old(n.prev)
    ensures old(n.prev) != n ==> old(n.prev).next == old(n.next)
    ensures n.next == n && n.prev == n
  {
    n.next.prev := n.prev;
    n.prev.next := n.next;
    n.next, n.prev := n, n;
  }

  // ----- the queue

  class RtkQueue {
    const head: Node
    var queueLen: nat
    /** The queued entries, first to last. */
    ghost var nodes: seq<Node>
    /** What they carry. */
    ghost var contents: seq<Skb>
    /** The list head and the queued entries. */
    ghost var entries: set<Node>

    ghost predicate Valid()
      reads this, entries
    {
      && entries == {head} + (set x | x in nodes)
      && IsRing(head, nodes) && queueLen == |nodes| && Carries(nodes, contents)
    }

    /** RtbQueueInit. */
    constructor ()
      ensures Valid() && nodes == [] && contents == [] && entries == {head} && fresh(head)
    {
      head := new Node(Skb(0, []));
      queueLen := 0;
      nodes := [];
      contents := [];
      entries := {head};
    }

    /** RtbQueueIsEmpty. */
    predicate IsEmpty()
      reads this
    {
      queueLen == 0
    }

    lemma NeighboursOf(k: nat)
      requires Valid() && k < |nodes|
      ensures nodes[k].next == (if k == |nodes| - 1 then head else nodes[k + 1])
      ensures nodes[k].prev == (if k == 0 then head else nodes[k - 1])
    {
      var ring := Ring(head, nodes);
      assert ring[k + 1] == nodes[k];
      assert ring[k].next == ring[k + 1];
      assert ring[k + 1].next == ring[k + 2];
    }

    lemma Second()
      requires Valid()
      ensures nodes != [] ==>
        nodes[0] != head && nodes[0].next == if |nodes| == 1 then head else nodes[1]
    {
      if nodes != [] {
        NeighboursOf(0);
      }
    }

    lemma Ends()
      requires Valid()
      ensures head.next == (if nodes == [] then head else nodes[0])
      ensures head.prev == (if nodes == [] then head else nodes[|nodes| - 1])
    {
      var ring := Ring(head, nodes);
      assert ring[0].next == ring[1];
      assert ring[|nodes|].next == ring[|nodes| + 1];
    }

    /** Both kinds of insertion: link `n` in front of the entry at position `k` (the list head when
        `k` is the length), whose neighbours the caller found. */
    method Insert(n: Node, prev: Node, next: Node, ghost k: nat)
      requires Valid() && n !in entries && k <= |nodes|
      requires prev == Ring(head, nodes)[k] && next == Ring(head, nodes)[k + 1]
      modifies `queueLen, `nodes, `contents, `entries, entries`next, entries`prev, n`next, n`prev
      ensures Valid()
      ensures nodes == old(nodes)[..k] + [n] + old(nodes)[k..]
      ensures contents == old(contents)[..k] + [n.skb] + old(contents)[k..]
      ensures entries == old(entries) + {n}
    {
      ghost var ring := Ring(head, nodes);
      ghost var nodes' := nodes[..k] + [n] + nodes[k..];
      RingInsert(head, nodes, n, k);
      CarriesInsert(nodes, contents, n, k);
      ListAdd(n, prev, next);
      queueLen := queueLen + 1;
      nodes := nodes';
      contents := contents[..k] + [n.skb] + contents[k..];
      entries := entries + {n};
      assert Linked(Ring(head, nodes)) by {
        forall i | 0 <= i <= |nodes|
          ensures Ring(head, nodes)[i].next == Ring(head, nodes)[i + 1]
          ensures Ring(head, nodes)[i + 1].prev == Ring(head, nodes)[i]
        {
          if i < k {
            assert ring[i].next == ring[i + 1];
          } else if i > k + 1 {
            assert ring[i - 1].next == ring[i];
          }
        }
      }
    }

    /** RtbRemoveNode. */
    method RemoveNode(n: Node, ghost k: nat)
      requires Valid() && k < |nodes| && n == nodes[k]
      modifies `queueLen, `nodes, `contents, `entries, entries`next, entries`prev
      ensures Valid()
      ensures nodes == old(nodes)[..k] + old(nodes)[k + 1..]
      ensures contents == old(contents)[..k] + old(contents)[k + 1..]
      ensures entries == old(entries) - {n} && n != head
      ensures n.next == n && n.prev == n
    {
      ghost var ring := Ring(head, nodes);
      NeighboursOf(k);
      RingRemove(head, nodes, k);
      CarriesRemove(nodes, contents, k);
      queueLen := queueLen - 1;
      ListDeleteNode(n);
      nodes := nodes[..k] + nodes[k + 1..];
      contents := contents[..k] + contents[k + 1..];
      entries := entries - {n};
      ghost var ring' := Ring(head, nodes);
      forall i | 0 <= i < |ring'| - 1
        ensures ring'[i].next == ring'[i + 1] && ring'[i + 1].prev == ring'[i]
      {
        if i < k {
          assert ring[i].next == ring[i + 1];
        } else if i > k {
          assert ring[i + 1].next == ring[i + 2];
        }
      }
    }

    method RemoveFirst(n: Node)
      requires Valid() && nodes != [] && n == nodes[0]
      modifies `queueLen, `nodes, `contents, `entries, entries`next, entries`prev
      ensures Valid()
      ensures nodes == old(nodes)[1..] && contents == old(contents)[1..]
      ensures entries == old(entries) - {n} && n != head
    {
      FirstOff(nodes);
      FirstOff(contents);
      RemoveNode(n, 0);
    }

    /** RtbQueueTail. */
    method QueueTail(n: Node)
      requires Valid() && n !in entries
      modifies `queueLen, `nodes, `contents, `entries, entries`next, entries`prev, n`next, n`prev
      ensures Valid() && nodes == old(nodes) + [n] && contents == old(contents) + [n.skb]
      ensures entries == old(entries) + {n}
    {
      Ends();
      Insert(n, head.prev, head, |nodes|);
    }

    /** RtbQueueHead. */
    method QueueHead(n: Node)
      requires Valid() && n !in entries
      modifies `queueLen, `nodes, `contents, `entries, entries`next, entries`prev, n`next, n`prev
      ensures Valid() && nodes == [n] + old(nodes) && contents == [n.skb] + old(contents)
      ensures entries == old(entries) + {n}
    {
      Ends();
      Insert(n, head, head.next, 0);
    }

    /** RtbInsertBefore: `n` goes directly in front of `pos`. */
    method InsertBefore(pos: Node, n: Node, ghost k: nat)
      requires Valid() && n !in entries && k < |nodes| && pos == nodes[k]
      modifies `queueLen, `nodes, `contents, `entries, entries`next, entries`prev, n`next, n`prev
      ensures Valid() && nodes == old(nodes)[..k] + [n] + old(nodes)[k..]
      ensures contents == old(contents)[..k] + [n.skb] + old(contents)[k..]
      ensures entries == old(entries) + {n}
    {
      NeighboursOf(k);
      Insert(n, pos.prev, pos, k);
    }

    /** RtbDequeueHead. */
    method DequeueHead() returns (n: Node?)
      requires Valid()
      modifies `queueLen, `nodes, `contents, `entries, entries`next, entries`prev
      ensures Valid()
      ensures n == null <==> old(contents) == []
      ensures n == null ==> nodes == old(nodes) && contents == [] && entries == old(entries)
      ensures n != null ==> old(nodes) == [n] + nodes && n in old(entries) && entries == old(entries) - {n}
      ensures n != null ==> n.skb == old(contents)[0] && contents == old(contents)[1..]
    {
      if IsEmpty() {
        return null;
      }
      Ends();
      FirstOff(nodes);
      n := head.next;
      RemoveFirst(n);
    }

    /** RtbDequeueTail. */
    method DequeueTail() returns (n: Node?)
      requires Valid()
      modifies `queueLen, `nodes, `contents, `entries, entries`next, entries`prev
      ensures Valid()
      ensures n == null <==> old(contents) == []
      ensures n == null ==> nodes == old(nodes) && contents == [] && entries == old(entries)
      ensures n != null ==> old(nodes) == nodes + [n] && n in old(entries) && entries == old(entries) - {n}
      ensures n != null ==>
        var k := |old(contents)| - 1;
        n.skb == old(contents)[k] && contents == old(contents)[..k]
    {
      if IsEmpty() {
        return null;
      }
      Ends();
      LastOff(nodes);
      LastOff(contents);
      n := head.prev;
      RemoveNode(n, |nodes| - 1);
    }

    /** RtbTopQueue. */
    method TopQueue() returns (n: Node?)
      requires Valid()
      ensures n == if nodes == [] then null else nodes[0]
    {
      if IsEmpty() {
        return null;
      }
      Ends();
      n := head.next;
    }

    /** RtbNodeIsLast. */
    method NodeIsLast(n: Node) returns (last: bool)
      requires Valid() && n != head
      ensures last <==> nodes != [] && n == nodes[|nodes| - 1]
    {
      Ends();
      last := head.prev == n;
    }

    /** RtbQueueNextNode. */
    method NextNode(n: Node, ghost k: nat) returns (m: Node?)
      requires Valid() && k < |nodes| && n == nodes[k]
      ensures m == if k == |nodes| - 1 then null else nodes[k + 1]
    {
      Ends();
      NeighboursOf(k);
      if head.prev == n {
        return null;
      }
      m := n.next;
    }

    /** RtbEmptyQueue. */
    method EmptyQueue()
      requires Valid()
      modifies `queueLen, `nodes, `contents, `entries, entries`next, entries`prev
      ensures Valid() && nodes == [] && contents == [] && entries <= old(entries)
    {
      while !IsEmpty()
        invariant Valid() && entries <= old(entries)
        decreases queueLen
      {
        Ends();
        RemoveFirst(head.next);
      }
    }

    /** The safe iteration of h5_remove_acked_pkt: walk the ring with the successor saved before
        the current entry is unlinked, and stop after `count` removals. */
    method RemovePrefix(count: nat) returns (removed: nat)
      requires Valid()
      modifies `queueLen, `nodes, `contents, `entries, entries`next, entries`prev
      ensures Valid()
      ensures removed == if count <= |old(nodes)| then count else |old(nodes)|
      ensures nodes == old(nodes)[removed..] && contents == old(contents)[removed..]
      ensures entries <= old(entries)
    {
      removed := 0;
      Ends();
      var iter := head.next;
      Second();
      var temp := iter.next;
      while iter != head
        invariant Valid() && removed <= |old(nodes)| && removed <= count
        invariant nodes == old(nodes)[removed..] && contents == old(contents)[removed..]
        invariant entries <= old(entries)
        invariant iter == if nodes == [] then head else nodes[0]
        invariant nodes != [] ==> temp == if |nodes| == 1 then head else nodes[1]
        decreases |nodes|
      {
        if removed >= count {
          break;
        }
        NextSuffix(old(nodes), removed);
        NextSuffix(old(contents), removed);
        RemoveFirst(iter);
        removed := removed + 1;
        iter := temp;
        Second();
        temp := iter.next;
      }
    }
  }
}
