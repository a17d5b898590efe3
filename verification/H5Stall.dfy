/** When the transport keeps back what it may send. h5_wake_up runs when something is queued and when
    a reliable packet arrives, but before the acknowledgement in a packet is processed; so what an
    acknowledgement admits to the window, or a config response does, is left. */
module H5Stall {
  import opened Bytes
  import opened Frames
  import opened RtkQueues
  import opened Transport
  import opened H5Model
  import H5Receiver
  import opened H5Link

  // ----- exactly what is left

  lemma WakeUpLeavesNothing(tx: Tx)
    requires TxOk(tx)
    ensures Dequeue(WakeUp(tx)).None?
  {
    WakeUpIsDrained(tx);
  }

  lemma SendCtlLeavesNothing(c: Core, msg: seq<byte>)
    requires CoreOk(c)
    ensures Dequeue(SendCtl(c, msg).tx).None?
  {
    WakeUpLeavesNothing(Transport.Enqueue(c.tx, Skb(LINK_CTL_PKT, msg)));
  }

  /** The sender when the acknowledgement in a packet is about to be processed. */
  function Woken(c: Core, h: seq<byte>): (tx: Tx)
    requires CoreOk(c) && |h| == 4
    ensures TxOk(tx)
  {
    if HdrReliable(h) then WakeUp(Accept(c.tx, HdrSeq(h))) else c.tx
  }

  lemma NumberedLeaves(c: Core, h: seq<byte>)
    requires CoreOk(c) && |h| == 4 && Dequeue(c.tx).None?
    ensures var t, n := Woken(c, h), Numbered(c, h).tx;
      && n.unrel == [] && !n.ackReq && n.rel == t.rel && n.window == t.window
      && |n.unack| == |t.unack| - AckedCount(t, HdrAck(h))
      && (Dequeue(n).Some? <==> n.rel != [] && |n.unack| < n.window)
  {
    if HdrReliable(h) {
      WakeUpIsDrained(Accept(c.tx, HdrSeq(h)));
    }
  }

  lemma ControlLeaves(c: Core, data: seq<byte>)
    requires CoreOk(c) && c.tx.unrel == [] && !c.tx.ackReq
    ensures var d := ProcessCtl(c, data);
      Dequeue(d.tx).Some? <==> !Answerable(c, data) && c.tx.rel != [] && |c.tx.unack| < d.tx.window
  {
    SendCtlLeavesNothing(c, SYNC_RESP);
    SendCtlLeavesNothing(c, CONF_RESP);
    SendCtlLeavesNothing(c.(syncCount := 0, link := Initialized), CONF_REQ);
    SendCtlLeavesNothing(SendCtl(c.(hwErrors := c.hwErrors + 1), SYNC_RESP).(link := Uninitialized), SYNC_REQ);
  }

  /** The exact condition. If nothing could be sent before a packet was completed, something can be
      sent afterwards - and is not - if and only if reliable packets wait, fewer are outstanding than
      the window admits once the acknowledgement is processed, and the packet is not a control packet
      that is answered. */
  lemma WhatIsLeft(c: Core, h: seq<byte>, data: seq<byte>)
    requires CoreOk(c) && |h| == 4 && Dequeue(c.tx).None?
    ensures var t, d := Woken(c, h), Complete(c, h, data);
      Dequeue(d.tx).Some? <==>
        && t.rel != [] && |t.unack| - AckedCount(t, HdrAck(h)) < d.tx.window
        && !(HdrType(h) == LINK_CTL_PKT && Answerable(Numbered(c, h), data))
    ensures var t, d := Woken(c, h), Complete(c, h, data);
      HdrType(h) != LINK_CTL_PKT ==> d.tx.window == t.window
  {
    var n := Numbered(c, h);
    NumberedLeaves(c, h);
    if HdrType(h) == LINK_CTL_PKT {
      ControlLeaves(n, data);
    } else {
      DeliveryKeepsTx(c, h, data);
    }
  }

  /** A bare acknowledgement sends nothing, even when it opens the window. */
  lemma AcknowledgementAloneSendsNothing(c: Core, h: seq<byte>, data: seq<byte>)
    requires CoreOk(c) && |h| == 4 && !HdrReliable(h) && HdrType(h) == ACK_PKT
    ensures var d := Complete(c, h, data);
      && d.tx.log == c.tx.log && d.tx.rel == c.tx.rel && d.tx.unack == RemoveAcked(c.tx, HdrAck(h)).unack
      && (Dequeue(c.tx).None? ==>
            (Dequeue(d.tx).Some? <==>
               c.tx.rel != [] && |c.tx.unack| - AckedCount(c.tx, HdrAck(h)) < c.tx.window))
  {
    if Dequeue(c.tx).None? {
      WhatIsLeft(c, h, data);
    }
  }

  /** Nothing but a completed packet leaves anything: not a refused one, no other byte, no packet from
      the stack and no timer. */
  lemma OnlyCompletionLeaves(ep: Ep, i: Input)
    requires EpOk(ep) && Dequeue(ep.core.tx).None? && Dequeue(Next(ep, i).core.tx).Some?
    ensures i.Byte? && RxByte(ep.rx, ep.core.tx.expected, i.b).event.Completed?
  {
    var c := ep.core;
    match i
    case Byte(b) => WakeUpLeavesNothing(c.tx.(ackReq := true));
    case Packet(skb) => WakeUpLeavesNothing(Transport.Enqueue(c.tx, skb));
    case SyncCommand => SendCtlLeavesNothing(c, SYNC_REQ);
    case SyncTimer => SendCtlLeavesNothing(c, SYNC_REQ);
    case ConfTimer => SendCtlLeavesNothing(c, CONF_REQ);
    case DataTimer(_) => WakeUpLeavesNothing(Rewind(c.tx));
    case BaudrateTimer =>
  }

  // ----- a run that gets there

  function AsBytes(s: seq<byte>): (run: seq<Input>)
    ensures |run| == |s|
  {
    seq(|s|, i requires 0 <= i < |s| => Byte(s[i]))
  }

  lemma {:induction false} RunBytes(ep: Ep, s: seq<byte>)
    requires EpOk(ep)
    ensures Run(ep, AsBytes(s)) == Recv(ep, s)
    decreases |s|
  {
    if s != [] {
      var n := |s| - 1;
      assert AsBytes(s)[..n] == AsBytes(s[..n]);
      RunBytes(ep, s[..n]);
    }
  }

  lemma {:induction false} RunThen(ep: Ep, a: seq<Input>, b: seq<Input>)
    requires EpOk(ep)
    ensures Run(ep, a + b) == Run(Run(ep, a), b)
    decreases |b|
  {
    if b == [] {
      assert a + b == a;
    } else {
      assert (a + b)[..|a + b| - 1] == a + b[..|b| - 1];
      RunThen(ep, a, b[..|b| - 1]);
    }
  }

  /** An unreliable frame on the wire, as inputs. */
  function FrameInputs(ptype: byte, ack: nat, data: seq<byte>): seq<Input>
    requires ptype < 16 && ack < 8 && |data| <= MAX_PAYLOAD
  {
    AsBytes(Encode(false, Frame(false, 0, ack, false, ptype, data)))
  }

  lemma FrameRun(ep: Ep, ptype: byte, ack: nat, data: seq<byte>)
    requires EpOk(ep) && Between(ep.rx) && ptype < 16 && ack < 8 && |data| <= MAX_PAYLOAD
    ensures var h, r := Header(Frame(false, 0, ack, false, ptype, data)), Run(ep, FrameInputs(ptype, ack, data));
      && H5Receiver.AtStart(r.rx) && r.core == Complete(ep.core, h, data)
      && !HdrReliable(h) && HdrAck(h) == ack && HdrType(h) == ptype
  {
    var f := Frame(false, 0, ack, false, ptype, data);
    RunBytes(ep, Encode(false, f));
    H5Receiver.FrameFate(ep, false, Plain(f));
    H5Receiver.FrameVerdict(ep.core.tx.expected, f);
    H5Receiver.OpenBetweenPackets(ep);
    HeaderFields(f);
  }

  /** Nothing waits to be sent but what is in `rel`, nothing is owed, and no timeout was counted. */
  predicate Holds(c: Core, link: LinkState, window: nat, rel: seq<Skb>, unack: seq<Skb>, txseq: nat) {
    && CoreOk(c) && c.link == link && c.retransCount == 0
    && (c.tx.window, c.tx.unrel, c.tx.ackReq, c.tx.rel, c.tx.unack, c.tx.txseq)
    == (window, [], false, rel, unack, txseq)
  }

  /** No reliable packet may be sent. */
  predicate Shut(window: nat, rel: seq<Skb>, unack: seq<Skb>) {
    rel == [] || window <= |unack|
  }

  /** A control packet is sent, and nothing else. */
  lemma CtlHolds(c: Core, msg: seq<byte>, link: LinkState, w: nat, rel: seq<Skb>, unack: seq<Skb>, k: nat)
    requires Holds(c, link, w, rel, unack, k) && Shut(w, rel, unack) && |msg| <= MAX_PAYLOAD
    ensures Holds(SendCtl(c, msg), link, w, rel, unack, k)
  {
    var tx := Transport.Enqueue(c.tx, Skb(LINK_CTL_PKT, msg));
    assert tx.rel == rel && tx.unack == unack && Opening(tx) == 0;
    WakeUpIsDrained(tx);
    DrainedNone(tx);
  }

  /** A control packet that acknowledges nothing arrives. */
  predicate Speaks(c: Core, h: seq<byte>) {
    |h| == 4 && !HdrReliable(h) && HdrType(h) == LINK_CTL_PKT && AckedCount(c.tx, HdrAck(h)) == 0
  }

  lemma NumberedHolds(c: Core, h: seq<byte>, link: LinkState, w: nat, rel: seq<Skb>, unack: seq<Skb>, k: nat)
    requires Holds(c, link, w, rel, unack, k) && Speaks(c, h)
    ensures Holds(Numbered(c, h), link, w, rel, unack, k)
  {
    assert unack[0..] == unack;
  }

  lemma Synchronised(c: Core, h: seq<byte>, w: nat, rel: seq<Skb>, unack: seq<Skb>, k: nat)
    requires Holds(c, Uninitialized, w, rel, unack, k) && Speaks(c, h) && Shut(w, rel, unack)
    ensures Holds(Complete(c, h, SYNC_RESP), Initialized, w, rel, unack, k)
  {
    NumberedHolds(c, h, Uninitialized, w, rel, unack, k);
    CtlHolds(Numbered(c, h).(syncCount := 0, link := Initialized), CONF_REQ, Initialized, w, rel, unack, k);
  }

  lemma Activated(c: Core, h: seq<byte>, w: byte, was: nat, rel: seq<Skb>, unack: seq<Skb>, k: nat)
    requires Holds(c, Initialized, was, rel, unack, k) && Speaks(c, h) && w < 8
    ensures Holds(Complete(c, h, CONF_RESP + [w]), Active, w, rel, unack, k)
  {
    var data := CONF_RESP + [w];
    assert data[0] == 0x04 && data[1] == 0x7b && data[2] == w;
    NumberedHolds(c, h, Initialized, was, rel, unack, k);
  }

  lemma SentNext(c: Core, skb: Skb, w: nat, unack: seq<Skb>, k: nat)
    requires Holds(c, Active, w, [], unack, k) && |unack| < w
    requires skb.ptype == ACL_PKT && |skb.data| <= MAX_PAYLOAD
    ensures Holds(Send(c, skb), Active, w, [], unack + [skb], (k + 1) % 8)
  {
    var tx := Transport.Enqueue(c.tx, skb);
    assert tx.rel == [skb] && [skb][1..] == [];
    WakeUpIsDrained(tx);
    DrainedOne(tx);
  }

  lemma NextWaits(c: Core, skb: Skb, w: nat, unack: seq<Skb>, k: nat)
    requires Holds(c, Active, w, [], unack, k) && w <= |unack|
    requires skb.ptype == ACL_PKT && |skb.data| <= MAX_PAYLOAD
    ensures Holds(Send(c, skb), Active, w, [skb], unack, k)
  {
    assert Transport.Enqueue(c.tx, skb).rel == [skb];
  }

  lemma Acked(c: Core, h: seq<byte>, first: Skb, skb: Skb)
    requires Holds(c, Active, 1, [skb], [first], 1) && |h| == 4
    requires !HdrReliable(h) && HdrType(h) == ACK_PKT && HdrAck(h) == 1
    ensures Holds(Complete(c, h, []), Active, 1, [skb], [], 1) && Complete(c, h, []).retransCount == 0
    ensures Complete(c, h, []).tx.log == c.tx.log
  {
    assert AckedCount(c.tx, 1) == 1;
    assert [first][1..] == [];
  }

  lemma LinkUp(stale: seq<byte>, w: byte) returns (run: seq<Input>)
    requires |stale| == 8 && w < 8
    ensures var e := Run(Init(stale), run); Between(e.rx) && Holds(e.core, Active, w, [], [], 0)
  {
    var e0 := Init(stale);
    var r1 := FrameInputs(LINK_CTL_PKT, 0, SYNC_RESP);
    FrameRun(e0, LINK_CTL_PKT, 0, SYNC_RESP);
    Synchronised(e0.core, Header(Frame(false, 0, 0, false, LINK_CTL_PKT, SYNC_RESP)), 0, [], [], 0);
    var r2 := FrameInputs(LINK_CTL_PKT, 0, CONF_RESP + [w]);
    FrameRun(Run(e0, r1), LINK_CTL_PKT, 0, CONF_RESP + [w]);
    Activated(Run(e0, r1).core, Header(Frame(false, 0, 0, false, LINK_CTL_PKT, CONF_RESP + [w])), w, 0, [], [], 0);
    run := r1 + r2;
    RunThen(e0, r1, r2);
  }

  lemma RunTwo(ep: Ep, i: Input, j: Input)
    requires EpOk(ep)
    ensures Run(ep, [i, j]) == Next(Next(ep, i), j)
  {
    assert [] + [i] == [i] && [i] + [j] == [i, j];
    RunLast(ep, [], i);
    RunLast(ep, [i], j);
  }

  lemma TwoQueued(ep: Ep, first: Skb, second: Skb) returns (run: seq<Input>)
    requires Between(ep.rx) && Holds(ep.core, Active, 1, [], [], 0) && EpOk(ep)
    requires first.ptype == ACL_PKT && |first.data| <= MAX_PAYLOAD
    requires second.ptype == ACL_PKT && |second.data| <= MAX_PAYLOAD
    ensures var e := Run(ep, run); Between(e.rx) && Holds(e.core, Active, 1, [second], [first], 1)
  {
    SentNext(ep.core, first, 1, [], 0);
    assert [] + [first] == [first];
    NextWaits(Send(ep.core, first), second, 1, [first], 1);
    run := [Packet(first), Packet(second)];
    RunTwo(ep, Packet(first), Packet(second));
  }

  /** The stalled state is reached from initialisation: the link comes up with a window of one, the
      stack hands over two packets, the first is sent and acknowledged. Then the second may be sent
      and is not, and since nothing is outstanding the retransmission timer does not run either. */
  lemma StallReached(stale: seq<byte>, first: Skb, second: Skb) returns (run: seq<Input>)
    requires |stale| == 8
    requires first.ptype == ACL_PKT && |first.data| <= MAX_PAYLOAD
    requires second.ptype == ACL_PKT && |second.data| <= MAX_PAYLOAD
    ensures var c := Run(Init(stale), run).core;
      && c.link == Active && c.tx.window == 1 && c.tx.rel == [second] && c.tx.unack == []
      && Dequeue(c.tx).Some?
  {
    var e0 := Init(stale);
    var r1 := LinkUp(stale, 1);
    var r2 := TwoQueued(Run(e0, r1), first, second);
    RunThen(e0, r1, r2);
    var e := Run(e0, r1 + r2);
    var r3 := FrameInputs(ACK_PKT, 1, []);
    FrameRun(e, ACK_PKT, 1, []);
    Acked(e.core, Header(Frame(false, 0, 1, false, ACK_PKT, [])), first, second);
    run := r1 + r2 + r3;
    RunThen(e0, r1 + r2, r3);
  }

  lemma RunLast(ep: Ep, a: seq<Input>, i: Input)
    requires EpOk(ep)
    ensures Run(ep, a + [i]) == Next(Run(ep, a), i)
  {
    assert (a + [i])[..|a|] == a;
  }
}
