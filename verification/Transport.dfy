/** The sending half of the H5 transport as values: three queues, the three-bit sequence
    counters, and the packets handed to the UART. Sections 5 and 6 of Core Specification
    Vol 4 Part D. */
module Transport {
  import opened Frames
  import opened Option
  import opened RtkQueues

  /** A frame handed to the UART, with the flow-control setting it was stuffed under. */
  datatype Sent = Sent(oof: bool, frame: Frame)

  datatype Tx = Tx(
    unrel: seq<Skb>,
    rel: seq<Skb>,
    unack: seq<Skb>,
    txseq: nat,
    expected: nat,
    ackReq: bool,
    window: nat,
    useCrc: bool,
    oof: bool,
    log: seq<Sent>)

  predicate Unreliables(s: seq<Skb>) {
    forall i :: 0 <= i < |s| ==> IsUnreliable(s[i].ptype) && |s[i].data| <= MAX_PAYLOAD
  }

  predicate Reliables(s: seq<Skb>) {
    forall i :: 0 <= i < |s| ==> IsReliable(s[i].ptype) && |s[i].data| <= MAX_PAYLOAD
  }

  predicate TxOk(tx: Tx) {
    && tx.txseq < 8 && tx.expected < 8 && tx.window < 8 && |tx.unack| <= 7
    && Unreliables(tx.unrel) && Reliables(tx.rel) && Reliables(tx.unack)
  }

  // ----- one operation each

  /** The header h5_prepare_pkt gives a packet. */
  function FrameOf(tx: Tx, skb: Skb): Frame {
    var rel := IsReliable(skb.ptype);
    Frame(rel, if rel then tx.txseq else 0, tx.expected, tx.useCrc, skb.ptype, skb.data)
  }

  /** What h5_prepare_pkt does to the counters. */
  function Prepared(tx: Tx, skb: Skb): Tx {
    tx.(ackReq := false, txseq := if IsReliable(skb.ptype) then (tx.txseq + 1) % 8 else tx.txseq)
  }

  const ACK_SKB := Skb(ACK_PKT, [])

  /** h5_dequeue: unreliable packets first, then a reliable one if the window is open, then a bare
      acknowledgement if one is owed. */
  function Dequeue(tx: Tx): Option<(Tx, Frame)> {
    if tx.unrel != [] then
      Some((Prepared(tx.(unrel := tx.unrel[1..]), tx.unrel[0]), FrameOf(tx, tx.unrel[0])))
    else if |tx.unack| < tx.window && tx.rel != [] then
      Some((Prepared(tx.(rel := tx.rel[1..], unack := tx.unack + [tx.rel[0]]), tx.rel[0]),
            FrameOf(tx, tx.rel[0])))
    else if tx.ackReq then
      Some((Prepared(tx, ACK_SKB), FrameOf(tx, ACK_SKB)))
    else
      None
  }

  /** Sending a frame keeps the invariant and uses something up. */
  lemma DequeueKeeps(tx: Tx)
    requires TxOk(tx)
    ensures Dequeue(tx).Some? ==>
      var (next, f) := Dequeue(tx).value;
      && TxOk(next) && Sendable(f) && next.oof == tx.oof && next.log == tx.log
      && Backlog(next) < Backlog(tx)
  {
    if tx.unrel != [] {
      assert IsUnreliable(tx.unrel[0].ptype);
    } else if |tx.unack| < tx.window && tx.rel != [] {
      assert IsReliable(tx.rel[0].ptype);
    }
  }

  function Backlog(tx: Tx): nat {
    |tx.unrel| + |tx.rel| + (if tx.ackReq then 1 else 0)
  }

  function Emit(tx: Tx, f: Frame): Tx {
    tx.(log := tx.log + [Sent(tx.oof, f)])
  }

  /** h5_wake_up: send until there is nothing to send. */
  function WakeUp(tx: Tx): (t: Tx)
    requires TxOk(tx)
    ensures TxOk(t)
    decreases Backlog(tx)
  {
    match Dequeue(tx)
    case None => tx
    case Some((next, f)) => WakeUp(Emit(next, f))
  }

  /** h5_enqueue: overlong packets and packets of other types are dropped. */
  function Enqueue(tx: Tx, skb: Skb): (t: Tx)
    ensures TxOk(tx) ==> TxOk(t)
  {
    if |skb.data| > MAX_PAYLOAD then tx
    else if skb.ptype == ACL_PKT || skb.ptype == COMMAND_PKT then tx.(rel := tx.rel + [skb])
    else if IsUnreliable(skb.ptype) then tx.(unrel := tx.unrel + [skb])
    else tx
  }

  /** h5_remove_acked_pkt in closed form: with d = txseq - ack (mod 8), all but the last d
      outstanding packets are acknowledged; nothing is when there are no more than d. */
  function RemoveAcked(tx: Tx, ack: nat): (t: Tx)
    ensures TxOk(tx) ==> TxOk(t)
  {
    tx.(unack := tx.unack[AckedCount(tx, ack)..])
  }

  function AckedCount(tx: Tx, ack: nat): (n: nat)
    ensures n <= |tx.unack|
  {
    var d := (tx.txseq - ack) % 8;
    if d < |tx.unack| then |tx.unack| - d else 0
  }

  /** The timeout in data_retransfer_thread: all outstanding packets go back to the front of the
      reliable queue, and the sequence number with them. */
  function Rewind(tx: Tx): (t: Tx)
    ensures TxOk(tx) ==> TxOk(t)
  {
    tx.(rel := tx.unack + tx.rel, unack := [], txseq := (tx.txseq - |tx.unack|) % 8)
  }

  /** A reliable packet with sequence number `seqno` was accepted. */
  function Accept(tx: Tx, seqno: nat): (t: Tx)
    ensures TxOk(tx) ==> TxOk(t)
  {
    tx.(expected := (seqno + 1) % 8, ackReq := true)
  }

  // ----- what a whole wake-up sends

  function Opening(tx: Tx): nat {
    var room := if |tx.unack| < tx.window then tx.window - |tx.unack| else 0;
    if |tx.rel| < room then |tx.rel| else room
  }

  /** Frames for `skbs` in order, the reliable ones numbered consecutively from `seqno`. */
  function Burst(oof: bool, seqno: nat, ack: nat, crc: bool, skbs: seq<Skb>): (s: seq<Sent>)
    ensures |s| == |skbs|
    decreases |skbs|
  {
    if skbs == [] then []
    else
      var rel := IsReliable(skbs[0].ptype);
      [Sent(oof, Frame(rel, if rel then seqno else 0, ack, crc, skbs[0].ptype, skbs[0].data))]
      + Burst(oof, if rel then (seqno + 1) % 8 else seqno, ack, crc, skbs[1..])
  }

  function BurstOf(tx: Tx, skbs: seq<Skb>): seq<Sent> {
    Burst(tx.oof, tx.txseq, tx.expected, tx.useCrc, skbs)
  }

  function BareAck(tx: Tx): seq<Sent> {
    if tx.ackReq && tx.unrel == [] && Opening(tx) == 0
    then [Sent(tx.oof, Frame(false, 0, tx.expected, tx.useCrc, ACK_PKT, []))]
    else []
  }

  /** The unreliable packets in order, then as many reliable ones as the window admits, numbered
      consecutively from `txseq`, every one acknowledging `expected`; a bare acknowledgement only
      when one is owed and nothing else carries it. */
  function SentBy(tx: Tx): seq<Sent> {
    BurstOf(tx, tx.unrel) + BurstOf(tx, tx.rel[..Opening(tx)]) + BareAck(tx)
  }

  function Drained(tx: Tx): Tx {
    var n := Opening(tx);
    tx.(unrel := [], rel := tx.rel[n..], unack := tx.unack + tx.rel[..n],
        txseq := (tx.txseq + n) % 8, ackReq := false, log := tx.log + SentBy(tx))
  }

  lemma {:induction false} BurstAt(oof: bool, seqno: nat, ack: nat, crc: bool, skbs: seq<Skb>, i: nat)
    requires seqno < 8 && Reliables(skbs) && i < |skbs|
    ensures var b := Burst(oof, seqno, ack, crc, skbs);
      b[i] == Sent(oof, Frame(true, (seqno + i) % 8, ack, crc, skbs[i].ptype, skbs[i].data))
    decreases i
  {
    if i > 0 {
      WrapAdd(seqno + 1, i - 1);
      BurstAt(oof, (seqno + 1) % 8, ack, crc, skbs[1..], i - 1);
    }
  }

  lemma {:induction false} BurstCarries(oof: bool, seqno: nat, ack: nat, crc: bool, skbs: seq<Skb>, i: nat)
    requires i < |skbs|
    ensures var f := Burst(oof, seqno, ack, crc, skbs)[i].frame;
      && f.ptype == skbs[i].ptype && f.data == skbs[i].data && f.rel == IsReliable(skbs[i].ptype)
      && f.ack == ack && f.crc == crc
    decreases i
  {
    if i > 0 {
      BurstCarries(oof, if IsReliable(skbs[0].ptype) then (seqno + 1) % 8 else seqno, ack, crc, skbs[1..], i - 1);
    }
  }

  lemma WrapAdd(a: int, b: int)
    ensures (a % 8 + b) % 8 == (a + b) % 8
  {}

  lemma DrainedStep(tx: Tx, e: Tx, f: Frame)
    requires e.log == tx.log + [Sent(tx.oof, f)]
    requires SentBy(tx) == [Sent(tx.oof, f)] + SentBy(e)
    ensures tx.log + SentBy(tx) == e.log + SentBy(e)
  {}

  lemma FirstOfThree(x: Sent, a: seq<Sent>, b: seq<Sent>, c: seq<Sent>)
    ensures [x] + a + b + c == [x] + (a + b + c)
  {}

  lemma DrainedUnreliable(tx: Tx)
    requires tx.unrel != [] && IsUnreliable(tx.unrel[0].ptype)
    ensures var (next, f) := Dequeue(tx).value; Drained(tx) == Drained(Emit(next, f))
  {
    var (next, f) := Dequeue(tx).value;
    var e := Emit(next, f);
    var x := Sent(tx.oof, f);
    assert BurstOf(tx, tx.unrel) == [x] + BurstOf(e, e.unrel);
    FirstOfThree(x, BurstOf(e, e.unrel), BurstOf(e, e.rel[..Opening(e)]), BareAck(e));
    DrainedStep(tx, e, f);
  }

  lemma TakeFirst(s: seq<Skb>, n: nat)
    requires 0 < n <= |s|
    ensures s[..n][0] == s[0] && s[..n][1..] == s[1..][..n - 1]
    ensures s[1..][n - 1..] == s[n..]
    ensures s[..n] == [s[0]] + s[1..][..n - 1]
  {}

  lemma MoveFirst(u: seq<Skb>, s: seq<Skb>, n: nat)
    requires 0 < n <= |s|
    ensures u + [s[0]] + s[1..][..n - 1] == u + s[..n]
  {}

  lemma SentReliable(tx: Tx)
    requires tx.unrel == [] && |tx.unack| < tx.window && tx.rel != [] && IsReliable(tx.rel[0].ptype)
    ensures var (next, f) := Dequeue(tx).value; var e := Emit(next, f);
      SentBy(tx) == [Sent(tx.oof, f)] + SentBy(e)
  {
    TakeFirst(tx.rel, Opening(tx));
  }

  lemma DrainedReliable(tx: Tx)
    requires tx.unrel == [] && |tx.unack| < tx.window && tx.rel != [] && IsReliable(tx.rel[0].ptype)
    ensures var (next, f) := Dequeue(tx).value; Drained(tx) == Drained(Emit(next, f))
  {
    var (next, f) := Dequeue(tx).value;
    var e := Emit(next, f);
    var n := Opening(tx);
    TakeFirst(tx.rel, n);
    WrapAdd(tx.txseq + 1, n - 1);
    SentReliable(tx);
    DrainedStep(tx, e, f);
    MoveFirst(tx.unack, tx.rel, n);
  }

  lemma DrainedAck(tx: Tx)
    requires tx.txseq < 8 && tx.unrel == [] && !(|tx.unack| < tx.window && tx.rel != []) && tx.ackReq
    ensures var (next, f) := Dequeue(tx).value; Drained(tx) == Drained(Emit(next, f))
  {}

  /** h5_wake_up in closed form. In particular it stops, and when it does no unreliable packet is
      left, no acknowledgement is owed, and either no reliable packet is left or the window is
      full. */
  lemma {:induction false} WakeUpIsDrained(tx: Tx)
    requires TxOk(tx)
    ensures WakeUp(tx) == Drained(tx)
    decreases Backlog(tx)
  {
    if Dequeue(tx).Some? {
      WakeUpIsDrained(Emit(Dequeue(tx).value.0, Dequeue(tx).value.1));
      if tx.unrel != [] {
        DrainedUnreliable(tx);
      } else if |tx.unack| < tx.window && tx.rel != [] {
        DrainedReliable(tx);
      } else {
        DrainedAck(tx);
      }
    }
  }

  /** Every frame of a wake-up acknowledges what is expected. */
  lemma SentAcks(tx: Tx, i: nat)
    requires i < |SentBy(tx)|
    ensures SentBy(tx)[i].frame.ack == tx.expected
  {
    var n, skbs := |tx.unrel|, tx.rel[..Opening(tx)];
    if i < n {
      BurstCarries(tx.oof, tx.txseq, tx.expected, tx.useCrc, tx.unrel, i);
    } else if i < n + |skbs| {
      BurstCarries(tx.oof, tx.txseq, tx.expected, tx.useCrc, skbs, i - n);
    }
  }

  lemma WakeUpAcks(tx: Tx)
    requires TxOk(tx)
    ensures var d := WakeUp(tx);
      && tx.log <= d.log && !d.ackReq && d.expected == tx.expected
      && forall k :: |tx.log| <= k < |d.log| ==> d.log[k].frame.ack == tx.expected
  {
    WakeUpIsDrained(tx);
    forall k | |tx.log| <= k < |tx.log + SentBy(tx)|
      ensures (tx.log + SentBy(tx))[k].frame.ack == tx.expected
    {
      SentAcks(tx, k - |tx.log|);
    }
  }

  /** An acknowledgement that is owed is sent by the next wake-up, in every frame of it; in a bare
      acknowledgement if there is nothing else to send. */
  lemma WakeUpAnswers(tx: Tx)
    requires TxOk(tx) && tx.ackReq
    ensures var d := WakeUp(tx);
      && tx.log < d.log && !d.ackReq && d.expected == tx.expected
      && (forall k :: |tx.log| <= k < |d.log| ==> d.log[k].frame.ack == tx.expected)
      && (tx.unrel == [] && (tx.rel == [] || tx.window <= |tx.unack|) ==>
            d == tx.(ackReq := false,
                     log := tx.log + [Sent(tx.oof, Frame(false, 0, tx.expected, tx.useCrc, 0, []))]))
  {
    WakeUpIsDrained(tx);
    WakeUpAcks(tx);
    if tx.unrel == [] && Opening(tx) == 0 {
      NoneTaken(tx.unack, tx.rel, tx.txseq, Opening(tx));
      assert SentBy(tx) == BareAck(tx);
    }
  }

  lemma NoneTaken(unack: seq<Skb>, rel: seq<Skb>, k: nat, n: nat)
    requires k < 8 && n == 0
    ensures unack + rel[..n] == unack && rel[n..] == rel && (k + n) % 8 == k
  {}

  /** What is left if no reliable packet may be sent. */
  lemma DrainedNone(tx: Tx)
    requires TxOk(tx) && Opening(tx) == 0
    ensures var d := Drained(tx);
      && (d.unrel, d.rel, d.ackReq, d.window) == ([], tx.rel, false, tx.window)
      && d.unack == tx.unack && d.txseq == tx.txseq
  {
    NoneTaken(tx.unack, tx.rel, tx.txseq, Opening(tx));
  }

  /** What is left if a single one may. */
  lemma DrainedOne(tx: Tx)
    requires TxOk(tx) && Opening(tx) == 1
    ensures var d := Drained(tx);
      && (d.unrel, d.rel, d.ackReq, d.window) == ([], tx.rel[1..], false, tx.window)
      && d.unack == tx.unack + [tx.rel[0]] && d.txseq == (tx.txseq + 1) % 8
  {
    assert tx.rel[..1] == [tx.rel[0]];
  }

  lemma DrainedAt(tx: Tx, i: nat)
    requires TxOk(tx) && i < Opening(tx)
    ensures var l, at := Drained(tx).log, |tx.log| + |tx.unrel| + i;
      && tx.log <= l && at < |l|
      && l[at] == Sent(tx.oof, Frame(true, (tx.txseq + i) % 8, tx.expected, tx.useCrc,
                                     tx.rel[i].ptype, tx.rel[i].data))
  {
    var skbs := tx.rel[..Opening(tx)];
    assert skbs[i] == tx.rel[i];
    BurstAt(tx.oof, tx.txseq, tx.expected, tx.useCrc, skbs, i);
    InTheMiddle(tx.log, BurstOf(tx, tx.unrel), BurstOf(tx, skbs), BareAck(tx), i);
  }

  lemma InTheMiddle(l: seq<Sent>, u: seq<Sent>, b: seq<Sent>, a: seq<Sent>, i: nat)
    requires i < |b|
    ensures var all := l + (u + b + a);
      l <= all && |l| + |u| + i < |all| && all[|l| + |u| + i] == b[i]
  {}

  /** A timeout resends, after the unreliable packets, as many of the outstanding packets and then of
      the waiting ones as the window admits, in order, each outstanding one under its old number. */
  lemma RewindResends(tx: Tx, i: nat)
    requires TxOk(tx) && i < Opening(Rewind(tx))
    ensures var t, at := WakeUp(Rewind(tx)), |tx.log| + |tx.unrel| + i;
      var skb := (tx.unack + tx.rel)[i];
      && tx.log <= t.log && at < |t.log|
      && t.log[at] == Sent(tx.oof,
           Frame(true, (tx.txseq - |tx.unack| + i) % 8, tx.expected, tx.useCrc, skb.ptype, skb.data))
  {
    WakeUpIsDrained(Rewind(tx));
    DrainedAt(Rewind(tx), i);
    WrapAdd(tx.txseq - |tx.unack|, i);
  }
}
