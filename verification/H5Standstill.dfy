/** A window lowered while packets are outstanding, in one endpoint: a run that gets there, and why
    nothing new is sent from then on. The peer has `ahead` packets beyond what is acknowledged, more
    than the window admits, and says so in every packet. A timeout takes the sequence number back, and
    then that acknowledgement is further away than anything outstanding. */
module H5Standstill {
  import opened Bytes
  import opened Frames
  import opened RtkQueues
  import opened Transport
  import opened H5Model
  import opened H5Link
  import opened H5Stall

  /** Of `pending`, which starts with the packet numbered `base`, no more than the window is
      outstanding. */
  predicate Stuck(tx: Tx, base: nat, ahead: nat, pending: seq<Skb>) {
    && TxOk(tx) && |tx.unack| <= tx.window < ahead <= 7
    && tx.txseq == (base + |tx.unack|) % 8
    && tx.window <= |pending| && pending <= tx.unack + tx.rel
  }

  /** A frame of the first `window` pending packets, under its number. */
  ghost predicate Old(f: Frame, base: nat, window: nat, pending: seq<Skb>) {
    f.rel ==>
      exists i :: 0 <= i < |pending| && i < window
        && pending[i] == Skb(f.ptype, f.data) && f.seqno == (base + i) % 8
  }

  /** Stuck, and since the log had `n` frames nothing else reliable was sent. */
  ghost predicate StuckSince(tx: Tx, n: nat, base: nat, ahead: nat, pending: seq<Skb>) {
    && Stuck(tx, base, ahead, pending) && n <= |tx.log|
    && forall k :: n <= k < |tx.log| ==> Old(tx.log[k].frame, base, tx.window, pending)
  }

  // ----- every operation of the sender keeps it

  lemma NextPending(pending: seq<Skb>, unack: seq<Skb>, rel: seq<Skb>)
    requires pending <= unack + rel && rel != []
    ensures |unack| < |pending| ==> pending[|unack|] == rel[0]
    ensures unack + [rel[0]] + rel[1..] == unack + rel
  {}

  lemma DequeueStuck(tx: Tx, base: nat, ahead: nat, pending: seq<Skb>)
    requires Stuck(tx, base, ahead, pending) && Dequeue(tx).Some?
    ensures var (next, f) := Dequeue(tx).value;
      && Stuck(next, base, ahead, pending) && next.window == tx.window && next.log == tx.log
      && Old(f, base, tx.window, pending)
  {
    DequeueKeeps(tx);
    if tx.unrel != [] {
      assert IsUnreliable(tx.unrel[0].ptype);
    } else if |tx.unack| < tx.window && tx.rel != [] {
      NextPending(pending, tx.unack, tx.rel);
      WrapAdd(base + |tx.unack|, 1);
    }
  }

  lemma {:induction false} WakeUpStuck(tx: Tx, n: nat, base: nat, ahead: nat, pending: seq<Skb>)
    requires StuckSince(tx, n, base, ahead, pending)
    ensures StuckSince(WakeUp(tx), n, base, ahead, pending)
    decreases Backlog(tx)
  {
    if Dequeue(tx).Some? {
      var (next, f) := Dequeue(tx).value;
      DequeueKeeps(tx);
      DequeueStuck(tx, base, ahead, pending);
      WakeUpStuck(Emit(next, f), n, base, ahead, pending);
    }
  }

  lemma SubmitStuck(tx: Tx, skb: Skb, n: nat, base: nat, ahead: nat, pending: seq<Skb>)
    requires StuckSince(tx, n, base, ahead, pending)
    ensures StuckSince(WakeUp(Transport.Enqueue(tx, skb)), n, base, ahead, pending)
  {
    assert tx.unack + (tx.rel + [skb]) == tx.unack + tx.rel + [skb];
    WakeUpStuck(Transport.Enqueue(tx, skb), n, base, ahead, pending);
  }

  lemma SendCtlStuck(c: Core, msg: seq<byte>, n: nat, base: nat, ahead: nat, pending: seq<Skb>)
    requires StuckSince(c.tx, n, base, ahead, pending)
    ensures StuckSince(SendCtl(c, msg).tx, n, base, ahead, pending)
  {
    SubmitStuck(c.tx, Skb(LINK_CTL_PKT, msg), n, base, ahead, pending);
  }

  lemma RewindStuck(tx: Tx, n: nat, base: nat, ahead: nat, pending: seq<Skb>)
    requires StuckSince(tx, n, base, ahead, pending)
    ensures StuckSince(Rewind(tx), n, base, ahead, pending)
  {
    WrapAdd(base + |tx.unack|, -|tx.unack|);
    assert [] + (tx.unack + tx.rel) == tx.unack + tx.rel;
  }

  /** What the peer has is too far ahead to acknowledge anything. */
  lemma AheadAcksNothing(tx: Tx, base: nat, ahead: nat, pending: seq<Skb>)
    requires Stuck(tx, base, ahead, pending)
    ensures AckedCount(tx, (base + ahead) % 8) == 0
  {
    DistanceAhead(base + |tx.unack|, base + ahead);
  }

  lemma DistanceAhead(x: nat, y: nat)
    requires x < y < x + 8
    ensures (x % 8 - y % 8) % 8 == x - y + 8
  {}

  // ----- and so does every input

  lemma NumberedStuck(c: Core, h: seq<byte>, n: nat, base: nat, ahead: nat, pending: seq<Skb>)
    requires CoreOk(c) && |h| == 4 && StuckSince(c.tx, n, base, ahead, pending)
    requires HdrAck(h) == (base + ahead) % 8
    ensures StuckSince(Numbered(c, h).tx, n, base, ahead, pending)
  {
    var tx := c.tx;
    if HdrReliable(h) {
      tx := WakeUp(Accept(c.tx, HdrSeq(h)));
      WakeUpStuck(Accept(c.tx, HdrSeq(h)), n, base, ahead, pending);
    }
    AheadAcksNothing(tx, base, ahead, pending);
    assert tx.unack[0..] == tx.unack;
  }

  lemma ControlStuck(c: Core, data: seq<byte>, n: nat, base: nat, ahead: nat, pending: seq<Skb>)
    requires CoreOk(c) && StuckSince(c.tx, n, base, ahead, pending) && !ConfAnswered(c, data)
    ensures StuckSince(ProcessCtl(c, data).tx, n, base, ahead, pending)
  {
    if PeerRestarted(c, data) {
      var d := c.(hwErrors := c.hwErrors + 1);
      SendCtlStuck(d, SYNC_RESP, n, base, ahead, pending);
      SendCtlStuck(SendCtl(d, SYNC_RESP).(link := Uninitialized), SYNC_REQ, n, base, ahead, pending);
    } else {
      SendCtlStuck(c, SYNC_RESP, n, base, ahead, pending);
      SendCtlStuck(c, CONF_RESP, n, base, ahead, pending);
      SendCtlStuck(c.(syncCount := 0, link := Initialized), CONF_REQ, n, base, ahead, pending);
    }
  }

  /** The packet acknowledges `ack`, and is not the answer to a config request. */
  predicate Insists(c: Core, e: Event, ack: nat)
    requires CoreOk(c) && EventOk(e)
  {
    e.Completed? ==>
      && HdrAck(e.h) == ack
      && !(HdrType(e.h) == LINK_CTL_PKT && ConfAnswered(Numbered(c, e.h), e.data))
  }

  lemma EventStuck(c: Core, e: Event, n: nat, base: nat, ahead: nat, pending: seq<Skb>)
    requires CoreOk(c) && EventOk(e) && StuckSince(c.tx, n, base, ahead, pending)
    requires Insists(c, e, (base + ahead) % 8)
    ensures StuckSince(Apply(c, e).tx, n, base, ahead, pending)
  {
    match e
    case Nothing =>
    case Refused => WakeUpStuck(c.tx.(ackReq := true), n, base, ahead, pending);
    case Completed(h, data) =>
      NumberedStuck(c, h, n, base, ahead, pending);
      if HdrType(h) == LINK_CTL_PKT {
        ControlStuck(Numbered(c, h), data, n, base, ahead, pending);
      } else {
        DeliveryKeepsTx(c, h, data);
      }
  }

  lemma InputStuck(c: Core, i: Input, n: nat, base: nat, ahead: nat, pending: seq<Skb>)
    requires CoreOk(c) && StuckSince(c.tx, n, base, ahead, pending) && !i.Byte?
    ensures StuckSince(Next(Ep(Begun(), c), i).core.tx, n, base, ahead, pending)
  {
    match i
    case Packet(skb) => SubmitStuck(c.tx, skb, n, base, ahead, pending);
    case SyncCommand => SendCtlStuck(c, SYNC_REQ, n, base, ahead, pending);
    case SyncTimer => SendCtlStuck(c, SYNC_REQ, n, base, ahead, pending);
    case ConfTimer => SendCtlStuck(c, CONF_REQ, n, base, ahead, pending);
    case DataTimer(_) =>
      RewindStuck(c.tx, n, base, ahead, pending);
      WakeUpStuck(Rewind(c.tx), n, base, ahead, pending);
    case BaudrateTimer =>
  }

  /** Every packet completed in the run acknowledges `ack`, and none of them answers a config request. */
  predicate AllInsist(ep: Ep, run: seq<Input>, ack: nat)
    requires EpOk(ep)
    decreases |run|
  {
    run == [] ||
      var n := |run| - 1;
      var e := Run(ep, run[..n]);
      && AllInsist(ep, run[..n], ack)
      && (run[n].Byte? ==> Insists(e.core, RxByte(e.rx, e.core.tx.expected, run[n].b).event, ack))
  }

  /** Whatever the stack hands over, whatever times out and whatever arrives, as long as the peer insists
      on what it has and the settings stay: no reliable packet is sent but those first few, again and
      again, and none of them is ever acknowledged. */
  lemma {:induction false} StaysStuck(ep: Ep, run: seq<Input>, base: nat, ahead: nat, pending: seq<Skb>)
    requires EpOk(ep) && Stuck(ep.core.tx, base, ahead, pending)
    requires AllInsist(ep, run, (base + ahead) % 8)
    ensures StuckSince(Run(ep, run).core.tx, |ep.core.tx.log|, base, ahead, pending)
    decreases |run|
  {
    if run != [] {
      var n := |run| - 1;
      var e := Run(ep, run[..n]);
      StaysStuck(ep, run[..n], base, ahead, pending);
      if run[n].Byte? {
        EventStuck(e.core, RxByte(e.rx, e.core.tx.expected, run[n].b).event, |ep.core.tx.log|, base, ahead, pending);
      } else {
        InputStuck(e.core, run[n], |ep.core.tx.log|, base, ahead, pending);
      }
    }
  }

  // ----- a run that gets there

  predicate Acl(skb: Skb) {
    skb.ptype == ACL_PKT && |skb.data| <= MAX_PAYLOAD
  }

  lemma ThreeQueued(ep: Ep, x: Skb, y: Skb, z: Skb) returns (run: seq<Input>)
    requires EpOk(ep) && Between(ep.rx) && Holds(ep.core, Active, 2, [], [], 0) && Acl(x) && Acl(y) && Acl(z)
    ensures var e := Run(ep, run); Between(e.rx) && Holds(e.core, Active, 2, [z], [x, y], 2)
  {
    var c := Send(ep.core, x);
    SentNext(ep.core, x, 2, [], 0);
    assert [] + [x] == [x];
    SentNext(c, y, 2, [x], 1);
    assert [x] + [y] == [x, y];
    NextWaits(Send(c, y), z, 2, [x, y], 2);
    var r1 := [Packet(x), Packet(y)];
    RunTwo(ep, Packet(x), Packet(y));
    run := r1 + [Packet(z)];
    RunLast(ep, r1, Packet(z));
  }

  lemma Restarted(c: Core, h: seq<byte>, w: nat, rel: seq<Skb>, unack: seq<Skb>, k: nat)
    requires Holds(c, Active, w, rel, unack, k) && Speaks(c, h) && Shut(w, rel, unack)
    ensures Holds(Complete(c, h, SYNC_REQ), Uninitialized, w, rel, unack, k)
  {
    NumberedHolds(c, h, Active, w, rel, unack, k);
    var n := Numbered(c, h).(hwErrors := Numbered(c, h).hwErrors + 1);
    CtlHolds(n, SYNC_RESP, Active, w, rel, unack, k);
    CtlHolds(SendCtl(n, SYNC_RESP).(link := Uninitialized), SYNC_REQ, Uninitialized, w, rel, unack, k);
  }

  /** A link control frame that acknowledges nothing, as the header the endpoint sees. */
  function Unacking(data: seq<byte>): seq<byte>
    requires |data| <= MAX_PAYLOAD
  {
    Header(Frame(false, 0, 0, false, LINK_CTL_PKT, data))
  }

  /** The peer restarts its link, and the new config response has a window of one. Its frames still
      acknowledge nothing: they left before the two packets arrived. */
  lemma WindowLowered(ep: Ep, rel: seq<Skb>, x: Skb, y: Skb) returns (run: seq<Input>)
    requires EpOk(ep) && Between(ep.rx) && Holds(ep.core, Active, 2, rel, [x, y], 2)
    ensures var e := Run(ep, run); Between(e.rx) && Holds(e.core, Active, 1, rel, [x, y], 2)
  {
    var r1, r2 := FrameInputs(LINK_CTL_PKT, 0, SYNC_REQ), FrameInputs(LINK_CTL_PKT, 0, SYNC_RESP);
    var r3 := FrameInputs(LINK_CTL_PKT, 0, CONF_RESP + [1]);
    FrameRun(ep, LINK_CTL_PKT, 0, SYNC_REQ);
    Restarted(ep.core, Unacking(SYNC_REQ), 2, rel, [x, y], 2);
    var e1 := Run(ep, r1);
    FrameRun(e1, LINK_CTL_PKT, 0, SYNC_RESP);
    Synchronised(e1.core, Unacking(SYNC_RESP), 2, rel, [x, y], 2);
    var e2 := Run(e1, r2);
    FrameRun(e2, LINK_CTL_PKT, 0, CONF_RESP + [1]);
    Activated(e2.core, Unacking(CONF_RESP + [1]), 1, 2, rel, [x, y], 2);
    run := r1 + r2 + r3;
    RunThen(ep, r1, r2);
    RunThen(ep, r1 + r2, r3);
  }

  lemma TimedOut(c: Core, x: Skb, y: Skb, z: Skb)
    requires Holds(c, Active, 1, [z], [x, y], 2)
    ensures var d := DataTimeout(c, false);
      && d.link == Active && (d.tx.window, d.tx.unack, d.tx.rel) == (1, [x], [y, z])
      && Stuck(d.tx, 0, 2, [x, y, z])
  {
    var tx := Rewind(c.tx);
    assert [x, y] + [z] == [x, y, z] && [x, y, z][1..] == [y, z];
    assert tx.rel == [x, y, z] && tx.unack == [] && tx.txseq == 0;
    WakeUpIsDrained(tx);
    DrainedOne(tx);
    assert [] + [x] == [x] && [x] + [y, z] == [x, y, z];
  }

  lemma LoweredReached(stale: seq<byte>, x: Skb, y: Skb, z: Skb) returns (run: seq<Input>)
    requires |stale| == 8 && Acl(x) && Acl(y) && Acl(z)
    ensures Holds(Run(Init(stale), run).core, Active, 1, [z], [x, y], 2)
  {
    var e0 := Init(stale);
    var r1 := LinkUp(stale, 2);
    var r2 := ThreeQueued(Run(e0, r1), x, y, z);
    RunThen(e0, r1, r2);
    var r3 := WindowLowered(Run(e0, r1 + r2), [z], x, y);
    RunThen(e0, r1 + r2, r3);
    run := r1 + r2 + r3;
  }

  /** What an endpoint and its peer go through: the link comes up with a window of two, the stack hands
      over three packets and two are sent; the link is restarted with a window of one; a timeout sends
      the first packet again. Then the endpoint is stuck, if the peer has both and acknowledges 2. */
  lemma StandstillReached(stale: seq<byte>, x: Skb, y: Skb, z: Skb) returns (run: seq<Input>)
    requires |stale| == 8 && Acl(x) && Acl(y) && Acl(z)
    ensures var c := Run(Init(stale), run).core;
      && c.link == Active && (c.tx.window, c.tx.unack, c.tx.rel) == (1, [x], [y, z])
      && Stuck(c.tx, 0, 2, [x, y, z])
  {
    var before := LoweredReached(stale, x, y, z);
    run := before + [DataTimer(false)];
    RunLast(Init(stale), before, DataTimer(false));
    TimedOut(Run(Init(stale), before).core, x, y, z);
  }
}
