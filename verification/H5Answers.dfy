/** What one endpoint sends: in answer to a frame, for a packet of its stack, and when a timer fires. All
    of it is stated on the frames that leave, in numbers, and on what stays as it was. */
module H5Answers {
  import opened Bytes
  import opened Frames
  import opened RtkQueues
  import opened Transport
  import opened H5Model
  import opened H5Receiver
  import opened H5Link

  // ----- reliable frames

  /** The frames sent in between, at least one, all acknowledge `ack`, and none is owed any more. */
  predicate Acknowledges(before: Tx, after: Tx, ack: nat) {
    && before.log < after.log && !after.ackReq
    && forall k :: |before.log| <= k < |after.log| ==> after.log[k].frame.ack == ack
  }

  /** No packet may be sent. */
  predicate Idle(tx: Tx) {
    tx.unrel == [] && (tx.rel == [] || tx.window <= |tx.unack|)
  }

  /** A bare acknowledgement was sent, and nothing else happened. */
  predicate BareAck(before: Tx, after: Tx, ack: nat) {
    after == before.(expected := ack, ackReq := false,
      log := before.log + [Sent(before.oof, Frame(false, 0, ack, before.useCrc, 0x00, []))])
  }

  /** The sender, and nothing else, has acknowledged the number it goes on expecting: in everything that
      went out, and in a bare acknowledgement if nothing else might. */
  predicate Reminds(c: Core, d: Core) {
    && Acknowledges(c.tx, d.tx, c.tx.expected)
    && d == c.(tx := d.tx) && d.tx.expected == c.tx.expected
    && (Idle(c.tx) ==> BareAck(c.tx, d.tx, c.tx.expected))
  }

  lemma RefuseReminds(c: Core)
    requires CoreOk(c)
    ensures Reminds(c, Refuse(c))
  {
    WakeUpAnswers(c.tx.(ackReq := true));
  }

  /** A reliable frame with another number than the expected one is answered by the number that is, in
      any state of the receiver. */
  lemma RefusalAnswers(ep: Ep, oof: bool, f: Frame)
    requires EpOk(ep) && Fits(f) && f.rel && f.seqno != Open(ep).tx.expected
    ensures Reminds(Open(ep), Recv(ep, Encode(oof, f)).core)
  {
    OutOfOrderRefused(ep, oof, f);
    RefuseReminds(Open(ep));
  }

  /** Up to the processing of its acknowledgement, an accepted frame has the next number expected and
      acknowledged. */
  lemma NumberedAnswers(c: Core, h: seq<byte>)
    requires CoreOk(c) && |h| == 4 && HdrReliable(h) && HdrSeq(h) == c.tx.expected
    ensures var tx, next := Numbered(c, h).tx, (c.tx.expected + 1) % 8;
      && tx.expected == next && Acknowledges(c.tx, tx, next)
      && (Idle(c.tx) ==>
            exists t :: BareAck(c.tx, t, next) && tx == t.(unack := t.unack[AckedCount(t, HdrAck(h))..]))
  {
    var tx := Accept(c.tx, HdrSeq(h));
    WakeUpAnswers(tx);
    if Idle(c.tx) {
      assert BareAck(c.tx, WakeUp(tx), tx.expected);
    }
  }

  /** The sender has acknowledged the number after the one it expected, and the packet's own
      acknowledgement is kept. */
  predicate MovesOn(c: Core, d: Core, ack: nat) {
    var next := (c.tx.expected + 1) % 8;
    d.tx.expected == next && Acknowledges(c.tx, d.tx, next) && d.rxack == ack
  }

  lemma SendCtlAcks(before: Tx, c: Core, msg: seq<byte>)
    requires CoreOk(c) && Acknowledges(before, c.tx, c.tx.expected)
    ensures var d := SendCtl(c, msg);
      Acknowledges(before, d.tx, c.tx.expected) && d == c.(tx := d.tx) && d.tx.expected == c.tx.expected
  {
    WakeUpAcks(Transport.Enqueue(c.tx, Skb(0x0f, msg)));
  }

  /** What a control packet has sent acknowledges the same number as all else. */
  lemma ControlAcks(before: Tx, c: Core, data: seq<byte>)
    requires CoreOk(c) && Acknowledges(before, c.tx, c.tx.expected)
    ensures var d := ProcessCtl(c, data);
      Acknowledges(before, d.tx, c.tx.expected) && d.tx.expected == c.tx.expected && d.rxack == c.rxack
  {
    var lost := SendCtl(c.(hwErrors := c.hwErrors + 1), SYNC_RESP);
    SendCtlAcks(before, c, SYNC_RESP);
    SendCtlAcks(before, c, CONF_RESP);
    SendCtlAcks(before, c.(syncCount := 0, link := Initialized), CONF_REQ);
    SendCtlAcks(before, c.(hwErrors := c.hwErrors + 1), SYNC_RESP);
    SendCtlAcks(before, lost.(link := Uninitialized), SYNC_REQ);
  }

  lemma CompletionAnswers(c: Core, h: seq<byte>, data: seq<byte>)
    requires CoreOk(c) && |h| == 4 && HdrReliable(h) && HdrSeq(h) == c.tx.expected
    ensures MovesOn(c, Complete(c, h, data), HdrAck(h))
  {
    NumberedAnswers(c, h);
    if HdrType(h) == LINK_CTL_PKT {
      ControlAcks(c.tx, Numbered(c, h), data);
    } else {
      DeliveryKeepsTx(c, h, data);
      AckBookkeeping(c, h, data);
    }
  }

  /** The completion of a frame that is expected, or of an unreliable one. */
  lemma FrameCompletes(ep: Ep, oof: bool, f: Frame)
    requires EpOk(ep) && Fits(f) && (f.rel ==> f.seqno == Open(ep).tx.expected)
    ensures Recv(ep, Encode(oof, f)).core == Complete(Open(ep), Header(f), f.data)
  {
    FrameFate(ep, oof, Plain(f));
    FrameVerdict(Open(ep).tx.expected, f);
  }

  lemma ExpectedHeader(f: Frame, expected: nat)
    requires Fits(f) && f.rel && f.seqno == expected
    ensures var h := Header(f); HdrReliable(h) && HdrSeq(h) == expected && HdrAck(h) == f.ack
  {
    HeaderFields(f);
  }

  /** A reliable frame with the expected number is answered by the number after it, in any state of the
      receiver, and whatever its type. */
  lemma AcceptanceAnswers(ep: Ep, oof: bool, f: Frame)
    requires EpOk(ep) && Fits(f) && f.rel && f.seqno == Open(ep).tx.expected
    ensures MovesOn(Open(ep), Recv(ep, Encode(oof, f)).core, f.ack)
  {
    FrameCompletes(ep, oof, f);
    ExpectedHeader(f, Open(ep).tx.expected);
    CompletionAnswers(Open(ep), Header(f), f.data);
  }

  /** What a completed packet does to the bookkeeping of acknowledgements: the number is kept, and the
      timeouts are counted from zero once nothing is outstanding. */
  lemma AckBookkeeping(c: Core, h: seq<byte>, data: seq<byte>)
    requires CoreOk(c) && |h| == 4
    ensures var d := Complete(c, h, data);
      && d.rxack == HdrAck(h)
      && d.retransCount == if Numbered(c, h).tx.unack == [] then 0 else c.retransCount
  {}

  // ----- link control

  /** The first three bytes that the code finds in a control packet: what lies beyond the end of a short
      one is whatever the buffer held. */
  predicate Finds(c: Core, data: seq<byte>, b0: byte, b1: byte, cfg: byte)
    requires |c.stale| == 8
  {
    && b0 == (if |data| > 0 then data[0] else c.stale[0])
    && b1 == (if |data| > 1 then data[1] else c.stale[1])
    && cfg == (if |data| > 2 then data[2] else c.stale[2])
  }

  /** A sync request is answered in every state; an active link falls back, asks to synchronise, and
      reports a hardware error. */
  lemma SyncRequested(c: Core, data: seq<byte>, cfg: byte)
    requires CoreOk(c) && Finds(c, data, 0x01, 0x7e, cfg)
    ensures var d := ProcessCtl(c, data);
      && Sends(c, d, [0x02, 0x7d])
      && if c.link == Active then
           && Sends(c, d, [0x01, 0x7e])
           && d == c.(tx := d.tx, link := Uninitialized, hwErrors := c.hwErrors + 1)
         else d == c.(tx := d.tx)
  {
    ControlAnswers(c, data);
  }

  /** A sync response moves a link that is not synchronised, and has the settings asked for. */
  lemma SyncResponded(c: Core, data: seq<byte>, cfg: byte)
    requires CoreOk(c) && Finds(c, data, 0x02, 0x7d, cfg)
    ensures var d := ProcessCtl(c, data);
      if c.link == Uninitialized then
        Sends(c, d, [0x03, 0xfc, 0x14]) && d == c.(tx := d.tx, syncCount := 0, link := Initialized)
      else d == c
  {
    ControlAnswers(c, data);
  }

  /** A config request is answered once the link is synchronised. */
  lemma ConfRequested(c: Core, data: seq<byte>, cfg: byte)
    requires CoreOk(c) && Finds(c, data, 0x03, 0xfc, cfg)
    ensures var d := ProcessCtl(c, data);
      if c.link == Uninitialized then d == c else Sends(c, d, [0x04, 0x7b]) && d == c.(tx := d.tx)
  {
    ControlAnswers(c, data);
  }

  /** A config response activates a link that waits for one, and its third byte says how: the window in
      the low three bits, then flow control, then the check. */
  lemma ConfResponded(c: Core, data: seq<byte>, cfg: byte)
    requires CoreOk(c) && Finds(c, data, 0x04, 0x7b, cfg)
    ensures var d, dic := ProcessCtl(c, data), cfg / 16 % 2 == 1;
      d == if c.link == Initialized then
             c.(confCount := 0, link := Active, dic := dic,
                tx := c.tx.(window := cfg % 8, oof := cfg / 8 % 2 == 1, useCrc := c.tx.useCrc || dic),
                recvData := c.recvData + [Skb(4, [0x0e, 0x04, 0x03, 0xee, 0xfc, 0])])
           else c
  {}

  /** No other control packet does anything. */
  lemma OthersIgnored(c: Core, data: seq<byte>, b0: byte, b1: byte, cfg: byte)
    requires CoreOk(c) && Finds(c, data, b0, b1, cfg)
    requires [b0, b1] !in [[0x01, 0x7e], [0x02, 0x7d], [0x03, 0xfc], [0x04, 0x7b]]
    ensures ProcessCtl(c, data) == c
  {}

  // ----- packets from the stack

  /** An SCO, vendor, acknowledgement or control packet leaves at once, unreliably and unchanged. */
  lemma UnreliableLeaves(c: Core, skb: Skb)
    requires CoreOk(c) && |skb.data| <= 0xfff
    requires skb.ptype == 0x03 || skb.ptype == 0x0e || skb.ptype == 0x00 || skb.ptype == 0x0f
    ensures var d, at := Send(c, skb), |c.tx.log| + |c.tx.unrel|;
      && c.tx.log <= d.tx.log && at < |d.tx.log|
      && d.tx.log[at].frame == Frame(false, 0, c.tx.expected, c.tx.useCrc, skb.ptype, skb.data)
      && d.tx.unack + d.tx.rel == c.tx.unack + c.tx.rel
  {
    var tx, n := Transport.Enqueue(c.tx, skb), |c.tx.unrel|;
    assert tx.unrel == c.tx.unrel + [skb];
    WakeUpIsDrained(tx);
    UnreliableAt(tx, n);
    Kept(tx.unack, tx.rel, Opening(tx));
  }

  lemma Kept(unack: seq<Skb>, rel: seq<Skb>, n: nat)
    requires n <= |rel|
    ensures unack + rel[..n] + rel[n..] == unack + rel
  {}

  lemma {:induction false} BurstUnreliable(oof: bool, seqno: nat, ack: nat, crc: bool, skbs: seq<Skb>, i: nat)
    requires i < |skbs| && Unreliables(skbs)
    ensures Burst(oof, seqno, ack, crc, skbs)[i]
         == Sent(oof, Frame(false, 0, ack, crc, skbs[i].ptype, skbs[i].data))
    decreases i
  {
    if i > 0 {
      BurstUnreliable(oof, seqno, ack, crc, skbs[1..], i - 1);
    }
  }

  lemma UnreliableAt(tx: Tx, i: nat)
    requires TxOk(tx) && i < |tx.unrel|
    ensures var l := Drained(tx).log;
      && tx.log <= l && |tx.log| + i < |l|
      && l[|tx.log| + i]
         == Sent(tx.oof, Frame(false, 0, tx.expected, tx.useCrc, tx.unrel[i].ptype, tx.unrel[i].data))
  {
    var u := BurstOf(tx, tx.unrel);
    BurstUnreliable(tx.oof, tx.txseq, tx.expected, tx.useCrc, tx.unrel, i);
    assert SentBy(tx)[i] == u[i];
  }

  /** A command or an ACL packet joins the reliable packets at the end. */
  lemma ReliableJoins(c: Core, skb: Skb)
    requires CoreOk(c) && |skb.data| <= 0xfff && (skb.ptype == 0x01 || skb.ptype == 0x02)
    ensures var d := Send(c, skb); d.tx.unack + d.tx.rel == c.tx.unack + c.tx.rel + [skb]
  {
    var tx := Transport.Enqueue(c.tx, skb);
    WakeUpIsDrained(tx);
    Kept(tx.unack, tx.rel, Opening(tx));
    assert c.tx.unack + (c.tx.rel + [skb]) == c.tx.unack + c.tx.rel + [skb];
  }

  /** An overlong packet, an event or a packet of an unknown type is dropped: only what waited anyway is
      sent, and if nothing could be sent nothing changes. */
  lemma OthersDropped(c: Core, skb: Skb)
    requires CoreOk(c)
    requires |skb.data| > 0xfff || (skb.ptype > 0x03 && skb.ptype != 0x0e && skb.ptype != 0x0f)
    ensures Send(c, skb) == c.(tx := WakeUp(c.tx))
    ensures Dequeue(c.tx).None? ==> Send(c, skb) == c
  {}

  // ----- timers

  /** What the sync command of the library does. */
  lemma SyncCommandAsks(c: Core)
    requires CoreOk(c)
    ensures var d := StartSync(c);
      if c.link == Uninitialized then Sends(c, d, [0x01, 0x7e]) && d == c.(tx := d.tx) else d == c
  {
    SendCtlSends(c, SYNC_REQ);
    SendCtlKeeps(c, SYNC_REQ);
  }

  /** Below the limit the sync timer repeats the request and counts; at the limit it sends nothing, and
      reports a failure if and only if the link has not got beyond its first state. */
  lemma SyncTimerActs(c: Core)
    requires CoreOk(c)
    ensures var d := SyncTimeout(c);
      if c.syncCount < 350 then
        Sends(c, d, [0x01, 0x7e]) && d == c.(tx := d.tx, syncCount := c.syncCount + 1)
      else if c.link == Uninitialized then
        d == c.(recvData := c.recvData + [Skb(4, [0x0e, 0x04, 0x03, 0xee, 0xfc, 3])])
      else d == c
  {
    SendCtlSends(c, SYNC_REQ);
    SendCtlKeeps(c, SYNC_REQ);
  }

  /** The same for the config timer, which reports a failure if and only if the link is not active. */
  lemma ConfTimerActs(c: Core)
    requires CoreOk(c)
    ensures var d := ConfTimeout(c);
      if c.confCount < 350 then
        Sends(c, d, [0x03, 0xfc, 0x14]) && d == c.(tx := d.tx, confCount := c.confCount + 1)
      else if c.link != Active then
        d == c.(recvData := c.recvData + [Skb(4, [0x0e, 0x04, 0x03, 0xee, 0xfc, 3])])
      else d == c
  {
    SendCtlSends(c, CONF_REQ);
    SendCtlKeeps(c, CONF_REQ);
  }

  /** An outstanding packet went out again, unchanged and under its old number, behind the unreliable
      packets and the outstanding ones before it. */
  predicate Resent(before: Tx, after: Tx, i: nat)
    requires i < |before.unack|
  {
    var at, skb := |before.log| + |before.unrel| + i, before.unack[i];
    && at < |after.log|
    && after.log[at].frame == Frame(true, (before.txseq - |before.unack| + i) % 8, before.expected,
                                    before.useCrc, skb.ptype, skb.data)
  }

  lemma RewoundResent(tx: Tx, i: nat)
    requires TxOk(tx) && i < |tx.unack| && i < tx.window
    ensures Resent(tx, WakeUp(Rewind(tx)), i)
  {
    RewindResends(tx, i);
    assert (tx.unack + tx.rel)[i] == tx.unack[i];
  }

  lemma RewoundKeeps(tx: Tx)
    requires TxOk(tx)
    ensures var t := WakeUp(Rewind(tx)); t.unack + t.rel == tx.unack + tx.rel
  {
    var r := Rewind(tx);
    WakeUpIsDrained(r);
    Kept([], r.rel, Opening(r));
    assert [] + r.rel == tx.unack + tx.rel;
  }

  /** Below the limit, which is higher during initialisation, the retransmission timer counts and has the
      outstanding packets sent again as far as the window admits; at the limit it only reports an
      error. */
  lemma DataTimerActs(c: Core, initializing: bool)
    requires CoreOk(c)
    ensures var d := DataTimeout(c, initializing);
      if c.retransCount < (if initializing then 200 else 40) then
        && d == c.(tx := d.tx, retransCount := c.retransCount + 1)
        && d.tx.unack + d.tx.rel == c.tx.unack + c.tx.rel
        && forall i :: 0 <= i < |c.tx.unack| && i < c.tx.window ==> Resent(c.tx, d.tx, i)
      else d == c.(hwErrors := c.hwErrors + 1)
  {
    RewoundKeeps(c.tx);
    forall i | 0 <= i < |c.tx.unack| && i < c.tx.window
      ensures Resent(c.tx, WakeUp(Rewind(c.tx)), i)
    {
      RewoundResent(c.tx, i);
    }
  }

  // ----- over whole runs

  lemma ControlCounts(c: Core, data: seq<byte>)
    requires CoreOk(c)
    ensures var d := ProcessCtl(c, data);
      && d.confCount == (if ConfAnswered(c, data) then 0 else c.confCount)
      && d.retransCount == c.retransCount
  {}

  /** What an input does to the count of config requests. */
  lemma ConfCountStep(ep: Ep, i: Input)
    requires EpOk(ep)
    ensures var p, q := ep.core, Next(ep, i).core;
      q.confCount ==
        if i.ConfTimer? && |q.tx.log| > |p.tx.log| then p.confCount + 1
        else if p.link == Initialized && q.link == Active then 0
        else p.confCount
    ensures i.ConfTimer? && |Next(ep, i).core.tx.log| > |ep.core.tx.log| ==> ep.core.confCount < 350
  {
    if i.Byte? {
      ConfCountEvent(ep.core, RxByte(ep.rx, ep.core.tx.expected, i.b).event);
    } else {
      OthersKeep(ep.core, i);
      ConfTimerActs(ep.core);
    }
  }

  lemma ConfCountEvent(c: Core, e: Event)
    requires CoreOk(c) && EventOk(e)
    ensures var d := Apply(c, e);
      d.confCount == if c.link == Initialized && d.link == Active then 0 else c.confCount
  {
    EventMoves(c, e);
    if IsControl(e) {
      ControlMoves(Numbered(c, e.h), e.data);
      ControlCounts(Numbered(c, e.h), e.data);
    }
  }

  /** Config requests sent by the timer since the link last became active. */
  function TimerConfs(ep: Ep, run: seq<Input>): nat
    requires EpOk(ep)
    decreases |run|
  {
    if run == [] then 0
    else
      var before := run[..|run| - 1];
      var p, q := Run(ep, before).core, Run(ep, run).core;
      if run[|run| - 1].ConfTimer? && |q.tx.log| > |p.tx.log| then TimerConfs(ep, before) + 1
      else if p.link == Initialized && q.link == Active then 0
      else TimerConfs(ep, before)
  }

  lemma {:induction false} TimerConfsCounted(stale: seq<byte>, run: seq<Input>)
    requires |stale| == 8
    ensures TimerConfs(Init(stale), run) == Run(Init(stale), run).core.confCount <= 350
    decreases |run|
  {
    if run != [] {
      var before := run[..|run| - 1];
      TimerConfsCounted(stale, before);
      ConfCountStep(Run(Init(stale), before), run[|run| - 1]);
    }
  }

  lemma RetransCountStep(ep: Ep, i: Input)
    requires EpOk(ep)
    ensures var p, q := ep.core.retransCount, Next(ep, i).core.retransCount;
      if i.DataTimer? then q == p + (if p < (if i.initializing then 200 else 40) then 1 else 0)
      else q == p || (q == 0 && i.Byte? && RxByte(ep.rx, ep.core.tx.expected, i.b).event.Completed?)
  {
    if i.Byte? {
      var e := RxByte(ep.rx, ep.core.tx.expected, i.b).event;
      if e.Completed? {
        AckBookkeeping(ep.core, e.h, e.data);
      }
    }
  }

  /** In every run at most 200 timeouts are counted, and at most 40 unless some came during
      initialisation. */
  lemma {:induction false} TimeoutsCounted(stale: seq<byte>, run: seq<Input>)
    requires |stale| == 8
    ensures Run(Init(stale), run).core.retransCount <= 200
    ensures (forall k :: 0 <= k < |run| && run[k].DataTimer? ==> !run[k].initializing) ==>
      Run(Init(stale), run).core.retransCount <= 40
    decreases |run|
  {
    if run != [] {
      var n := |run| - 1;
      TimeoutsCounted(stale, run[..n]);
      RetransCountStep(Run(Init(stale), run[..n]), run[n]);
    }
  }
}
