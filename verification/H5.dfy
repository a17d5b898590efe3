/** The whole H5 control block of hci_h5.c as an object: the sender and the decoder, and beside
    them link establishment, the timers and the queue to the stack. Every method is proved to do
    to the abstract endpoint what the functions of H5Model say. */
module H5 {
  import opened Bytes
  import opened Slip
  import opened Frames
  import opened Option
  import opened RtkBuffers
  import opened RtkQueues
  import opened Transport
  import opened H5Model
  import opened H5Sender
  import opened H5Decoder

  // ----- the loop of h5_recv, one transition at a time

  /** How many transitions may still come before a byte is consumed. */
  function Rank(rx: Rx): nat {
    if rx.count > 0 then 0
    else
      match rx.state
      case W4Delimiter => 0
      case W4Start => 1
      case W4Crc => 1
      case W4Data => 2
      case W4Hdr => 3
  }

  /** A transition gets closer to consuming the byte, and changes neither what consuming it will have
      done nor whether a packet will have been completed. */
  predicate Progressed(ep: Ep, s: Step, b: byte)
    requires EpOk(ep) && RxOk(s.rx) && EventOk(s.event)
  {
    var next := Ep(s.rx, Apply(ep.core, s.event));
    && Rank(s.rx) < Rank(ep.rx) && RecvByte(next, b) == RecvByte(ep, b)
    && (Completing(ep, b) <==> s.event.Completed? || Completing(next, b))
  }

  lemma HeaderThenByte(ep: Ep, b: byte)
    requires EpOk(ep) && ep.rx.count == 0 && ep.rx.state == W4Hdr
    ensures Progressed(ep, CheckHeader(ep.rx, ep.core.tx.expected), b)
  {}

  lemma DataThenByte(ep: Ep, b: byte)
    requires EpOk(ep) && ep.rx.count == 0 && ep.rx.state == W4Data
    ensures Progressed(ep, PayloadDone(ep.rx), b)
  {}

  lemma CrcThenByte(ep: Ep, b: byte)
    requires EpOk(ep) && ep.rx.count == 0 && ep.rx.state == W4Crc
    ensures Progressed(ep, CheckCrc(ep.rx), b)
  {}

  lemma TransitionThenByte(ep: Ep, b: byte)
    requires EpOk(ep) && ep.rx.count == 0 && !Between(ep.rx)
    ensures Progressed(ep, Transition(ep.rx, ep.core.tx.expected), b)
  {
    match ep.rx.state
    case W4Hdr => HeaderThenByte(ep, b);
    case W4Data => DataThenByte(ep, b);
    case W4Crc => CrcThenByte(ep, b);
  }

  lemma BeginThenByte(ep: Ep, b: byte)
    requires EpOk(ep) && ep.rx.state == W4Start && b != DELIM
    ensures RecvByte(Ep(Begun(), ep.core), b) == RecvByte(ep, b)
    ensures !Completing(Ep(Begun(), ep.core), b) && !Completing(ep, b)
  {}

  ghost function Stepped(ep: Ep): Ep
    requires EpOk(ep) && ep.rx.count == 0 && !Between(ep.rx)
  {
    var s := Transition(ep.rx, ep.core.tx.expected);
    Ep(s.rx, Apply(ep.core, s.event))
  }

  /** What one round does: the byte is consumed, or it is closer to being so, and a packet may have
      been completed. */
  ghost predicate RoundOutcome(before: Ep, after: Ep, b: byte, used: bool, completed: bool)
    requires EpOk(before) && EpOk(after)
  {
    if used then after == RecvByte(before, b) && !completed && !Completing(before, b)
    else
      && RecvByte(after, b) == RecvByte(before, b) && Rank(after.rx) < Rank(before.rx)
      && (Completing(before, b) <==> completed || Completing(after, b))
  }

  lemma TakeNext(s: seq<byte>, i: nat)
    requires i < |s|
    ensures s[..i + 1] == s[..i] + [s[i]]
  {}

  lemma TakeAll(s: seq<byte>)
    ensures s[..|s|] == s
  {}

  lemma RecvAppend(start: Ep, s: seq<byte>, b: byte)
    requires EpOk(start)
    ensures Recv(start, s + [b]) == RecvByte(Recv(start, s), b)
    ensures CompletesIn(start, s + [b]) <==> CompletesIn(start, s) || Completing(Recv(start, s), b)
  {
    assert (s + [b])[..|s|] == s;
  }

  class Endpoint {
    const sender: Sender
    const decoder: Decoder

    var rxack: nat
    var linkState: LinkState
    var dicType: bool
    var syncRetransCount: nat
    var confRetransCount: nat
    var dataRetransCount: nat

    /** The queue to the stack, the intercepted reply, and hardware errors reported to the stack. */
    var recvData: seq<Skb>
    var internalSkb: Option<Skb>
    var hwErrors: nat
    const stale: seq<byte>

    /** Everything but the receiver, as a value. */
    ghost var core: Core
    ghost var repr: set<object>

    ghost predicate CoreValid()
      reads this, sender, sender.repr
    {
      && sender.Valid() && this !in sender.repr && decoder !in sender.repr && |stale| == 8
      && core == CoreAbs()
    }

    ghost function CoreAbs(): Core
      reads this, sender
    {
      Core(sender.tx, rxack, linkState, dicType, syncRetransCount, confRetransCount, dataRetransCount,
           recvData, internalSkb, hwErrors, stale)
    }

    ghost predicate Valid()
      reads this, sender, sender.repr, decoder, decoder.repr
    {
      CoreValid() && decoder.Valid() && this !in decoder.repr && decoder.repr !! sender.repr
    }

    /** And everything the endpoint owns is in `repr`. */
    ghost predicate Owns()
      reads this, repr, sender, sender.repr, decoder, decoder.repr
    {
      this in repr && sender.repr <= repr && decoder.repr <= repr && Valid()
    }

    ghost function Abs(): Ep
      reads this, decoder
    {
      Ep(decoder.rx, core)
    }

    /** hci_h5_int_init. */
    constructor (stale: seq<byte>)
      requires |stale| == 8
      ensures Owns() && fresh(repr)
      ensures Abs() == Init(stale)
    {
      var s := new Sender();
      var d := new Decoder();
      sender, decoder, repr := s, d, {this} + s.repr + d.repr;
      rxack, linkState, dicType := 0, Uninitialized, false;
      syncRetransCount, confRetransCount, dataRetransCount := 0, 0, 0;
      recvData, internalSkb, hwErrors := [], None, 0;
      this.stale := stale;
      core := Init(stale).core;
    }

    // ----- link establishment

    /** hci_h5_send_sync_req, _sync_resp, _conf_req and _conf_resp. */
    method SendControl(msg: seq<byte>)
      requires CoreValid()
      modifies this, sender.repr
      ensures CoreValid() && fresh(sender.repr - old(sender.repr))
      ensures core == SendCtl(old(core), msg)
    {
      sender.Submit(Skb(LINK_CTL_PKT, msg));
      core := SendCtl(core, msg);
    }

    method SetLink(state: LinkState)
      requires CoreValid()
      modifies this
      ensures CoreValid() && core == old(core).(link := state)
    {
      linkState := state;
      core := CoreAbs();
    }

    /** rtk_notify_hw_h5_init_result. */
    method NotifyInitResult(status: byte)
      requires CoreValid()
      modifies this
      ensures CoreValid() && core == Notify(old(core), status)
    {
      recvData := recvData + [Skb(EVENT_PKT, [0x0e, 0x04, 0x03, 0xee, 0xfc, status])];
      core := CoreAbs();
    }

    /** rtkbt_h5_send_hw_error. */
    method SendHwError()
      requires CoreValid()
      modifies this
      ensures CoreValid() && core == old(core).(hwErrors := old(core).hwErrors + 1)
    {
      hwErrors := hwErrors + 1;
      core := CoreAbs();
    }

    /** The settings of a config response. */
    method Configure(cfg: byte)
      requires CoreValid()
      modifies this, sender.repr
      ensures CoreValid() && sender.repr == old(sender.repr)
      ensures core == Configured(old(core), cfg)
    {
      confRetransCount := 0;
      linkState := Active;
      dicType := cfg / 16 % 2 == 1;
      sender.Configure(cfg % 8, cfg / 8 % 2 == 1, dicType);
      core := CoreAbs();
    }

    /** h5_process_ctl_pkts, one method for each state. */
    method ControlUninitialized(b0: byte, b1: byte, cfg: byte)
      requires CoreValid() && linkState == Uninitialized
      modifies this, sender.repr
      ensures CoreValid() && fresh(sender.repr - old(sender.repr))
      ensures core == Control(old(core), b0, b1, cfg)
    {
      if Says(b0, b1, SYNC_REQ) {
        SendControl(SYNC_RESP);
      } else if Says(b0, b1, SYNC_RESP) {
        syncRetransCount := 0;
        linkState := Initialized;
        core := CoreAbs();
        SendControl(CONF_REQ);
      }
    }

    method ControlInitialized(b0: byte, b1: byte, cfg: byte)
      requires CoreValid() && linkState == Initialized
      modifies this, sender.repr
      ensures CoreValid() && fresh(sender.repr - old(sender.repr))
      ensures core == Control(old(core), b0, b1, cfg)
    {
      if Says(b0, b1, SYNC_REQ) {
        SendControl(SYNC_RESP);
      } else if Says(b0, b1, CONF_REQ) {
        SendControl(CONF_RESP);
      } else if Says(b0, b1, CONF_RESP) {
        Configure(cfg);
        NotifyInitResult(0);
      }
    }

    method ControlActive(b0: byte, b1: byte, cfg: byte)
      requires CoreValid() && linkState == Active
      modifies this, sender.repr
      ensures CoreValid() && fresh(sender.repr - old(sender.repr))
      ensures core == Control(old(core), b0, b1, cfg)
    {
      if Says(b0, b1, SYNC_REQ) {
        SendHwError();
        SendControl(SYNC_RESP);
        SetLink(Uninitialized);
        SendControl(SYNC_REQ);
      } else if Says(b0, b1, CONF_REQ) {
        SendControl(CONF_RESP);
      }
    }

    /** The byte memcmp sees at offset `i` of the payload. */
    function PeekAt(skb: RtkBuffer, i: nat): (b: byte)
      requires skb.Valid() && |stale| == 8 && i < 8
      reads skb, skb.head
      ensures b == if i < |skb.Content()| then skb.Content()[i] else stale[i]
    {
      if i < skb.length then skb.head[skb.data + i] else stale[i]
    }

    method ProcessCtlPkts(skb: RtkBuffer)
      requires CoreValid() && skb.Valid()
      modifies this, sender.repr
      ensures CoreValid() && fresh(sender.repr - old(sender.repr))
      ensures core == ProcessCtl(old(core), old(skb.Content()))
    {
      var b0, b1, cfg := PeekAt(skb, 0), PeekAt(skb, 1), PeekAt(skb, 2);
      assert ProcessCtl(core, skb.Content()) == Control(core, b0, b1, cfg);
      match linkState {
        case Uninitialized => ControlUninitialized(b0, b1, cfg);
        case Initialized => ControlInitialized(b0, b1, cfg);
        case Active => ControlActive(b0, b1, cfg);
      }
    }

    // ----- timers and callers

    /** h5_sync_retrans_timeout_handler. */
    method SyncRetransTimeout()
      requires CoreValid()
      modifies this, sender.repr
      ensures CoreValid() && fresh(sender.repr - old(sender.repr))
      ensures core == SyncTimeout(old(core))
    {
      if syncRetransCount < SYNC_RETRANS_COUNT {
        SendControl(SYNC_REQ);
        syncRetransCount := syncRetransCount + 1;
        core := CoreAbs();
      } else if linkState == Uninitialized {
        NotifyInitResult(3);
      }
    }

    /** h5_conf_retrans_timeout_handler. */
    method ConfRetransTimeout()
      requires CoreValid()
      modifies this, sender.repr
      ensures CoreValid() && fresh(sender.repr - old(sender.repr))
      ensures core == ConfTimeout(old(core))
    {
      if confRetransCount < CONF_RETRANS_COUNT {
        SendControl(CONF_REQ);
        confRetransCount := confRetransCount + 1;
        core := CoreAbs();
      } else if linkState != Active {
        NotifyInitResult(3);
      }
    }

    /** The timeout branch of data_retransfer_thread. */
    method DataRetransTimeout(initializing: bool)
      requires CoreValid()
      modifies this, sender.repr
      ensures CoreValid() && sender.repr == old(sender.repr)
      ensures core == DataTimeout(old(core), initializing)
    {
      var limit := if initializing then BT_INIT_DATA_RETRANS_COUNT else DATA_RETRANS_COUNT;
      if dataRetransCount < limit {
        sender.Retransmit();
        dataRetransCount := dataRetransCount + 1;
        core := CoreAbs();
      } else {
        SendHwError();
      }
    }

    /** h5_wait_controller_baudrate_ready_timeout_handler. */
    method BaudrateReadyTimeout()
      requires CoreValid()
      modifies this
      ensures CoreValid() && core == BaudrateReady(old(core))
    {
      if internalSkb.Some? {
        recvData := recvData + [internalSkb.value];
        internalSkb := None;
        core := CoreAbs();
      }
    }

    /** hci_h5_send_cmd, hci_h5_send_acl_data and hci_h5_send_sco_data. */
    method SendPacket(skb: Skb)
      requires CoreValid()
      modifies this, sender.repr
      ensures CoreValid() && fresh(sender.repr - old(sender.repr))
      ensures core == Send(old(core), skb)
    {
      sender.Submit(skb);
      core := Send(core, skb);
    }

    /** hci_h5_send_sync_cmd with the H5 initialisation opcode. */
    method SendSyncCommand()
      requires CoreValid()
      modifies this, sender.repr
      ensures CoreValid() && fresh(sender.repr - old(sender.repr))
      ensures core == StartSync(old(core))
    {
      if linkState == Uninitialized {
        SendControl(SYNC_REQ);
      }
    }

    // ----- a completed packet

    /** The number a reliable packet carries moves the expected one, and is acknowledged. */
    method AcceptReliable(h: seq<byte>)
      requires CoreValid() && |h| == 4
      modifies this, sender.repr
      ensures CoreValid() && sender.repr == old(sender.repr)
      ensures core == if HdrReliable(h) then old(core).(tx := WakeUp(Accept(old(core).tx, HdrSeq(h)))) else old(core)
    {
      if HdrReliable(h) {
        sender.AcceptAndAck(HdrSeq(h));
        core := CoreAbs();
      }
    }

    /** The acknowledgement it carries; the retransmission count starts again once nothing is
        outstanding. */
    method TakeAck(h: seq<byte>)
      requires CoreValid() && |h| == 4
      modifies this, sender.repr
      ensures CoreValid() && sender.repr == old(sender.repr)
      ensures core == Acknowledged(old(core), HdrAck(h))
    {
      rxack := HdrAck(h);
      sender.RemoveAckedPkt(rxack);
      if sender.unack.queueLen == 0 {
        dataRetransCount := 0;
      }
      core := CoreAbs();
    }

    /** hci_recv_frame, and the queue to the stack for what it does not keep. */
    method DeliverPacket(ptype: byte, skb: RtkBuffer)
      requires CoreValid() && skb.Valid()
      modifies this
      ensures CoreValid() && core == Deliver(old(core), ptype, skb.Content())
    {
      var data := skb.head[skb.data..skb.end];
      if ptype == EVENT_PKT && PeekAt(skb, 0) == 0x0e && PeekAt(skb, 3) == 0x17 && PeekAt(skb, 4) == 0xfc {
        internalSkb := Some(Skb(ptype, data));
      } else {
        recvData := recvData + [Skb(ptype, data)];
      }
      core := CoreAbs();
    }

    method Dispatch(ptype: byte, skb: RtkBuffer)
      requires CoreValid() && skb.Valid()
      modifies this, sender.repr
      ensures CoreValid() && fresh(sender.repr - old(sender.repr))
      ensures core == Dispatched(old(core), ptype, old(skb.Content()))
    {
      if ptype == LINK_CTL_PKT {
        ProcessCtlPkts(skb);
      } else if PassUp(ptype) {
        DeliverPacket(ptype, skb);
      }
    }

    function FirstFour(skb: RtkBuffer): (h: seq<byte>)
      requires skb.Valid() && |skb.Content()| >= 4
      reads skb, skb.head
      ensures h == skb.Content()[..4]
    {
      skb.head[skb.data..skb.data + 4]
    }

    method PullAndDispatch(ptype: byte, skb: RtkBuffer)
      requires CoreValid() && skb.Valid() && |skb.Content()| >= 4
      requires skb !in sender.repr && skb.head !in sender.repr
      modifies this, sender.repr, skb
      ensures CoreValid() && fresh(sender.repr - old(sender.repr))
      ensures core == Dispatched(old(core), ptype, old(skb.Content())[4..])
    {
      var _ := skb.RemoveHead(4);
      Dispatch(ptype, skb);
    }

    /** h5_complete_rx_pkt, on the buffer that has left the decoder. */
    method CompleteRxPkt(skb: RtkBuffer, ghost hdr: seq<byte>, ghost data: seq<byte>)
      requires CoreValid() && Holds(skb, hdr, data)
      requires skb !in sender.repr && skb.head !in sender.repr
      modifies this, sender.repr, skb
      ensures CoreValid() && fresh(sender.repr - old(sender.repr))
      ensures core == Complete(old(core), hdr, data)
    {
      var h := FirstFour(skb);
      AcceptReliable(h);
      TakeAck(h);
      PullAndDispatch(HdrType(h), skb);
    }

    /** An out-of-order packet has the expected number acknowledged again. */
    method RefusePacket()
      requires CoreValid()
      modifies this, sender.repr
      ensures CoreValid() && sender.repr == old(sender.repr) && core == Refuse(old(core))
    {
      sender.AckAgain();
      core := CoreAbs();
    }

    /** What the decoder reports is acted on. */
    method Act(refused: bool, skb: RtkBuffer?, ghost e: Event) returns (completed: bool)
      requires CoreValid() && Reports(refused, skb, e)
      requires skb != null ==> skb !in sender.repr && skb.head !in sender.repr
      modifies this, sender.repr, skb
      ensures CoreValid() && fresh(sender.repr - old(sender.repr))
      ensures core == Apply(old(core), e) && (completed <==> e.Completed?)
    {
      completed := skb != null;
      if refused {
        RefusePacket();
      } else if skb != null {
        CompleteRxPkt(skb, e.h, e.data);
      }
    }

    // ----- h5_recv

    method FrameAdvance() returns (completed: bool)
      requires Valid() && decoder.rx.count == 0 && !Between(decoder.rx)
      modifies this, sender.repr, decoder.repr
      ensures Valid() && fresh(sender.repr - old(sender.repr)) && decoder.repr <= old(decoder.repr)
      ensures Abs() == Stepped(old(Abs()))
      ensures completed <==> Transition(old(decoder.rx), old(core.tx.expected)).event.Completed?
    {
      ghost var s := Transition(decoder.rx, core.tx.expected);
      var refused, skb := decoder.Advance(sender.rxseqTxack);
      completed := Act(refused, skb, s.event);
    }

    /** A byte outside any frame, or the first of one. */
    method BetweenFrames(b: byte) returns (used: bool)
      requires Valid() && Between(decoder.rx)
      modifies this, decoder.repr
      ensures Valid() && core == old(core) && sender.repr == old(sender.repr)
      ensures fresh(decoder.repr - old(decoder.repr))
      ensures used ==> Abs() == RecvByte(old(Abs()), b) && !Completing(old(Abs()), b)
      ensures !used ==> old(decoder.rx.state) == W4Start && b != DELIM && decoder.rx == Begun()
    {
      used := true;
      if b == DELIM {
        decoder.Drop(W4Start);
      } else if decoder.rxState == W4Start {
        decoder.Begin();
        used := false;
      }
    }

    /** A byte inside a frame. */
    method InsideFrame(b: byte)
      requires Valid() && decoder.rx.count > 0
      modifies this, decoder.repr
      ensures Valid() && sender.repr == old(sender.repr) && fresh(decoder.repr - old(decoder.repr))
      ensures Abs() == RecvByte(old(Abs()), b) && !Completing(old(Abs()), b)
    {
      if b == DELIM {
        decoder.Drop(W4Start);
      } else {
        decoder.UnslipOneByte(b);
      }
    }

    /** One round of the loop in h5_recv. */
    method RecvRound(b: byte) returns (used: bool, completed: bool)
      requires Valid()
      modifies this, sender.repr, decoder.repr
      ensures Valid() && fresh(sender.repr - old(sender.repr)) && fresh(decoder.repr - old(decoder.repr))
      ensures RoundOutcome(old(Abs()), Abs(), b, used, completed)
    {
      used, completed := true, false;
      if decoder.rxCount > 0 {
        InsideFrame(b);
      } else if decoder.rxState == W4Delimiter || decoder.rxState == W4Start {
        used := BetweenFrames(b);
        if !used {
          BeginThenByte(old(Abs()), b);
        }
      } else {
        TransitionThenByte(Abs(), b);
        completed := FrameAdvance();
        used := false;
      }
    }

    /** The same, with everything the endpoint owns in `repr`. */
    method Round(b: byte) returns (used: bool, completed: bool)
      requires Owns()
      modifies repr
      ensures Owns() && fresh(repr - old(repr))
      ensures RoundOutcome(old(Abs()), Abs(), b, used, completed)
    {
      used, completed := RecvRound(b);
      repr := {this} + sender.repr + decoder.repr;
    }

    /** The rounds that end with `b` consumed. */
    method RecvOne(b: byte) returns (completed: bool)
      requires Owns()
      modifies repr
      ensures Owns() && fresh(repr - old(repr))
      ensures Abs() == RecvByte(old(Abs()), b) && completed == Completing(old(Abs()), b)
    {
      ghost var start := Abs();
      ghost var next := RecvByte(start, b);
      var used := false;
      completed := false;
      while !used
        invariant Owns() && fresh(repr - old(repr))
        invariant if used then Abs() == next else RecvByte(Abs(), b) == next
        invariant Completing(start, b) == (completed || (!used && Completing(Abs(), b)))
        decreases !used, Rank(decoder.rx)
      {
        var now;
        used, now := Round(b);
        completed := completed || now;
      }
    }

    /** One byte more of a chunk of which `s` has been received. */
    method RecvMore(ghost start: Ep, ghost s: seq<byte>, done: bool, b: byte) returns (completed: bool)
      requires Owns() && EpOk(start) && Abs() == Recv(start, s) && done == CompletesIn(start, s)
      modifies repr
      ensures Owns() && fresh(repr - old(repr))
      ensures Abs() == Recv(start, s + [b]) && completed == CompletesIn(start, s + [b])
    {
      RecvAppend(start, s, b);
      var now := RecvOne(b);
      completed := done || now;
    }

    /** h5_recv: a chunk is the same as its bytes one after the other, and the result tells whether a
        packet was completed in it. */
    method RecvChunk(data: seq<byte>) returns (completed: bool)
      requires Owns()
      modifies repr
      ensures Owns() && fresh(repr - old(repr))
      ensures Abs() == Recv(old(Abs()), data) && completed == CompletesIn(old(Abs()), data)
    {
      ghost var start := Abs();
      completed := false;
      for i := 0 to |data|
        invariant Owns() && fresh(repr - old(repr))
        invariant Abs() == Recv(start, data[..i]) && completed == CompletesIn(start, data[..i])
      {
        TakeNext(data, i);
        completed := RecvMore(start, data[..i], completed, data[i]);
      }
      TakeAll(data);
    }
  }
}
