/** One H5 endpoint as a value: the byte-driven receiver, what a completed packet does to the
    transport, and the link establishment states. Class H5.Endpoint is proved to follow these
    functions; the other H5 files prove what they mean. */
module H5Model {
  import opened Bytes
  import opened Slip
  import opened Frames
  import opened Option
  import opened RtkQueues
  import opened Transport

  datatype RxState = W4Delimiter | W4Start | W4Hdr | W4Data | W4Crc
  datatype LinkState = Uninitialized | Initialized | Active

  /** The frame being received; `buf` is the content of rx_skb. The running check message_crc is
      not kept here: class H5.Endpoint keeps it and proves it equal to Frames.Running(buf). */
  datatype Rx = Rx(state: RxState, count: nat, esc: bool, buf: seq<byte>)

  /** Everything but the receiver. */
  datatype Core = Core(
    tx: Tx,
    rxack: nat,
    link: LinkState,
    dic: bool,
    syncCount: nat,
    confCount: nat,
    retransCount: nat,
    /** Packets queued for the stack. */
    recvData: seq<Skb>,
    /** The intercepted baud-rate reply, until its timer fires. */
    internal: Option<Skb>,
    hwErrors: nat,
    /** What the code finds when it compares bytes beyond the end of a short payload. */
    stale: seq<byte>)

  datatype Ep = Ep(rx: Rx, core: Core)

  const SYNC_RETRANS_COUNT: nat := 350
  const CONF_RETRANS_COUNT: nat := 350
  const DATA_RETRANS_COUNT: nat := 40
  const BT_INIT_DATA_RETRANS_COUNT: nat := 200

  /** The buffer is allocated with 0x1005 bytes: payload, header and check. */
  const RX_CAPACITY: nat := 0x1005

  // ----- invariants

  /** In every reachable state the bytes in progress and those still expected add up to the size
      the header announces. */
  predicate RxOk(rx: Rx) {
    match rx.state
    case W4Delimiter => rx.count == 0 && rx.buf == []
    case W4Start => rx.count == 0 && rx.buf == []
    case W4Hdr => |rx.buf| + rx.count == 4
    case W4Data =>
      && |rx.buf| >= 4 && ChecksumOk(rx.buf[..4])
      && |rx.buf| + rx.count == 4 + HdrLen(rx.buf[..4])
    case W4Crc =>
      && |rx.buf| >= 4 && ChecksumOk(rx.buf[..4]) && HdrCrc(rx.buf[0])
      && 4 + HdrLen(rx.buf[..4]) <= |rx.buf|
      && |rx.buf| + rx.count == 6 + HdrLen(rx.buf[..4])
  }

  predicate CoreOk(c: Core) {
    TxOk(c.tx) && |c.stale| == 8
  }

  predicate EpOk(ep: Ep) {
    RxOk(ep.rx) && CoreOk(ep.core)
  }

  /** Storing never overruns the receive buffer: header, payload and check. */
  lemma RxFits(rx: Rx)
    requires RxOk(rx)
    ensures |rx.buf| + rx.count <= RX_CAPACITY == 4 + 0xfff + 2
  {}

  // ----- h5_unslip_one_byte

  function Store(rx: Rx, b: byte): Rx
    requires rx.count > 0
  {
    rx.(buf := rx.buf + [b], esc := false, count := rx.count - 1)
  }

  function Abandon(rx: Rx, state: RxState): Rx {
    rx.(state := state, count := 0, buf := [])
  }

  function Unslip(rx: Rx, b: byte): Rx
    requires rx.count > 0
  {
    if !rx.esc then
      if b == ESC then rx.(esc := true) else Store(rx, b)
    else if b == 0xdc then Store(rx, DELIM)
    else if b == 0xdd then Store(rx, ESC)
    else if b == 0xde then Store(rx, XON)
    else if b == 0xdf then Store(rx, XOFF)
    else Abandon(rx, W4Delimiter)
  }

  // ----- link establishment

  const SYNC_REQ: seq<byte> := [0x01, 0x7e]
  const SYNC_RESP: seq<byte> := [0x02, 0x7d]
  const CONF_REQ: seq<byte> := [0x03, 0xfc, 0x14]
  const CONF_RESP: seq<byte> := [0x04, 0x7b]

  function SendCtl(c: Core, msg: seq<byte>): (r: Core)
    requires TxOk(c.tx)
    ensures TxOk(r.tx)
  {
    c.(tx := WakeUp(Transport.Enqueue(c.tx, Skb(LINK_CTL_PKT, msg))))
  }

  /** rtk_notify_hw_h5_init_result: a synthetic Command Complete for the stack. */
  function Notify(c: Core, status: byte): Core {
    c.(recvData := c.recvData + [Skb(EVENT_PKT, [0x0e, 0x04, 0x03, 0xee, 0xfc, status])])
  }

  function Peek(c: Core, data: seq<byte>, i: nat): byte
    requires |c.stale| == 8 && i < 8
  {
    if i < |data| then data[i] else c.stale[i]
  }

  /** memcmp of the first two payload bytes. */
  predicate Says(b0: byte, b1: byte, msg: seq<byte>)
    requires |msg| >= 2
  {
    b0 == msg[0] && b1 == msg[1]
  }

  predicate Matches(c: Core, data: seq<byte>, msg: seq<byte>)
    requires |c.stale| == 8 && |msg| >= 2
  {
    Says(Peek(c, data, 0), Peek(c, data, 1), msg)
  }

  function Configured(c: Core, cfg: byte): Core {
    var dic := cfg / 16 % 2 == 1;
    c.(confCount := 0, link := Active, dic := dic,
        tx := c.tx.(window := cfg % 8, oof := cfg / 8 % 2 == 1, useCrc := c.tx.useCrc || dic))
  }

  /** h5_process_ctl_pkts, on the first two bytes of the payload and the configuration byte. */
  function Control(c: Core, b0: byte, b1: byte, cfg: byte): (r: Core)
    requires CoreOk(c)
    ensures CoreOk(r)
  {
    match c.link
    case Uninitialized =>
      if Says(b0, b1, SYNC_REQ) then SendCtl(c, SYNC_RESP)
      else if Says(b0, b1, SYNC_RESP) then SendCtl(c.(syncCount := 0, link := Initialized), CONF_REQ)
      else c
    case Initialized =>
      if Says(b0, b1, SYNC_REQ) then SendCtl(c, SYNC_RESP)
      else if Says(b0, b1, CONF_REQ) then SendCtl(c, CONF_RESP)
      else if Says(b0, b1, CONF_RESP) then Notify(Configured(c, cfg), 0)
      else c
    case Active =>
      if Says(b0, b1, SYNC_REQ) then
        var d := SendCtl(c.(hwErrors := c.hwErrors + 1), SYNC_RESP);
        SendCtl(d.(link := Uninitialized), SYNC_REQ)
      else if Says(b0, b1, CONF_REQ) then SendCtl(c, CONF_RESP)
      else c
  }

  function ProcessCtl(c: Core, data: seq<byte>): (r: Core)
    requires CoreOk(c)
    ensures CoreOk(r)
  {
    Control(c, Peek(c, data, 0), Peek(c, data, 1), Peek(c, data, 2))
  }

  // ----- h5_complete_rx_pkt

  predicate PassUp(ptype: byte) {
    ptype == ACL_PKT || ptype == EVENT_PKT || ptype == SCO_PKT || ptype == COMMAND_PKT
  }

  /** hci_recv_frame keeps the Command Complete for opcode 0xfc17 (update baud rate). */
  predicate Intercepted(c: Core, ptype: byte, data: seq<byte>)
    requires |c.stale| == 8
  {
    && ptype == EVENT_PKT && Peek(c, data, 0) == 0x0e
    && Peek(c, data, 3) == 0x17 && Peek(c, data, 4) == 0xfc
  }

  function Deliver(c: Core, ptype: byte, data: seq<byte>): (r: Core)
    requires |c.stale| == 8
  {
    if Intercepted(c, ptype, data) then c.(internal := Some(Skb(ptype, data)))
    else c.(recvData := c.recvData + [Skb(ptype, data)])
  }

  function Acknowledged(c: Core, ack: nat): Core {
    var tx := RemoveAcked(c.tx, ack);
    c.(rxack := ack, tx := tx, retransCount := if tx.unack == [] then 0 else c.retransCount)
  }

  /** A reliable packet moves the expected number and is acknowledged at once; every packet's
      acknowledgement is processed; control packets drive the link, the others go up. */
  function Complete(c: Core, h: seq<byte>, data: seq<byte>): (r: Core)
    requires CoreOk(c) && |h| == 4
    ensures CoreOk(r)
  {
    Dispatched(Numbered(c, h), HdrType(h), data)
  }

  function Numbered(c: Core, h: seq<byte>): (r: Core)
    requires CoreOk(c) && |h| == 4
    ensures CoreOk(r)
  {
    var d := if HdrReliable(h) then c.(tx := WakeUp(Accept(c.tx, HdrSeq(h)))) else c;
    Acknowledged(d, HdrAck(h))
  }

  function Dispatched(c: Core, ptype: byte, data: seq<byte>): (r: Core)
    requires CoreOk(c)
    ensures CoreOk(r)
  {
    if ptype == LINK_CTL_PKT then ProcessCtl(c, data)
    else if PassUp(ptype) then Deliver(c, ptype, data)
    else c
  }

  // ----- h5_recv

  /** What the receiver tells the rest of the endpoint. */
  datatype Event = Nothing | Refused | Completed(h: seq<byte>, data: seq<byte>)

  datatype Step = Step(rx: Rx, event: Event)

  predicate EventOk(e: Event) {
    e.Completed? ==> |e.h| == 4
  }

  predicate Between(rx: Rx) {
    rx.state == W4Delimiter || rx.state == W4Start
  }

  predicate OutOfOrder(h: seq<byte>, expected: nat)
    requires |h| == 4
  {
    HdrReliable(h) && HdrSeq(h) != expected
  }

  function CheckHeader(rx: Rx, expected: nat): (s: Step)
    requires RxOk(rx) && rx.count == 0 && rx.state == W4Hdr
    ensures RxOk(s.rx) && EventOk(s.event)
  {
    if !ChecksumOk(rx.buf) then Step(Abandon(rx, W4Delimiter), Nothing)
    else if OutOfOrder(rx.buf, expected) then Step(Abandon(rx, W4Delimiter), Refused)
    else
      assert rx.buf[..4] == rx.buf;
      Step(rx.(state := W4Data, count := HdrLen(rx.buf)), Nothing)
  }

  function PayloadDone(rx: Rx): (s: Step)
    requires RxOk(rx) && rx.count == 0 && rx.state == W4Data
    ensures RxOk(s.rx) && EventOk(s.event)
  {
    if HdrCrc(rx.buf[0]) then Step(rx.(state := W4Crc, count := 2), Nothing)
    else Step(Abandon(rx, W4Delimiter), Completed(rx.buf[..4], rx.buf[4..]))
  }

  function CheckCrc(rx: Rx): (s: Step)
    requires RxOk(rx) && rx.count == 0 && rx.state == W4Crc
    ensures RxOk(s.rx) && EventOk(s.event)
  {
    var n := |rx.buf| - 2;
    Step(Abandon(rx, W4Delimiter),
         if CheckOk(rx.buf, n) then Completed(rx.buf[..4], rx.buf[4..n]) else Nothing)
  }

  /** The transitions that consume nothing, taken once `count` has reached zero. */
  function Settle(rx: Rx, expected: nat): (s: Step)
    requires RxOk(rx)
    ensures RxOk(s.rx) && EventOk(s.event)
    ensures s.rx.count == 0 ==> Between(s.rx)
  {
    if rx.count > 0 then Step(rx, Nothing)
    else
      match rx.state
      case W4Hdr =>
        var s := CheckHeader(rx, expected);
        if s.rx.state == W4Data && s.rx.count == 0 then PayloadDone(s.rx) else s
      case W4Data => PayloadDone(rx)
      case W4Crc => CheckCrc(rx)
      case _ => Step(rx, Nothing)
  }

  function Begun(): (r: Rx)
    ensures RxOk(r)
  {
    Rx(W4Hdr, 4, false, [])
  }

  /** The one transition that consumes the byte. */
  function Consume(rx: Rx, b: byte): (r: Rx)
    requires RxOk(rx) && (rx.count == 0 ==> Between(rx))
    ensures RxOk(r)
  {
    if rx.count > 0 then
      if b == DELIM then Abandon(rx, W4Start)
      else
        UnslipOk(rx, b);
        Unslip(rx, b)
    else if b == DELIM then rx.(state := W4Start)
    else if rx.state == W4Delimiter then rx
    else
      UnslipOk(Begun(), b);
      Unslip(Begun(), b)
  }

  lemma StoreOk(rx: Rx, b: byte)
    requires RxOk(rx) && rx.count > 0
    ensures RxOk(Store(rx, b))
  {
    var buf := rx.buf + [b];
    if |rx.buf| >= 4 {
      assert buf[..4] == rx.buf[..4];
    }
  }

  lemma UnslipOk(rx: Rx, b: byte)
    requires RxOk(rx) && rx.count > 0
    ensures RxOk(Unslip(rx, b))
  {
    forall x: byte { StoreOk(rx, x); }
  }

  function RxByte(rx: Rx, expected: nat, b: byte): (s: Step)
    requires RxOk(rx)
    ensures RxOk(s.rx) && EventOk(s.event)
  {
    var s := Settle(rx, expected);
    Step(Consume(s.rx, b), s.event)
  }

  /** An out-of-order packet has the expected number acknowledged again. */
  function Refuse(c: Core): (r: Core)
    requires CoreOk(c)
    ensures CoreOk(r)
  {
    c.(tx := WakeUp(c.tx.(ackReq := true)))
  }

  function Apply(c: Core, e: Event): (r: Core)
    requires CoreOk(c) && EventOk(e)
    ensures CoreOk(r)
  {
    match e
    case Nothing => c
    case Refused => Refuse(c)
    case Completed(h, data) => Complete(c, h, data)
  }

  function RecvByte(ep: Ep, b: byte): (r: Ep)
    requires EpOk(ep)
    ensures EpOk(r)
  {
    var s := RxByte(ep.rx, ep.core.tx.expected, b);
    Ep(s.rx, Apply(ep.core, s.event))
  }

  /** The byte completes a packet. */
  predicate Completing(ep: Ep, b: byte)
    requires EpOk(ep)
  {
    RxByte(ep.rx, ep.core.tx.expected, b).event.Completed?
  }

  /** h5_recv on a whole chunk. */
  function Recv(ep: Ep, bytes: seq<byte>): (r: Ep)
    requires EpOk(ep)
    ensures EpOk(r)
    decreases |bytes|
  {
    if bytes == [] then ep else RecvByte(Recv(ep, bytes[..|bytes| - 1]), bytes[|bytes| - 1])
  }

  /** Whether a packet is completed in a chunk: the result of h5_recv. */
  predicate CompletesIn(ep: Ep, bytes: seq<byte>)
    requires EpOk(ep)
    decreases |bytes|
  {
    bytes != [] &&
      var n := |bytes| - 1;
      CompletesIn(ep, bytes[..n]) || Completing(Recv(ep, bytes[..n]), bytes[n])
  }

  // ----- timers and callers

  /** h5_sync_retrans_timeout_handler. */
  function SyncTimeout(c: Core): (r: Core)
    requires CoreOk(c)
    ensures CoreOk(r)
  {
    if c.syncCount < SYNC_RETRANS_COUNT then SendCtl(c, SYNC_REQ).(syncCount := c.syncCount + 1)
    else if c.link == Uninitialized then Notify(c, 3)
    else c
  }

  /** h5_conf_retrans_timeout_handler. */
  function ConfTimeout(c: Core): (r: Core)
    requires CoreOk(c)
    ensures CoreOk(r)
  {
    if c.confCount < CONF_RETRANS_COUNT then SendCtl(c, CONF_REQ).(confCount := c.confCount + 1)
    else if c.link != Active then Notify(c, 3)
    else c
  }

  /** data_retransfer_thread: rewind and send again, or give up after too many timeouts. */
  function DataTimeout(c: Core, initializing: bool): (r: Core)
    requires CoreOk(c)
    ensures CoreOk(r)
  {
    var limit := if initializing then BT_INIT_DATA_RETRANS_COUNT else DATA_RETRANS_COUNT;
    if c.retransCount < limit then
      c.(tx := WakeUp(Rewind(c.tx)), retransCount := c.retransCount + 1)
    else
      c.(hwErrors := c.hwErrors + 1)
  }

  /** h5_wait_controller_baudrate_ready_timeout_handler. */
  function BaudrateReady(c: Core): (r: Core)
    requires CoreOk(c)
    ensures CoreOk(r)
  {
    match c.internal
    case None => c
    case Some(skb) => c.(recvData := c.recvData + [skb], internal := None)
  }

  /** hci_h5_send_cmd, _acl_data and _sco_data: queue and send. */
  function Send(c: Core, skb: Skb): (r: Core)
    requires CoreOk(c)
    ensures CoreOk(r)
  {
    c.(tx := WakeUp(Transport.Enqueue(c.tx, skb)))
  }

  /** hci_h5_send_sync_cmd with the H5 initialisation opcode. */
  function StartSync(c: Core): (r: Core)
    requires CoreOk(c)
    ensures CoreOk(r)
  {
    if c.link == Uninitialized then SendCtl(c, SYNC_REQ) else c
  }

  /** hci_h5_int_init. */
  function Init(stale: seq<byte>): (r: Ep)
    requires |stale| == 8
    ensures EpOk(r)
  {
    Ep(Rx(W4Delimiter, 0, false, []),
       Core(Tx([], [], [], 0, 0, false, 0, false, false, []),
            0, Uninitialized, false, 0, 0, 0, [], None, 0, stale))
  }
}
