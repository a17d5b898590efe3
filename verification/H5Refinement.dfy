/** Every input of one endpoint, the bytes of frames among them, does to its transport what moves of
    the two-endpoint protocol do: the theorems of GoBackN are about the endpoint of H5Model. */
module H5Refinement {
  import opened Bytes
  import opened Frames
  import opened RtkQueues
  import opened Transport
  import opened H5Model
  import H5Link
  import H5Receiver
  import opened GoBackN

  type Moves = seq<(bool, Move)>

  lemma RunOne(w: World, m: Move)
    ensures Run(w, [(true, m)]) == StepA(w, m)
  {
    assert [(true, m)][..0] == [];
  }

  /** The frames that entered the channel from side a are those it logged, and can be encoded. */
  predicate Logged(w: World, v: World) {
    var ahead := |w.a.tx.log| - |w.ab|;
    && w.ab <= v.ab && w.a.tx.log <= v.a.tx.log && |v.a.tx.log| == |v.ab| + ahead
    && forall j :: |w.ab| <= j < |v.ab| ==>
         v.ab[j].frame == v.a.tx.log[j + ahead].frame && Sendable(v.ab[j].frame)
  }

  lemma LoggedAfter(u: World, v: World, w: World)
    requires Logged(u, v) && Logged(v, w)
    ensures Logged(u, w)
  {
    var ahead := |u.a.tx.log| - |u.ab|;
    forall j | |u.ab| <= j < |w.ab|
      ensures w.ab[j].frame == w.a.tx.log[j + ahead].frame && Sendable(w.ab[j].frame)
    {
      if j < |v.ab| {
        assert w.ab[j] == v.ab[j] && w.a.tx.log[j + ahead] == v.a.tx.log[j + ahead];
      }
    }
  }

  /** Moves of side a alone, which take nothing from the channel and queue the packets `queued`. */
  predicate Local(w: World, v: World, queued: seq<Skb>) {
    && Logged(w, v) && v.a.tx.expected == w.a.tx.expected
    && v == World(w.a.(tx := v.a.tx, queued := w.a.queued + queued), w.b, v.ab, w.ba)
  }

  lemma LocalAfter(u: World, v: World, w: World, queued: seq<Skb>)
    requires Local(u, v, queued) && Local(v, w, [])
    ensures Local(u, w, queued)
  {
    LoggedAfter(u, v, w);
    assert u.a.queued + queued + [] == u.a.queued + queued;
  }

  lemma NoMoves(w: World)
    ensures Run(w, []) == w && Local(w, w, [])
  {
    assert w.a.queued + [] == w.a.queued;
  }

  // ----- the wake-up

  /** h5_wake_up is a run of single sends. */
  lemma {:induction false} WakeUpIsMoves(w: World) returns (moves: Moves, v: World)
    requires TxOk(w.a.tx)
    ensures v == Run(w, moves) && Local(w, v, []) && v.a == w.a.(tx := WakeUp(w.a.tx))
    decreases Backlog(w.a.tx)
  {
    moves, v := [], w;
    NoMoves(w);
    DequeueKeeps(w.a.tx);
    if Dequeue(w.a.tx).Some? {
      var u := StepA(w, SendOne);
      RunOne(w, SendOne);
      var rest;
      rest, v := WakeUpIsMoves(u);
      moves := [(true, SendOne)] + rest;
      RunAfter(w, [(true, SendOne)], rest);
      LoggedAfter(w, u, v);
    }
  }

  /** A move of side a and then a wake-up. */
  lemma MoveThenWakeUp(w: World, m: Move) returns (moves: Moves, v: World)
    requires var u := StepA(w, m);
      TxOk(u.a.tx) && u.ab == w.ab && u.a.tx.log == w.a.tx.log
    ensures var u := StepA(w, m);
      && v == Run(w, moves) && Logged(w, v) && Local(u, v, []) && v.a == u.a.(tx := WakeUp(u.a.tx))
  {
    var u := StepA(w, m);
    var rest;
    rest, v := WakeUpIsMoves(u);
    moves := [(true, m)] + rest;
    RunOne(w, m);
    RunAfter(w, [(true, m)], rest);
    assert Logged(w, u);
    LoggedAfter(w, u, v);
  }

  /** Some moves, and one more of side a that sends nothing. */
  lemma ThenMove(w: World, moves: Moves, u: World, m: Move) returns (more: Moves, v: World)
    requires u == Run(w, moves) && Logged(w, u)
    requires var v := StepA(u, m); v.ab == u.ab && v.a.tx.log == u.a.tx.log
    ensures v == Run(w, more) == StepA(u, m) && Logged(w, v)
  {
    more, v := moves + [(true, m)], StepA(u, m);
    RunAfter(w, moves, [(true, m)]);
    RunOne(u, m);
    assert Logged(u, v);
    LoggedAfter(w, u, v);
  }

  lemma Chain(w: World, m1: Moves, u: World, m2: Moves, v: World, queued: seq<Skb>) returns (moves: Moves)
    requires u == Run(w, m1) && v == Run(u, m2) && Local(w, u, queued) && Local(u, v, [])
    ensures v == Run(w, moves) && Local(w, v, queued)
  {
    moves := m1 + m2;
    RunAfter(w, m1, m2);
    LocalAfter(w, u, v, queued);
  }

  // ----- packets from the stack, timers and link control

  /** What becomes part of the reliable stream. */
  function Reliably(skb: Skb): seq<Skb> {
    if |skb.data| <= MAX_PAYLOAD && (skb.ptype == ACL_PKT || skb.ptype == COMMAND_PKT) then [skb] else []
  }

  /** A packet is queued and everything that may be sent is. */
  lemma SubmitIsMoves(w: World, skb: Skb) returns (moves: Moves, v: World)
    requires TxOk(w.a.tx)
    ensures v == Run(w, moves) && Local(w, v, Reliably(skb))
    ensures v.a.tx == WakeUp(Transport.Enqueue(w.a.tx, skb))
  {
    moves, v := MoveThenWakeUp(w, Queue(skb));
    assert w.a.queued + [] == w.a.queued;
  }

  lemma SendCtlIsMoves(w: World, c: Core, msg: seq<byte>) returns (moves: Moves, v: World)
    requires CoreOk(c) && c.tx == w.a.tx
    ensures v == Run(w, moves) && Local(w, v, []) && v.a.tx == SendCtl(c, msg).tx
  {
    moves, v := SubmitIsMoves(w, Skb(LINK_CTL_PKT, msg));
  }

  lemma RestartIsMoves(w: World, c: Core) returns (moves: Moves, v: World)
    requires CoreOk(c) && c.tx == w.a.tx
    ensures v == Run(w, moves) && Local(w, v, [])
    ensures var d := SendCtl(c.(hwErrors := c.hwErrors + 1), SYNC_RESP);
      v.a.tx == SendCtl(d.(link := Uninitialized), SYNC_REQ).tx
  {
    var d := SendCtl(c.(hwErrors := c.hwErrors + 1), SYNC_RESP);
    var m1, u := SendCtlIsMoves(w, c.(hwErrors := c.hwErrors + 1), SYNC_RESP);
    var m2;
    m2, v := SendCtlIsMoves(u, d.(link := Uninitialized), SYNC_REQ);
    moves := Chain(w, m1, u, m2, v, []);
  }

  lemma ConfiguredIsMoves(w: World, c: Core, cfg: byte) returns (moves: Moves, v: World)
    requires CoreOk(c) && c.tx == w.a.tx
    ensures v == Run(w, moves) && Local(w, v, []) && v.a.tx == Configured(c, cfg).tx
  {
    var m := Settings(cfg % 8, cfg / 8 % 2 == 1, c.tx.useCrc || cfg / 16 % 2 == 1);
    moves, v := [(true, m)], StepA(w, m);
    RunOne(w, m);
    assert w.a.queued + [] == w.a.queued;
  }

  /** A link control packet, in any state of the link: what it is answered by is queued and sent, and
      a config response sets window, flow control and check. */
  lemma ControlIsMoves(w: World, c: Core, data: seq<byte>) returns (moves: Moves, v: World)
    requires CoreOk(c) && c.tx == w.a.tx
    ensures v == Run(w, moves) && Local(w, v, []) && v.a.tx == ProcessCtl(c, data).tx
  {
    moves, v := [], w;
    NoMoves(w);
    if c.link == Uninitialized && H5Link.SyncAnswered(c, data) {
      moves, v := SendCtlIsMoves(w, c.(syncCount := 0, link := Initialized), CONF_REQ);
    } else if H5Link.ConfAnswered(c, data) {
      moves, v := ConfiguredIsMoves(w, c, Peek(c, data, 2));
    } else if H5Link.PeerRestarted(c, data) {
      moves, v := RestartIsMoves(w, c);
    } else if Matches(c, data, SYNC_REQ) {
      moves, v := SendCtlIsMoves(w, c, SYNC_RESP);
    } else if Matches(c, data, CONF_REQ) && c.link != Uninitialized {
      moves, v := SendCtlIsMoves(w, c, CONF_RESP);
    }
  }

  /** Every timer, and everything the stack or the library asks for. */
  lemma InputIsMoves(w: World, ep: Ep, i: H5Link.Input) returns (moves: Moves, v: World)
    requires EpOk(ep) && ep.core.tx == w.a.tx && !i.Byte?
    ensures v == Run(w, moves) && Local(w, v, if i.Packet? then Reliably(i.skb) else [])
    ensures v.a.tx == H5Link.Next(ep, i).core.tx
  {
    var c := ep.core;
    moves, v := [], w;
    NoMoves(w);
    match i
    case Packet(skb) => moves, v := SubmitIsMoves(w, skb);
    case SyncCommand =>
      if c.link == Uninitialized {
        moves, v := SendCtlIsMoves(w, c, SYNC_REQ);
      }
    case SyncTimer =>
      if c.syncCount < SYNC_RETRANS_COUNT {
        moves, v := SendCtlIsMoves(w, c, SYNC_REQ);
      }
    case ConfTimer =>
      if c.confCount < CONF_RETRANS_COUNT {
        moves, v := SendCtlIsMoves(w, c, CONF_REQ);
      }
    case DataTimer(initializing) =>
      if c.retransCount < (if initializing then BT_INIT_DATA_RETRANS_COUNT else DATA_RETRANS_COUNT) {
        moves, v := MoveThenWakeUp(w, Timeout);
      }
    case BaudrateTimer =>
  }

  // ----- frames

  /** What an intact frame is to the receiver. */
  function EventOf(f: Frame, expected: nat): (e: Event)
    requires Fits(f)
    ensures EventOk(e)
  {
    if f.rel && f.seqno != expected then Refused else Event.Completed(Header(f), f.data)
  }

  function NewlyAccepted(f: Frame, expected: nat): seq<Skb> {
    if f.rel && f.seqno == expected then [Skb(f.ptype, f.data)] else []
  }

  /** The first frame in the channel is received. */
  predicate Taken(w: World, v: World, expected: nat)
    requires w.ba != []
  {
    var accepted := w.a.accepted + NewlyAccepted(w.ba[0].frame, expected);
    && Logged(w, v) && v.a.held.None?
    && v == World(Side(v.a.tx, v.a.held, w.a.queued, v.a.acked, accepted), w.b, v.ab, w.ba[1..])
  }

  /** Up to and including the processing of its acknowledgement. */
  lemma NumberedIsMoves(w: World, c: Core) returns (moves: Moves, v: World)
    requires CoreOk(c) && c.tx == w.a.tx && w.ba != [] && w.a.held.None? && Fits(w.ba[0].frame)
    requires var f := w.ba[0].frame; f.rel ==> f.seqno == c.tx.expected
    ensures v == Run(w, moves) && Taken(w, v, c.tx.expected)
    ensures v.a.tx == Numbered(c, Header(w.ba[0].frame)).tx
  {
    var f := w.ba[0].frame;
    HeaderFields(f);
    assert w.a.accepted + [] == w.a.accepted;
    var u := StepA(w, Receive);
    RunOne(w, Receive);
    moves, v := [(true, Receive)], u;
    if f.rel {
      moves, v := MoveThenWakeUp(w, Receive);
    }
    moves, v := ThenMove(w, moves, v, ProcessAck);
  }

  lemma RefusedIsMoves(w: World, c: Core) returns (moves: Moves, v: World)
    requires CoreOk(c) && c.tx == w.a.tx && w.ba != [] && w.a.held.None?
    requires var f := w.ba[0].frame; f.rel && f.seqno != c.tx.expected
    ensures v == Run(w, moves) && Taken(w, v, c.tx.expected) && v.a.tx == Refuse(c).tx
  {
    assert w.a.accepted + [] == w.a.accepted;
    moves, v := MoveThenWakeUp(w, Receive);
  }

  /** A frame of any type, completed or refused. */
  lemma FrameIsMoves(w: World, c: Core) returns (moves: Moves, v: World)
    requires CoreOk(c) && c.tx == w.a.tx && w.ba != [] && w.a.held.None? && Fits(w.ba[0].frame)
    ensures v == Run(w, moves) && Taken(w, v, c.tx.expected)
    ensures v.a.tx == Apply(c, EventOf(w.ba[0].frame, c.tx.expected)).tx
  {
    var f := w.ba[0].frame;
    if f.rel && f.seqno != c.tx.expected {
      moves, v := RefusedIsMoves(w, c);
    } else {
      HeaderFields(f);
      var h := Header(f);
      moves, v := NumberedIsMoves(w, c);
      if f.ptype == LINK_CTL_PKT {
        var m1, u := moves, v;
        var m2;
        m2, v := ControlIsMoves(u, Numbered(c, h), f.data);
        moves := m1 + m2;
        RunAfter(w, m1, m2);
        LoggedAfter(w, u, v);
      } else {
        H5Link.DeliveryKeepsTx(c, h, f.data);
      }
    }
  }

  /** An endpoint that receives the bytes of the frame at the head of the channel, in whatever reads,
      changes its transport as a run of the two-endpoint protocol does, and puts on the wire the
      frames that run puts into the channel. */
  lemma ReceivingIsMoves(w: World, ep: Ep, oof: bool, chunks: seq<seq<byte>>)
      returns (moves: Moves, v: World)
    requires EpOk(ep) && Between(ep.rx) && ep.core.tx == w.a.tx && w.ba != [] && w.a.held.None?
    requires Fits(w.ba[0].frame) && Flatten(chunks) == Encode(oof, w.ba[0].frame)
    ensures v == Run(w, moves) && Taken(w, v, ep.core.tx.expected)
    ensures v.a.tx == H5Receiver.RecvReads(ep, chunks).core.tx
  {
    var f := w.ba[0].frame;
    H5Receiver.ReadsDoNotMatter(ep, chunks);
    H5Receiver.OpenBetweenPackets(ep);
    H5Receiver.FrameFate(ep, oof, Plain(f));
    H5Receiver.FrameVerdict(ep.core.tx.expected, f);
    moves, v := FrameIsMoves(w, ep.core);
  }
}
