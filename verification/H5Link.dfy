/** Link establishment over whole runs (Core Specification Vol 4 Part D section 8). */
module H5Link {
  import opened Bytes
  import opened Frames
  import opened Option
  import opened RtkQueues
  import opened Transport
  import opened H5Model

  /** Everything that can happen to an endpoint, in any order. */
  datatype Input =
    | Byte(b: byte)
    | Packet(skb: Skb)
    | SyncCommand
    | SyncTimer
    | ConfTimer
    | DataTimer(initializing: bool)
    | BaudrateTimer

  function Next(ep: Ep, i: Input): (r: Ep)
    requires EpOk(ep)
    ensures EpOk(r)
  {
    match i
    case Byte(b) => RecvByte(ep, b)
    case Packet(skb) => ep.(core := Send(ep.core, skb))
    case SyncCommand => ep.(core := StartSync(ep.core))
    case SyncTimer => ep.(core := SyncTimeout(ep.core))
    case ConfTimer => ep.(core := ConfTimeout(ep.core))
    case DataTimer(init) => ep.(core := DataTimeout(ep.core, init))
    case BaudrateTimer => ep.(core := BaudrateReady(ep.core))
  }

  function Run(ep: Ep, run: seq<Input>): (r: Ep)
    requires EpOk(ep)
    ensures EpOk(r)
    decreases |run|
  {
    if run == [] then ep else Next(Run(ep, run[..|run| - 1]), run[|run| - 1])
  }

  // ----- what sending leaves alone

  predicate SameSettings(a: Tx, b: Tx) {
    (a.window, a.oof, a.useCrc) == (b.window, b.oof, b.useCrc)
  }

  lemma WakeUpKeepsSettings(tx: Tx)
    requires TxOk(tx)
    ensures SameSettings(WakeUp(tx), tx)
  {
    WakeUpIsDrained(tx);
  }

  lemma SendCtlKeeps(c: Core, msg: seq<byte>)
    requires TxOk(c.tx)
    ensures var r := SendCtl(c, msg);
      SameSettings(r.tx, c.tx) && r == c.(tx := r.tx)
  {
    WakeUpKeepsSettings(Transport.Enqueue(c.tx, Skb(LINK_CTL_PKT, msg)));
  }

  // ----- one input

  /** A completed link control packet, as the receiver reports it. */
  predicate IsControl(e: Event) {
    e.Completed? && |e.h| == 4 && HdrType(e.h) == LINK_CTL_PKT
  }

  predicate Keeps(c: Core, d: Core) {
    (d.link, d.dic, d.syncCount) == (c.link, c.dic, c.syncCount) && SameSettings(d.tx, c.tx)
  }

  predicate SyncAnswered(c: Core, data: seq<byte>)
    requires CoreOk(c)
  {
    c.link == Uninitialized && Matches(c, data, SYNC_RESP)
  }

  predicate ConfAnswered(c: Core, data: seq<byte>)
    requires CoreOk(c)
  {
    c.link == Initialized && Matches(c, data, CONF_RESP)
  }

  predicate PeerRestarted(c: Core, data: seq<byte>)
    requires CoreOk(c)
  {
    c.link == Active && Matches(c, data, SYNC_REQ)
  }

  /** Exactly three control packets move the link, each in one state: a sync response, a config
      response, and a sync request from a peer that restarted. Only the config response touches
      the settings, and it takes all of them from its configuration byte. */
  lemma ControlMoves(c: Core, data: seq<byte>)
    requires CoreOk(c)
    ensures var d := ProcessCtl(c, data);
      && (SyncAnswered(c, data) <==> c.link != Initialized && d.link == Initialized)
      && (ConfAnswered(c, data) <==> c.link != Active && d.link == Active)
      && (PeerRestarted(c, data) <==> c.link != Uninitialized && d.link == Uninitialized)
      && d.syncCount == (if SyncAnswered(c, data) then 0 else c.syncCount)
      && (!ConfAnswered(c, data) ==> SameSettings(d.tx, c.tx) && d.dic == c.dic)
      && (ConfAnswered(c, data) ==>
            var cfg := Peek(c, data, 2);
            && d.tx.window == cfg % 8 && d.tx.oof == (cfg / 8 % 2 == 1)
            && d.dic == (cfg / 16 % 2 == 1) && d.tx.useCrc == (c.tx.useCrc || d.dic))
  {
    SendCtlKeeps(c, SYNC_RESP);
    SendCtlKeeps(c, CONF_RESP);
    SendCtlKeeps(c.(syncCount := 0, link := Initialized), CONF_REQ);
    SendCtlKeeps(c.(hwErrors := c.hwErrors + 1), SYNC_RESP);
    SendCtlKeeps(SendCtl(c.(hwErrors := c.hwErrors + 1), SYNC_RESP).(link := Uninitialized), SYNC_REQ);
  }

  lemma NumberedKeeps(c: Core, h: seq<byte>)
    requires CoreOk(c) && |h| == 4
    ensures Keeps(c, Numbered(c, h))
  {
    WakeUpKeepsSettings(Accept(c.tx, HdrSeq(h)));
  }

  lemma EventMoves(c: Core, e: Event)
    requires CoreOk(c) && EventOk(e)
    ensures if IsControl(e) then Apply(c, e) == ProcessCtl(Numbered(c, e.h), e.data) && Keeps(c, Numbered(c, e.h))
            else Keeps(c, Apply(c, e))
  {
    if e.Completed? {
      NumberedKeeps(c, e.h);
    } else {
      WakeUpKeepsSettings(c.tx.(ackReq := true));
    }
  }

  /** No caller and no timer moves the link or its settings. */
  lemma OthersKeep(c: Core, i: Input)
    requires CoreOk(c) && !i.Byte?
    ensures var d := Next(Ep(Begun(), c), i).core;
      d.link == c.link && d.dic == c.dic && SameSettings(d.tx, c.tx)
      && d.syncCount == (if i.SyncTimer? && c.syncCount < SYNC_RETRANS_COUNT then c.syncCount + 1 else c.syncCount)
  {
    match i
    case Packet(skb) => WakeUpKeepsSettings(Transport.Enqueue(c.tx, skb));
    case SyncCommand => SendCtlKeeps(c, SYNC_REQ);
    case SyncTimer => SendCtlKeeps(c, SYNC_REQ);
    case ConfTimer => SendCtlKeeps(c, CONF_REQ);
    case DataTimer(_) => WakeUpKeepsSettings(Rewind(c.tx));
    case BaudrateTimer =>
  }

  /** The moves of one input, whatever it is. */
  predicate Move(c: Core, d: Core) {
    && (d.link == c.link
        || (c.link == Uninitialized && d.link == Initialized)
        || (c.link == Initialized && d.link == Active)
        || (c.link == Active && d.link == Uninitialized))
    && ((SameSettings(d.tx, c.tx) && d.dic == c.dic) || (c.link == Initialized && d.link == Active))
  }

  lemma EventMovesLink(c: Core, e: Event)
    requires CoreOk(c) && EventOk(e)
    ensures var d := Apply(c, e);
      && Move(c, d)
      && (d.link == Active && c.link != Active ==> IsControl(e) && ConfAnswered(Numbered(c, e.h), e.data))
      && (d.link == Initialized && c.link != Initialized ==>
            IsControl(e) && SyncAnswered(Numbered(c, e.h), e.data))
      && (d.link == Uninitialized && c.link != Uninitialized ==>
            IsControl(e) && PeerRestarted(Numbered(c, e.h), e.data))
  {
    EventMoves(c, e);
    if IsControl(e) {
      ControlMoves(Numbered(c, e.h), e.data);
    }
  }

  /** Each state is entered only in one way, and only when a byte completes a control packet: ACTIVE by
      a config response, INITIALIZED by a sync response, UNINITIALIZED by a peer that restarted. */
  lemma NextMoves(ep: Ep, i: Input)
    requires EpOk(ep)
    ensures Move(ep.core, Next(ep, i).core)
    ensures Next(ep, i).core.link == Active && ep.core.link != Active ==>
      && i.Byte?
      && var e := RxByte(ep.rx, ep.core.tx.expected, i.b).event;
         IsControl(e) && ConfAnswered(Numbered(ep.core, e.h), e.data)
    ensures Next(ep, i).core.link == Initialized && ep.core.link != Initialized ==>
      && i.Byte?
      && var e := RxByte(ep.rx, ep.core.tx.expected, i.b).event;
         IsControl(e) && SyncAnswered(Numbered(ep.core, e.h), e.data)
    ensures Next(ep, i).core.link == Uninitialized && ep.core.link != Uninitialized ==>
      && i.Byte?
      && var e := RxByte(ep.rx, ep.core.tx.expected, i.b).event;
         IsControl(e) && PeerRestarted(Numbered(ep.core, e.h), e.data)
  {
    if i.Byte? {
      EventMovesLink(ep.core, RxByte(ep.rx, ep.core.tx.expected, i.b).event);
    } else {
      OthersKeep(ep.core, i);
    }
  }

  // ----- runs

  predicate EverActive(ep: Ep, run: seq<Input>)
    requires EpOk(ep)
    decreases |run|
  {
    Run(ep, run).core.link == Active || (run != [] && EverActive(ep, run[..|run| - 1]))
  }

  /** Nothing but unreliable frames without check and without flow-control escapes has been sent,
      and nothing is outstanding. */
  predicate Silent(tx: Tx) {
    && (tx.window, tx.unack, tx.oof, tx.useCrc) == (0, [], false, false)
    && forall s :: s in tx.log ==> (s.frame.rel, s.frame.crc, s.oof) == (false, false, false)
  }

  lemma {:induction false} SilentWakeUp(tx: Tx)
    requires TxOk(tx) && Silent(tx)
    ensures Silent(WakeUp(tx))
    decreases Backlog(tx)
  {
    if Dequeue(tx).Some? {
      assert tx.unrel != [] ==> IsUnreliable(tx.unrel[0].ptype);
      SilentWakeUp(Emit(Dequeue(tx).value.0, Dequeue(tx).value.1));
    }
  }

  lemma SilentSendCtl(c: Core, msg: seq<byte>)
    requires TxOk(c.tx) && Silent(c.tx)
    ensures Silent(SendCtl(c, msg).tx)
  {
    SilentWakeUp(Transport.Enqueue(c.tx, Skb(LINK_CTL_PKT, msg)));
  }

  lemma SilentControl(c: Core, data: seq<byte>)
    requires CoreOk(c) && Silent(c.tx) && c.link != Active && !ConfAnswered(c, data)
    ensures Silent(ProcessCtl(c, data).tx)
  {
    SilentSendCtl(c, SYNC_RESP);
    SilentSendCtl(c, CONF_RESP);
    SilentSendCtl(c.(syncCount := 0, link := Initialized), CONF_REQ);
  }

  lemma SilentAcknowledged(c: Core, ack: nat)
    requires Silent(c.tx)
    ensures Silent(Acknowledged(c, ack).tx)
  {
    assert AckedCount(c.tx, ack) <= 0;
  }

  lemma SilentAccept(tx: Tx, seqno: nat)
    requires TxOk(tx) && Silent(tx)
    ensures Silent(WakeUp(Accept(tx, seqno)))
  {
    SilentWakeUp(Accept(tx, seqno));
  }

  lemma SilentNumbered(c: Core, h: seq<byte>)
    requires CoreOk(c) && |h| == 4 && Silent(c.tx)
    ensures Silent(Numbered(c, h).tx)
  {
    SilentAccept(c.tx, HdrSeq(h));
    var c1 := if HdrReliable(h) then c.(tx := WakeUp(Accept(c.tx, HdrSeq(h)))) else c;
    SilentAcknowledged(c1, HdrAck(h));
  }

  lemma SilentApply(c: Core, e: Event)
    requires CoreOk(c) && EventOk(e) && Silent(c.tx)
    requires c.link != Active && Apply(c, e).link != Active
    ensures Silent(Apply(c, e).tx)
  {
    if e == Refused {
      SilentWakeUp(c.tx.(ackReq := true));
    } else if e.Completed? {
      SilentNumbered(c, e.h);
      EventMoves(c, e);
      if IsControl(e) {
        ControlMoves(Numbered(c, e.h), e.data);
        SilentControl(Numbered(c, e.h), e.data);
      } else {
        DeliveryKeepsTx(c, e.h, e.data);
      }
    }
  }

  lemma DeliveryKeepsTx(c: Core, h: seq<byte>, data: seq<byte>)
    requires CoreOk(c) && |h| == 4 && HdrType(h) != LINK_CTL_PKT
    ensures Complete(c, h, data).tx == Numbered(c, h).tx
  {}

  lemma SilentTimers(c: Core, i: Input)
    requires CoreOk(c) && Silent(c.tx) && !i.Byte?
    ensures Silent(Next(Ep(Begun(), c), i).core.tx)
  {
    match i
    case Packet(skb) => SilentWakeUp(Transport.Enqueue(c.tx, skb));
    case SyncCommand => SilentSendCtl(c, SYNC_REQ);
    case SyncTimer => SilentSendCtl(c, SYNC_REQ);
    case ConfTimer => SilentSendCtl(c, CONF_REQ);
    case DataTimer(_) => SilentWakeUp(Rewind(c.tx));
    case BaudrateTimer =>
  }

  lemma SilentNext(ep: Ep, i: Input)
    requires EpOk(ep) && Silent(ep.core.tx)
    requires ep.core.link != Active && Next(ep, i).core.link != Active
    ensures Silent(Next(ep, i).core.tx)
  {
    if i.Byte? {
      SilentApply(ep.core, RxByte(ep.rx, ep.core.tx.expected, i.b).event);
    } else {
      SilentTimers(ep.core, i);
    }
  }

  /** In every run from initialisation, no reliable packet is sent before the link first becomes
      active, whatever is queued, received or timed out meanwhile. */
  lemma {:induction false} NoReliableBeforeActive(stale: seq<byte>, run: seq<Input>)
    requires |stale| == 8 && !EverActive(Init(stale), run)
    ensures Silent(Run(Init(stale), run).core.tx)
    decreases |run|
  {
    if run != [] {
      var before := run[..|run| - 1];
      NoReliableBeforeActive(stale, before);
      SilentNext(Run(Init(stale), before), run[|run| - 1]);
    }
  }

  /** In every run, the window, flow-control and check settings keep their initial values until the
      link first becomes active. */
  lemma {:induction false} SettingsOnlyAfterActive(stale: seq<byte>, run: seq<Input>)
    requires |stale| == 8
    ensures var c := Run(Init(stale), run).core;
      !EverActive(Init(stale), run) ==> c.tx.window == 0 && !c.tx.oof && !c.tx.useCrc && !c.dic
    decreases |run|
  {
    if run != [] {
      var before := run[..|run| - 1];
      SettingsOnlyAfterActive(stale, before);
      NextMoves(Run(Init(stale), before), run[|run| - 1]);
    }
  }

  // ----- what link establishment puts on the wire

  /** A link control packet with this message is among the frames sent between the two. */
  predicate Sends(c: Core, d: Core, msg: seq<byte>) {
    && c.tx.log <= d.tx.log
    && exists k :: |c.tx.log| <= k < |d.tx.log|
         && d.tx.log[k].frame.ptype == LINK_CTL_PKT && d.tx.log[k].frame.data == msg
  }

  lemma SendCtlSends(c: Core, msg: seq<byte>)
    requires CoreOk(c) && |msg| <= MAX_PAYLOAD
    ensures Sends(c, SendCtl(c, msg), msg)
  {
    var tx := Transport.Enqueue(c.tx, Skb(LINK_CTL_PKT, msg));
    var n := |c.tx.unrel|;
    assert tx.unrel[n] == Skb(LINK_CTL_PKT, msg);
    WakeUpIsDrained(tx);
    BurstCarries(tx.oof, tx.txseq, tx.expected, tx.useCrc, tx.unrel, n);
    assert SentBy(tx)[n] == BurstOf(tx, tx.unrel)[n];
    assert SendCtl(c, msg).tx.log[|c.tx.log| + n] == SentBy(tx)[n];
  }

  lemma SendsThen(c: Core, d: Core, e: Core, first: seq<byte>, second: seq<byte>)
    requires Sends(c, d, first) && Sends(d, e, second)
    ensures Sends(c, e, first) && Sends(c, e, second)
  {
    var k :| |c.tx.log| <= k < |d.tx.log|
      && d.tx.log[k].frame.ptype == LINK_CTL_PKT && d.tx.log[k].frame.data == first;
    assert e.tx.log[k] == d.tx.log[k];
  }

  predicate Answerable(c: Core, data: seq<byte>)
    requires CoreOk(c)
  {
    || Matches(c, data, SYNC_REQ)
    || (Matches(c, data, CONF_REQ) && c.link != Uninitialized)
    || SyncAnswered(c, data)
  }

  /** Every request is answered by its response, in every state but the config request before
      synchronisation; a sync response is followed by a config request; a restarted peer is also
      asked to synchronise, and reported. No other control packet sends anything. */
  lemma ControlAnswers(c: Core, data: seq<byte>)
    requires CoreOk(c)
    ensures var d := ProcessCtl(c, data);
      && (Matches(c, data, SYNC_REQ) ==> Sends(c, d, SYNC_RESP))
      && (Matches(c, data, CONF_REQ) && c.link != Uninitialized ==> Sends(c, d, CONF_RESP))
      && (SyncAnswered(c, data) ==> Sends(c, d, CONF_REQ))
      && (PeerRestarted(c, data) ==> Sends(c, d, SYNC_REQ))
      && d.hwErrors == c.hwErrors + (if PeerRestarted(c, data) then 1 else 0)
      && (!Answerable(c, data) ==> d.tx.log == c.tx.log)
  {
    if PeerRestarted(c, data) {
      RestartAnswers(c);
    } else if Matches(c, data, SYNC_REQ) {
      SendCtlSends(c, SYNC_RESP);
    } else if SyncAnswered(c, data) {
      SendCtlSends(c.(syncCount := 0, link := Initialized), CONF_REQ);
    } else if Matches(c, data, CONF_REQ) {
      SendCtlSends(c, CONF_RESP);
    }
  }

  lemma RestartAnswers(c: Core)
    requires CoreOk(c)
    ensures var d := SendCtl(c.(hwErrors := c.hwErrors + 1), SYNC_RESP);
      var e := SendCtl(d.(link := Uninitialized), SYNC_REQ);
      Sends(c, e, SYNC_RESP) && Sends(c, e, SYNC_REQ)
  {
    var d := SendCtl(c.(hwErrors := c.hwErrors + 1), SYNC_RESP);
    SendCtlSends(c.(hwErrors := c.hwErrors + 1), SYNC_RESP);
    assert Sends(c, d, SYNC_RESP);
    SendCtlSends(d.(link := Uninitialized), SYNC_REQ);
    SendsThen(c, d, SendCtl(d.(link := Uninitialized), SYNC_REQ), SYNC_RESP, SYNC_REQ);
  }

  /** What the stack sees of a completed packet: data, events and commands once each and unchanged,
      but for the intercepted reply, which is kept; of link control packets only the success report
      of the one that activates the link; nothing else. */
  lemma StackSees(c: Core, h: seq<byte>, data: seq<byte>)
    requires CoreOk(c) && |h| == 4
    ensures var t, d := HdrType(h), Complete(c, h, data);
      var up := t == 1 || t == 2 || t == 3 || t == 4;
      && (up && !Intercepted(c, t, data) ==>
            d.recvData == c.recvData + [Skb(t, data)] && d.internal == c.internal)
      && (up && Intercepted(c, t, data) ==>
            d.recvData == c.recvData && d.internal == Some(Skb(t, data)))
      && (!up ==>
            && d.internal == c.internal
            && if t == LINK_CTL_PKT && ConfAnswered(Numbered(c, h), data)
               then d.recvData == c.recvData + [Skb(EVENT_PKT, [0x0e, 0x04, 0x03, 0xee, 0xfc, 0])]
               else d.recvData == c.recvData)
  {
    var n := Numbered(c, h);
    assert n.recvData == c.recvData && n.internal == c.internal && n.stale == c.stale;
    assert Complete(c, h, data) == Dispatched(n, HdrType(h), data);
  }

  // ----- the baud rate timer

  /** The input completes a packet that is kept back. */
  predicate KeepsReply(ep: Ep, i: Input)
    requires EpOk(ep)
  {
    i.Byte? &&
      var e := RxByte(ep.rx, ep.core.tx.expected, i.b).event;
      e.Completed? && Intercepted(ep.core, HdrType(e.h), e.data)
  }

  lemma KeptByStep(ep: Ep, i: Input)
    requires EpOk(ep)
    ensures Next(ep, i).core.internal.Some? <==>
              KeepsReply(ep, i) || (ep.core.internal.Some? && !i.BaudrateTimer?)
  {
    if i.Byte? {
      var e := RxByte(ep.rx, ep.core.tx.expected, i.b).event;
      if e.Completed? {
        StackSees(ep.core, e.h, e.data);
      }
    }
  }

  /** A reply has been kept since the timer last fired. */
  predicate KeptSinceTimer(ep: Ep, run: seq<Input>)
    requires EpOk(ep)
    decreases |run|
  {
    run != [] &&
      var n := |run| - 1;
      KeepsReply(Run(ep, run[..n]), run[n]) || (!run[n].BaudrateTimer? && KeptSinceTimer(ep, run[..n]))
  }

  /** In every run the timer finds a reply to hand on if and only if one has been kept since it last
      fired. The code starts the timer only when it keeps one; without one it would queue a null
      buffer. */
  lemma {:induction false} TimerFindsReply(stale: seq<byte>, run: seq<Input>)
    requires |stale| == 8
    ensures Run(Init(stale), run).core.internal.Some? <==> KeptSinceTimer(Init(stale), run)
    decreases |run|
  {
    if run != [] {
      var n := |run| - 1;
      TimerFindsReply(stale, run[..n]);
      KeptByStep(Run(Init(stale), run[..n]), run[n]);
    }
  }

  // ----- the sync timer

  /** A timeout that still sends puts a sync request on the wire; one that gave up sends nothing. */
  lemma SyncTimerSends(c: Core)
    requires CoreOk(c)
    ensures var d := SyncTimeout(c);
      && (c.syncCount < SYNC_RETRANS_COUNT ==> Sends(c, d, SYNC_REQ))
      && (c.syncCount >= SYNC_RETRANS_COUNT ==> d.tx == c.tx)
  {
    SendCtlSends(c, SYNC_REQ);
  }

  /** Sync requests sent by the timer since the last sync response that was answered. */
  function TimerSyncs(ep: Ep, run: seq<Input>): nat
    requires EpOk(ep)
    decreases |run|
  {
    if run == [] then 0
    else
      var before := run[..|run| - 1];
      var p, q := Run(ep, before).core, Run(ep, run).core;
      if run[|run| - 1].SyncTimer? && |q.tx.log| > |p.tx.log| then TimerSyncs(ep, before) + 1
      else if p.link == Uninitialized && q.link == Initialized then 0
      else TimerSyncs(ep, before)
  }

  lemma {:induction false} TimerSyncsCounted(stale: seq<byte>, run: seq<Input>)
    requires |stale| == 8
    ensures TimerSyncs(Init(stale), run) == Run(Init(stale), run).core.syncCount <= SYNC_RETRANS_COUNT
    decreases |run|
  {
    if run != [] {
      var before := run[..|run| - 1];
      TimerSyncsCounted(stale, before);
      CountStep(Run(Init(stale), before), run[|run| - 1]);
    }
  }

  lemma CountStep(ep: Ep, i: Input)
    requires EpOk(ep)
    ensures var p, q := ep.core, Next(ep, i).core;
      q.syncCount ==
        if i.SyncTimer? && |q.tx.log| > |p.tx.log| then p.syncCount + 1
        else if p.link == Uninitialized && q.link == Initialized then 0
        else p.syncCount
    ensures i.SyncTimer? && |Next(ep, i).core.tx.log| > |ep.core.tx.log| ==> ep.core.syncCount < SYNC_RETRANS_COUNT
  {
    if i.Byte? {
      var e := RxByte(ep.rx, ep.core.tx.expected, i.b).event;
      EventMoves(ep.core, e);
      if IsControl(e) {
        ControlMoves(Numbered(ep.core, e.h), e.data);
      }
    } else {
      OthersKeep(ep.core, i);
      SyncTimerSends(ep.core);
    }
  }
}
