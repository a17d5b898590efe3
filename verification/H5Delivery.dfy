/** What one endpoint hands to its stack, stated on the bytes of the packets that arrive: everything that
    is ever queued for the stack, in order, over all runs. */
module H5Delivery {
  import opened Bytes
  import opened Option
  import opened RtkQueues
  import opened H5Model
  import opened H5Link

  /** A Command Complete for opcode 0xfc17 (update baud rate), low byte first. What the code compares
      beyond the end of a short event is whatever the buffer held. */
  predicate BaudrateReply(c: Core, data: seq<byte>)
    requires |c.stale| == 8
  {
    && (if |data| > 0 then data[0] else c.stale[0]) == 0x0e
    && (if |data| > 3 then data[3] else c.stale[3]) == 0x17
    && (if |data| > 4 then data[4] else c.stale[4]) == 0xfc
  }

  /** The answer to a config request, when one was asked for. */
  predicate Activates(c: Core, data: seq<byte>)
    requires |c.stale| == 8
  {
    && c.link == Initialized
    && (if |data| > 0 then data[0] else c.stale[0]) == 0x04
    && (if |data| > 1 then data[1] else c.stale[1]) == 0x7b
  }

  /** A Command Complete for opcode 0xfcee, which reports how the initialisation of the link ended. */
  function Report(status: byte): Skb {
    Skb(4, [0x0e, 0x04, 0x03, 0xee, 0xfc, status])
  }

  /** What a completed packet brings: commands, ACL data and SCO data, and events but for the reply that
      is kept back, with their payload; a success report when the link becomes active. */
  function FrameBrings(c: Core, h: seq<byte>, data: seq<byte>): seq<Skb>
    requires |c.stale| == 8 && |h| == 4
  {
    var t := h[1] % 16;
    if t == 1 || t == 2 || t == 3 || (t == 4 && !BaudrateReply(c, data)) then [Skb(t, data)]
    else if t == 15 && Activates(c, data) then [Report(0)]
    else []
  }

  lemma FrameToStack(c: Core, h: seq<byte>, data: seq<byte>)
    requires CoreOk(c) && |h| == 4
    ensures var d := Complete(c, h, data);
      && d.recvData == c.recvData + FrameBrings(c, h, data)
      && d.internal == if h[1] % 16 == 4 && BaudrateReply(c, data) then Some(Skb(4, data)) else c.internal
  {
    StackSees(c, h, data);
    assert Numbered(c, h).link == c.link && Numbered(c, h).stale == c.stale;
    assert c.recvData + [] == c.recvData;
  }

  /** What an input brings: the reply kept back when its timer fires, a failure report when a timer gives
      up on a link that is not up, and otherwise only what a completed packet does. */
  function Brings(ep: Ep, i: Input): seq<Skb>
    requires EpOk(ep)
  {
    var c := ep.core;
    match i
    case Byte(b) =>
      var e := RxByte(ep.rx, c.tx.expected, b).event;
      if e.Completed? then FrameBrings(c, e.h, e.data) else []
    case BaudrateTimer => if c.internal.Some? then [c.internal.value] else []
    case SyncTimer => if c.syncCount >= 350 && c.link == Uninitialized then [Report(3)] else []
    case ConfTimer => if c.confCount >= 350 && c.link != Active then [Report(3)] else []
    case _ => []
  }

  /** The reply that waits for its timer afterwards. */
  function Waits(ep: Ep, i: Input): Option<Skb>
    requires EpOk(ep)
  {
    if i.BaudrateTimer? then None
    else if !i.Byte? then ep.core.internal
    else
      var e := RxByte(ep.rx, ep.core.tx.expected, i.b).event;
      if e.Completed? && e.h[1] % 16 == 4 && BaudrateReply(ep.core, e.data) then Some(Skb(4, e.data))
      else ep.core.internal
  }

  lemma InputToStack(ep: Ep, i: Input)
    requires EpOk(ep)
    ensures var d := Next(ep, i).core;
      d.recvData == ep.core.recvData + Brings(ep, i) && d.internal == Waits(ep, i)
  {
    assert ep.core.recvData + [] == ep.core.recvData;
    if i.Byte? {
      var e := RxByte(ep.rx, ep.core.tx.expected, i.b).event;
      if e.Completed? {
        FrameToStack(ep.core, e.h, e.data);
      }
    }
  }

  function AllBrought(ep: Ep, run: seq<Input>): seq<Skb>
    requires EpOk(ep)
    decreases |run|
  {
    if run == [] then []
    else
      var n := |run| - 1;
      AllBrought(ep, run[..n]) + Brings(Run(ep, run[..n]), run[n])
  }

  /** In every run the queue to the stack is what the inputs brought, in order: nothing is lost, doubled,
      changed or moved. */
  lemma {:induction false} StackGets(ep: Ep, run: seq<Input>)
    requires EpOk(ep)
    ensures Run(ep, run).core.recvData == ep.core.recvData + AllBrought(ep, run)
    decreases |run|
  {
    if run == [] {
      assert ep.core.recvData + [] == ep.core.recvData;
    } else {
      var n := |run| - 1;
      StackGets(ep, run[..n]);
      InputToStack(Run(ep, run[..n]), run[n]);
      assert ep.core.recvData + (AllBrought(ep, run[..n]) + Brings(Run(ep, run[..n]), run[n]))
          == ep.core.recvData + AllBrought(ep, run[..n]) + Brings(Run(ep, run[..n]), run[n]);
    }
  }

  // ----- what is accepted is passed on

  /** The command, ACL packet or event that the input accepts through the reliable service. */
  function Accepts(ep: Ep, i: Input): seq<Skb>
    requires EpOk(ep)
  {
    if !i.Byte? then []
    else
      var e := RxByte(ep.rx, ep.core.tx.expected, i.b).event;
      if !e.Completed? || e.h[0] < 128 then []
      else
        var t := e.h[1] % 16;
        if t == 1 || t == 2 || t == 4 then [Skb(t, e.data)] else []
  }

  /** What entered the queue to the stack from one state to the next, or else is kept back. */
  function Passed(before: Core, after: Core): seq<Skb> {
    if |before.recvData| < |after.recvData| then after.recvData[|before.recvData|..]
    else if after.internal.Some? then [after.internal.value]
    else []
  }

  function AllAccepted(ep: Ep, run: seq<Input>): seq<Skb>
    requires EpOk(ep)
    decreases |run|
  {
    if run == [] then []
    else
      var n := |run| - 1;
      AllAccepted(ep, run[..n]) + Accepts(Run(ep, run[..n]), run[n])
  }

  /** What was passed on by the inputs that accepted something. */
  function AllPassed(ep: Ep, run: seq<Input>): seq<Skb>
    requires EpOk(ep)
    decreases |run|
  {
    if run == [] then []
    else
      var n := |run| - 1;
      var e := Run(ep, run[..n]);
      AllPassed(ep, run[..n]) + (if Accepts(e, run[n]) == [] then [] else Passed(e.core, Next(e, run[n]).core))
  }

  lemma AcceptsPasses(ep: Ep, i: Input)
    requires EpOk(ep) && Accepts(ep, i) != []
    ensures Passed(ep.core, Next(ep, i).core) == Accepts(ep, i)
  {
    InputToStack(ep, i);
  }

  /** In every run the commands, ACL packets and events accepted through the reliable service are, in
      order, those that entered the queue to the stack or were kept back for their timer. */
  lemma {:induction false} AcceptedIsPassed(ep: Ep, run: seq<Input>)
    requires EpOk(ep)
    ensures AllAccepted(ep, run) == AllPassed(ep, run)
    decreases |run|
  {
    if run != [] {
      var n := |run| - 1;
      var e := Run(ep, run[..n]);
      AcceptedIsPassed(ep, run[..n]);
      if Accepts(e, run[n]) != [] {
        AcceptsPasses(e, run[n]);
      }
    }
  }
}
