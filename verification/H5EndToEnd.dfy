/** Reliable delivery from stack to stack: the commands and ACL packets in the queue to one stack are those
    the other stack handed over, each once, unchanged and in order, in every run of the two endpoints. */
module H5EndToEnd {
  import opened Bytes
  import opened Frames
  import opened RtkQueues
  import opened H5Model
  import H5Link
  import GoBackN
  import opened H5Refinement
  import opened H5System
  import opened H5Delivery

  predicate IsData(skb: Skb) {
    skb.ptype == 1 || skb.ptype == 2
  }

  /** The commands and ACL packets among `s`. */
  function Data(s: seq<Skb>): seq<Skb>
    decreases |s|
  {
    if s == [] then []
    else
      var n := |s| - 1;
      Data(s[..n]) + (if IsData(s[n]) then [s[n]] else [])
  }

  lemma DataMore(s: seq<Skb>, more: seq<Skb>)
    requires |more| <= 1
    ensures Data(s + more) == Data(s) + (if more != [] && IsData(more[0]) then more else [])
  {
    if more == [] {
      assert s + more == s;
    } else {
      assert (s + more)[..|s|] == s && (s + more)[|s|] == more[0];
    }
  }

  /** The commands and ACL packets, of at most the length the header can state, that one stack handed over. */
  function HandedOver(run: seq<(bool, Action)>, onA: bool): seq<Skb>
    decreases |run|
  {
    if run == [] then []
    else
      var (side, act) := run[|run| - 1];
      HandedOver(run[..|run| - 1], onA)
      + (if side == onA && act.Local? && act.i.Packet? && IsData(act.i.skb) && |act.i.skb.data| <= 0xfff
         then [act.i.skb] else [])
  }

  lemma {:induction false} HandedOverIsData(run: seq<(bool, Action)>, onA: bool)
    ensures forall k :: 0 <= k < |HandedOver(run, onA)| ==> IsData(HandedOver(run, onA)[k])
    decreases |run|
  {
    if run != [] {
      HandedOverIsData(run[..|run| - 1], onA);
    }
  }

  lemma StepQueues(s: System, act: Action)
    requires SystemOk(s)
    ensures StepA(s, act).b == s.b
    ensures StepA(s, act).a.queued == s.a.queued
      + (if act.Local? && act.i.Packet? && IsData(act.i.skb) && |act.i.skb.data| <= 0xfff
         then [act.i.skb] else [])
  {
    assert s.a.queued + [] == s.a.queued;
  }

  /** What the protocol counts as queued is what the stacks handed over. */
  lemma {:induction false} QueuedIsHandedOver(s: System, run: seq<(bool, Action)>)
    requires SystemOk(s) && s.a.queued == [] && s.b.queued == []
    ensures Run(s, run).a.queued == HandedOver(run, true)
    ensures Run(s, run).b.queued == HandedOver(run, false)
    decreases |run|
  {
    if run != [] {
      var (onA, act) := run[|run| - 1];
      var before := run[..|run| - 1];
      QueuedIsHandedOver(s, before);
      var r := Run(s, before);
      StepQueues(if onA then r else Swap(r), act);
    }
  }

  // ----- one side

  /** The commands and ACL packets in the queue to the stack are those accepted, and only an event is
      kept back. */
  predicate Received(n: H5System.Node) {
    && Data(n.ep.core.recvData) == n.accepted
    && (n.ep.core.internal.Some? ==> n.ep.core.internal.value.ptype == 4)
  }

  predicate AllData(s: seq<Skb>) {
    forall k :: 0 <= k < |s| ==> IsData(s[k])
  }

  /** Reading a byte of an item has no event but that of its frame. */
  lemma ReadingEvent(s: System, w: GoBackN.World, fa: bool, fb: bool)
    requires Same(s, w, fa, fb) && s.ba != []
    ensures s.a.got < |Wire(s.ba[0])| && ItemOk(s.ba[0])
    ensures var x := s.a.ep.core.tx.expected;
      var e := RxByte(s.a.ep.rx, x, Wire(s.ba[0])[s.a.got]).event;
      e == Nothing || e == EventOf(s.ba[0].frame, x)
  {
    WireTail(s.ba[0], 0);
    if s.a.got > 0 && !fa {
      InsideStep(s, w, fb);
    }
  }

  /** A frame that a peer can have sent brings a command or ACL packet if it is accepted as one. */
  lemma EventReceives(c: Core, f: Frame, accepted: seq<Skb>)
    requires CoreOk(c) && Sendable(f)
    requires var e := EventOf(f, c.tx.expected); AllData(accepted + AcceptedBy(e))
    ensures var e := EventOf(f, c.tx.expected); var d := Apply(c, e);
      && Data(d.recvData) == Data(c.recvData) + AcceptedBy(e)
      && (d.internal != c.internal ==> d.internal.Some? && d.internal.value.ptype == 4)
  {
    HeaderFields(f);
    var e := EventOf(f, c.tx.expected);
    if e.Completed? {
      FrameToStack(c, e.h, f.data);
      DataMore(c.recvData, FrameBrings(c, e.h, f.data));
      assert f.rel ==> (accepted + AcceptedBy(e))[|accepted|] == Skb(f.ptype, f.data);
    }
  }

  lemma ReadReceives(s: System, w: GoBackN.World, fa: bool, fb: bool)
    requires Same(s, w, fa, fb) && Received(s.a) && AllData(ReadOn(s).a.accepted)
    ensures Received(ReadOn(s).a)
  {
    if s.ba != [] {
      ReadingEvent(s, w, fa, fb);
      var b := Wire(s.ba[0])[s.a.got];
      EventRead(s, b);
      if RxByte(s.a.ep.rx, s.a.ep.core.tx.expected, b).event == Nothing {
        assert s.a.accepted + [] == s.a.accepted;
      } else {
        EventReceives(s.a.ep.core, s.ba[0].frame, s.a.accepted);
      }
    }
  }

  lemma LocalReceives(s: System, i: H5Link.Input)
    requires SystemOk(s) && Received(s.a) && !i.Byte?
    ensures Received(LocalOn(s, i).a)
  {
    InputToStack(s.a.ep, i);
    DataMore(s.a.ep.core.recvData, Brings(s.a.ep, i));
  }

  lemma StepReceives(s: System, w: GoBackN.World, fa: bool, fb: bool, act: Action)
    requires Same(s, w, fa, fb) && Received(s.a) && AllData(StepA(s, act).a.accepted)
    ensures Received(StepA(s, act).a) && StepA(s, act).b == s.b
  {
    StepQueues(s, act);
    if act == Read {
      ReadReceives(s, w, fa, fb);
    } else if act.Local? && !act.i.Byte? {
      LocalReceives(s, act.i);
    }
  }

  lemma SwapSame(s: System, w: GoBackN.World, fa: bool, fb: bool)
    requires Same(s, w, fa, fb)
    ensures Same(Swap(s), GoBackN.Swap(w), fb, fa)
  {}

  // ----- both sides

  lemma AcceptedIsData(staleA: seq<byte>, staleB: seq<byte>, run: seq<(bool, Action)>)
    requires |staleA| == 8 && |staleB| == 8
    ensures var s := Run(Initial(staleA, staleB), run);
      AllData(s.a.accepted) && AllData(s.b.accepted)
  {
    EndToEnd(staleA, staleB, run);
    QueuedIsHandedOver(Initial(staleA, staleB), run);
    HandedOverIsData(run, true);
    HandedOverIsData(run, false);
  }

  lemma {:induction false} RunReceives(staleA: seq<byte>, staleB: seq<byte>, run: seq<(bool, Action)>)
    requires |staleA| == 8 && |staleB| == 8
    ensures var s := Run(Initial(staleA, staleB), run);
      Received(s.a) && Received(s.b)
    decreases |run|
  {
    if run != [] {
      var (onA, act) := run[|run| - 1];
      var before := run[..|run| - 1];
      RunReceives(staleA, staleB, before);
      AcceptedIsData(staleA, staleB, run);
      var s := Run(Initial(staleA, staleB), before);
      var w, fa, fb := RunIsMoves(staleA, staleB, before);
      if onA {
        StepReceives(s, w, fa, fb, act);
      } else {
        SwapSame(s, w, fa, fb);
        StepReceives(Swap(s), GoBackN.Swap(w), fb, fa, act);
      }
    }
  }

  /** Of the packets handed over, some first ones are in the queue to the other stack, which holds no
      others, and all but the first `n` of those are still outstanding or waiting, in order. */
  predicate Delivers(a: Core, b: Core, handedOver: seq<Skb>, n: nat) {
    && n <= |Data(b.recvData)| && Data(b.recvData) <= handedOver
    && handedOver[n..] == a.tx.unack + a.tx.rel
  }

  /** From initialisation on, in every run and in both directions, the commands and ACL packets in the
      queue to one stack are those the other stack handed over, each once, unchanged and in order; what
      has not got there yet is with the sender, which gives up nothing before. */
  lemma StacksReceive(staleA: seq<byte>, staleB: seq<byte>, run: seq<(bool, Action)>) returns (n: nat, m: nat)
    requires |staleA| == 8 && |staleB| == 8
    ensures var s := Run(Initial(staleA, staleB), run);
      && Delivers(s.a.ep.core, s.b.ep.core, HandedOver(run, true), n)
      && Delivers(s.b.ep.core, s.a.ep.core, HandedOver(run, false), m)
  {
    EndToEnd(staleA, staleB, run);
    QueuedIsHandedOver(Initial(staleA, staleB), run);
    RunReceives(staleA, staleB, run);
    n, m := NothingLost(staleA, staleB, run);
  }
}
