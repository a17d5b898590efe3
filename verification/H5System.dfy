/** Two whole endpoints joined by wires. Each takes packets from its stack, timers, and bytes one at a
    time; a wire carries encoded frames in order, loses any of them, and may damage any in ways that the
    header checksum, the length or the check detects. A config response may carry any settings. Every
    run of such a system is a run of the two-endpoint protocol of GoBackN, so delivery is reliable from
    initialisation on, link establishment included. */
module H5System {
  import opened Bytes
  import opened Slip
  import opened Frames
  import opened Option
  import opened RtkQueues
  import opened Transport
  import opened H5Model
  import H5Link
  import opened H5Receiver
  import GoBackN
  import opened H5Refinement

  /** A frame on a wire: how it was stuffed, what it was, and what arrives of it before stuffing. */
  datatype Item = Item(oof: bool, frame: Frame, plain: seq<byte>)

  /** An endpoint, how many bytes of the first incoming item it has read, and the receiver after the
      first of them. The reliable packets its stack handed over and those it accepted are history
      that no step looks at. */
  datatype Node = Node(ep: Ep, got: nat, base: Rx, queued: seq<Skb>, accepted: seq<Skb>)

  datatype System = System(a: Node, b: Node, ab: seq<Item>, ba: seq<Item>)

  datatype Action =
    | Local(i: H5Link.Input)
    | Read
    | Drop(k: nat)
    | Corrupt(k: nat, d: seq<byte>)
    | Amend(k: nat, cfg: byte)

  function Wire(it: Item): seq<byte> {
    Delimited(it.oof, it.plain)
  }

  /** What an endpoint logged beyond `n` frames, as it leaves. */
  function Leaving(log: seq<Sent>, n: nat): (r: seq<Item>)
    requires n <= |log|
    ensures |r| == |log| - n
  {
    seq(|log| - n, i requires 0 <= i < |log| - n =>
      var s := log[n + i]; Item(s.oof, s.frame, if Fits(s.frame) then Plain(s.frame) else []))
  }

  predicate NodeOk(n: Node) {
    EpOk(n.ep) && RxOk(n.base)
  }

  predicate SystemOk(s: System) {
    NodeOk(s.a) && NodeOk(s.b)
  }

  /** The wire after an endpoint's log grew. */
  function Sending(wire: seq<Item>, before: seq<Sent>, after: seq<Sent>): seq<Item> {
    if before <= after then wire + Leaving(after, |before|) else wire
  }

  // ----- the steps of side a

  function LocalOn(s: System, i: H5Link.Input): (r: System)
    requires SystemOk(s)
    ensures SystemOk(r)
  {
    if i.Byte? then s
    else
      var ep := H5Link.Next(s.a.ep, i);
      s.(a := s.a.(ep := ep, queued := s.a.queued + (if i.Packet? then Reliably(i.skb) else [])),
         ab := Sending(s.ab, s.a.ep.core.tx.log, ep.core.tx.log))
  }

  /** A completed reliable packet is accepted. */
  function AcceptedBy(e: Event): seq<Skb>
    requires EventOk(e)
  {
    if e.Completed? && HdrReliable(e.h) then [Skb(HdrType(e.h), e.data)] else []
  }

  /** One more byte of the first incoming item. */
  function ReadOn(s: System): (r: System)
    requires SystemOk(s)
    ensures SystemOk(r)
  {
    if s.ba == [] || s.a.got >= |Wire(s.ba[0])| then s
    else
      var n, w := s.a, Wire(s.ba[0]);
      var b := w[n.got];
      var e := RxByte(n.ep.rx, n.ep.core.tx.expected, b).event;
      var ep := RecvByte(n.ep, b);
      var done := n.got + 1 == |w|;
      s.(a := Node(ep, if done then 0 else n.got + 1, if n.got == 0 then ep.rx else n.base,
                   n.queued, n.accepted + AcceptedBy(e)),
         ab := Sending(s.ab, n.ep.core.tx.log, ep.core.tx.log),
         ba := if done then s.ba[1..] else s.ba)
  }

  /** Only an item that is not being read can be lost or changed. */
  predicate Untouched(s: System, k: nat) {
    k < |s.ab| && (k == 0 ==> s.b.got == 0)
  }

  function DropOn(s: System, k: nat): System {
    if Untouched(s, k) then s.(ab := s.ab[..k] + s.ab[k + 1..]) else s
  }

  /** What is left of a frame that the receiver cannot take for one: too short for a header, with a
      header whose checksum is wrong, or with the header of the frame but not its length or its check. */
  predicate Detectable(f: Frame, d: seq<byte>)
    requires Fits(f)
  {
    |d| < 4 || !ChecksumOk(d[..4]) || (d[..4] == Header(f) && Parse(d) == Malformed)
  }

  function CorruptOn(s: System, k: nat, d: seq<byte>): System {
    if Untouched(s, k) && Fits(s.ab[k].frame) && Detectable(s.ab[k].frame, d)
    then s.(ab := s.ab[k := s.ab[k].(plain := d)])
    else s
  }

  function Configuring(it: Item, cfg: byte): Item
    requires Fits(it.frame)
  {
    var f := it.frame.(data := CONF_RESP + [cfg]);
    Item(it.oof, f, Plain(f))
  }

  /** The code answers a config request with two bytes; a controller adds a third, its settings. */
  function AmendOn(s: System, k: nat, cfg: byte): System {
    if Untouched(s, k) && Fits(s.ab[k].frame) && !s.ab[k].frame.rel && s.ab[k].frame.ptype == LINK_CTL_PKT
       && s.ab[k].frame.data == CONF_RESP && s.ab[k].plain == Plain(s.ab[k].frame)
    then s.(ab := s.ab[k := Configuring(s.ab[k], cfg)])
    else s
  }

  function StepA(s: System, act: Action): (r: System)
    requires SystemOk(s)
    ensures SystemOk(r)
  {
    match act
    case Local(i) => LocalOn(s, i)
    case Read => ReadOn(s)
    case Drop(k) => DropOn(s, k)
    case Corrupt(k, d) => CorruptOn(s, k, d)
    case Amend(k, cfg) => AmendOn(s, k, cfg)
  }

  function Swap(s: System): System {
    System(s.b, s.a, s.ba, s.ab)
  }

  function Step(s: System, onA: bool, act: Action): (r: System)
    requires SystemOk(s)
    ensures SystemOk(r)
  {
    if onA then StepA(s, act) else Swap(StepA(Swap(s), act))
  }

  function Run(s: System, run: seq<(bool, Action)>): (r: System)
    requires SystemOk(s)
    ensures SystemOk(r)
    decreases |run|
  {
    if run == [] then s
    else
      var (onA, act) := run[|run| - 1];
      Step(Run(s, run[..|run| - 1]), onA, act)
  }

  // ----- what an item can mean

  predicate ItemOk(it: Item) {
    Sendable(it.frame) && (it.plain == Plain(it.frame) || Detectable(it.frame, it.plain))
  }

  /** Under a check every change of one byte is detectable. */
  lemma OneByteDetectable(f: Frame, i: nat, x: byte)
    requires Fits(f) && f.crc && i < |Plain(f)| && Plain(f)[i] != x
    ensures Detectable(f, Plain(f)[i := x])
  {
    var d := Plain(f);
    ParsePlain(f);
    HeaderFields(f);
    assert d[..4] == Header(f);
    OneByteErrorDetected(d, i, x);
    if i < 4 {
      ChecksumCatches(d[..4], i, x);
      assert d[i := x][..4] == d[..4][i := x];
    } else {
      assert d[i := x][..4] == d[..4];
    }
  }

  lemma DetectableVerdict(f: Frame, d: seq<byte>, expected: nat)
    requires Fits(f) && Detectable(f, d)
    ensures var e := Verdict(expected, d); e == Nothing || e == Refused == EventOf(f, expected)
  {
    HeaderFields(f);
  }

  /** A frame that arrives means what it meant when it left, or nothing, the latter only if it was
      changed. */
  lemma ItemVerdict(it: Item, expected: nat)
    requires ItemOk(it)
    ensures var e := Verdict(expected, it.plain); e == Nothing || e == EventOf(it.frame, expected)
  {
    if it.plain == Plain(it.frame) {
      FrameVerdict(expected, it.frame);
    } else {
      DetectableVerdict(it.frame, it.plain, expected);
    }
  }

  lemma AcceptedIsNew(f: Frame, expected: nat)
    requires Fits(f)
    ensures AcceptedBy(EventOf(f, expected)) == NewlyAccepted(f, expected)
  {
    HeaderFields(f);
  }

  // ----- reading an item byte by byte

  /** Where an endpoint is in its first incoming item: before it; inside it with nothing decided; or
      inside it after its event, waiting for its end. */
  predicate Reading(n: Node, wire: seq<Item>, fired: bool)
    requires NodeOk(n)
  {
    if n.got == 0 then Between(n.ep.rx) && !fired
    else
      && wire != [] && n.got < |Wire(wire[0])|
      && if fired then n.ep.rx.state == W4Delimiter
         else
           && AtStart(n.base)
           && n.got <= |Tail(wire[0].oof, wire[0].plain)|
           && var f := Feed(n.base, n.ep.core.tx.expected, Tail(wire[0].oof, wire[0].plain)[..n.got - 1]);
              n.ep.rx == f.rx && f.event == Nothing
  }

  lemma WireTail(it: Item, k: nat)
    requires k < |Wire(it)|
    ensures |Wire(it)| == |Tail(it.oof, it.plain)| + 1 >= 2
    ensures Wire(it)[k] == if k == 0 then DELIM else Tail(it.oof, it.plain)[k - 1]
    ensures Wire(it)[k] == DELIM <==> k == 0 || k + 1 == |Wire(it)|
  {
    var s := SlipAll(it.oof, it.plain);
    SlipShape(it.oof, it.plain);
    if 0 < k < |s| + 1 {
      assert Wire(it)[k] == s[k - 1];
      assert s[k - 1] in s;
    }
  }

  lemma CutAt(t: seq<byte>, k: nat)
    requires k < |t|
    ensures t[..k + 1] == t[..k] + [t[k]] && t == t[..k + 1] + t[k + 1..]
    ensures k + 1 == |t| ==> t[..k + 1] == t
  {}

  /** The event of the whole is the first event on the way. */
  lemma EarlyEvent(base: Rx, expected: nat, oof: bool, plain: seq<byte>, k: nat)
    requires RxOk(base) && AtStart(base) && k < |Tail(oof, plain)|
    requires Feed(base, expected, Tail(oof, plain)[..k]).event == Nothing
    ensures var t := Tail(oof, plain);
      var f, q := Feed(base, expected, t[..k]), Feed(base, expected, t[..k + 1]);
      && q == RxByte(f.rx, expected, t[k])
      && (q.event != Nothing ==> q.event == Verdict(expected, plain))
      && (k + 1 == |t| ==> q.event == Verdict(expected, plain) && AtStart(q.rx))
  {
    var t := Tail(oof, plain);
    CutAt(t, k);
    FeedLast(base, expected, t[..k], t[k]);
    FeedConcat(base, expected, t[..k + 1], t[k + 1..]);
    FromStart(base, expected, oof, plain);
  }

  // ----- the two-endpoint protocol behind it

  ghost predicate Reaches(w: GoBackN.World, v: GoBackN.World) {
    exists moves: Moves :: v == GoBackN.Run(w, moves)
  }

  lemma ReachesThen(u: GoBackN.World, v: GoBackN.World, moves: Moves)
    requires Reaches(u, v)
    ensures Reaches(u, GoBackN.Run(v, moves))
  {
    var before: Moves :| v == GoBackN.Run(u, before);
    GoBackN.RunAfter(u, before, moves);
    assert GoBackN.Run(u, before + moves) == GoBackN.Run(v, moves);
  }

  /** An endpoint and a side of the protocol. */
  predicate SameSide(n: Node, s: GoBackN.Side) {
    n.ep.core.tx == s.tx && s.held.None? && n.queued == s.queued && n.accepted == s.accepted
  }

  /** A wire and a channel: the same frames, but for a first one whose event has happened while its
      last bytes are still to be read. */
  ghost predicate SameWire(wire: seq<Item>, channel: seq<GoBackN.Wire>, fired: bool) {
    var skip := if fired then 1 else 0;
    && |wire| == |channel| + skip
    && (forall k :: 0 <= k < |wire| ==> ItemOk(wire[k]))
    && forall k :: 0 <= k < |channel| ==> channel[k].frame == wire[k + skip].frame
  }

  ghost predicate Same(s: System, w: GoBackN.World, fa: bool, fb: bool) {
    && SystemOk(s)
    && SameSide(s.a, w.a) && SameSide(s.b, w.b)
    && SameWire(s.ab, w.ab, fb) && SameWire(s.ba, w.ba, fa)
    && Reading(s.a, s.ba, fa) && Reading(s.b, s.ab, fb)
  }

  // ----- each step of the system is some moves of the protocol

  lemma SendingSame(wire: seq<Item>, log: seq<Sent>)
    ensures Sending(wire, log, log) == wire
  {
    assert wire + [] == wire;
  }

  /** What an endpoint logged goes on the wire as it entered the channel. */
  lemma LeavingMatches(w: GoBackN.World, v: GoBackN.World, i: nat)
    requires Logged(w, v) && i < |v.ab| - |w.ab|
    ensures var it := Leaving(v.a.tx.log, |w.a.tx.log|)[i];
      ItemOk(it) && it.frame == v.ab[|w.ab| + i].frame
  {
    var j := |w.ab| + i;
    assert v.ab[j].frame == v.a.tx.log[j + (|w.a.tx.log| - |w.ab|)].frame;
  }

  lemma SendingMatches(wire: seq<Item>, w: GoBackN.World, v: GoBackN.World, fired: bool)
    requires SameWire(wire, w.ab, fired) && Logged(w, v)
    ensures SameWire(Sending(wire, w.a.tx.log, v.a.tx.log), v.ab, fired)
  {
    var skip := if fired then 1 else 0;
    var more := Leaving(v.a.tx.log, |w.a.tx.log|);
    var after := wire + more;
    forall k | 0 <= k < |after|
      ensures ItemOk(after[k]) && (k >= skip ==> v.ab[k - skip].frame == after[k].frame)
    {
      if k < |wire| {
        if k >= skip {
          assert v.ab[k - skip] == w.ab[k - skip];
          assert w.ab[k - skip].frame == wire[(k - skip) + skip].frame;
        }
      } else {
        LeavingMatches(w, v, k - |wire|);
      }
    }
    forall k | 0 <= k < |v.ab|
      ensures v.ab[k].frame == after[k + skip].frame
    {
      assert v.ab[(k + skip) - skip].frame == after[k + skip].frame;
    }
  }

  lemma ReadingMore(n: Node, wire: seq<Item>, more: seq<Item>, fired: bool)
    requires NodeOk(n) && Reading(n, wire, fired)
    ensures Reading(n, wire + more, fired)
  {}

  lemma LocalKeeps(s: System, w: GoBackN.World, fa: bool, fb: bool, i: H5Link.Input)
      returns (moves: Moves, v: GoBackN.World)
    requires Same(s, w, fa, fb) && !i.Byte?
    ensures v == GoBackN.Run(w, moves) && Same(LocalOn(s, i), v, fa, fb)
  {
    moves, v := InputIsMoves(w, s.a.ep, i);
    SendingMatches(s.ab, w, v, fb);
    ReadingMore(s.b, s.ab, Leaving(v.a.tx.log, |w.a.tx.log|), fb);
  }

  /** A byte that tells the rest of the endpoint nothing. */
  lemma QuietRead(s: System, b: byte)
    requires SystemOk(s) && s.ba != [] && s.a.got < |Wire(s.ba[0])| && b == Wire(s.ba[0])[s.a.got]
    requires RxByte(s.a.ep.rx, s.a.ep.core.tx.expected, b).event == Nothing
    ensures var r := ReadOn(s);
      && r.a.ep == Ep(RxByte(s.a.ep.rx, s.a.ep.core.tx.expected, b).rx, s.a.ep.core)
      && r.ab == s.ab && r.b == s.b && r.a.queued == s.a.queued && r.a.accepted == s.a.accepted
  {
    SendingSame(s.ab, s.a.ep.core.tx.log);
    assert s.a.accepted + [] == s.a.accepted;
  }

  lemma OpeningKeeps(s: System, w: GoBackN.World, fa: bool, fb: bool)
    requires Same(s, w, fa, fb) && s.ba != [] && s.a.got == 0
    ensures Same(ReadOn(s), w, false, fb)
  {
    var it := s.ba[0];
    WireTail(it, 0);
    QuietRead(s, DELIM);
    assert Tail(it.oof, it.plain)[..0] == [];
  }

  lemma SkippingKeeps(s: System, w: GoBackN.World, fb: bool)
    requires Same(s, w, true, fb) && s.ba != [] && s.a.got > 0
    ensures Same(ReadOn(s), w, s.a.got + 1 < |Wire(s.ba[0])|, fb)
  {
    WireTail(s.ba[0], s.a.got);
    QuietRead(s, Wire(s.ba[0])[s.a.got]);
  }

  /** The byte inside an item that has had no event. */
  lemma InsideStep(s: System, w: GoBackN.World, fb: bool)
    requires Same(s, w, false, fb) && s.ba != [] && s.a.got > 0
    ensures var n, it, x := s.a, s.ba[0], s.a.ep.core.tx.expected;
      var t := Tail(it.oof, it.plain);
      var q := RxByte(n.ep.rx, x, Wire(it)[n.got]);
      && q == Feed(n.base, x, t[..n.got])
      && (q.event == Nothing || q.event == EventOf(it.frame, x))
      && (n.got + 1 == |Wire(it)| ==> AtStart(q.rx) && q.event == Verdict(x, it.plain))
      && (n.got + 1 < |Wire(it)| && q.event != Nothing ==> q.rx.state == W4Delimiter)
  {
    var n, it, x := s.a, s.ba[0], s.a.ep.core.tx.expected;
    WireTail(it, n.got);
    EarlyEvent(n.base, x, it.oof, it.plain, n.got - 1);
    ItemVerdict(it, x);
    if n.got + 1 < |Wire(it)| {
      EventEndsPacket(n.ep.rx, x, Wire(it)[n.got]);
    }
  }

  lemma NothingYet(s: System, w: GoBackN.World, fb: bool)
    requires Same(s, w, false, fb) && s.ba != [] && s.a.got > 0 && s.a.got + 1 < |Wire(s.ba[0])|
    requires RxByte(s.a.ep.rx, s.a.ep.core.tx.expected, Wire(s.ba[0])[s.a.got]).event == Nothing
    ensures Same(ReadOn(s), w, false, fb)
  {
    InsideStep(s, w, fb);
    WireTail(s.ba[0], s.a.got);
    QuietRead(s, Wire(s.ba[0])[s.a.got]);
  }

  lemma FirstDropped(wire: seq<Item>, channel: seq<GoBackN.Wire>)
    requires SameWire(wire, channel, false) && wire != []
    ensures SameWire(wire[1..], channel[1..], false)
  {}

  lemma FirstFired(wire: seq<Item>, channel: seq<GoBackN.Wire>)
    requires SameWire(wire, channel, false) && wire != []
    ensures SameWire(wire, channel[1..], true)
  {}

  lemma LoseFirst(w: GoBackN.World) returns (moves: Moves)
    requires w.ba != []
    ensures GoBackN.Run(w, moves) == w.(ba := w.ba[1..])
  {
    moves := [(false, GoBackN.Lose(0))];
    assert moves[..0] == [];
    assert w.ba[..0] + w.ba[1..] == w.ba[1..];
  }

  /** A changed frame that meant nothing is a lost one. */
  lemma NothingAtAll(s: System, w: GoBackN.World, fb: bool) returns (moves: Moves, v: GoBackN.World)
    requires Same(s, w, false, fb) && s.ba != [] && s.a.got > 0 && s.a.got + 1 == |Wire(s.ba[0])|
    requires RxByte(s.a.ep.rx, s.a.ep.core.tx.expected, Wire(s.ba[0])[s.a.got]).event == Nothing
    ensures v == GoBackN.Run(w, moves) && Same(ReadOn(s), v, false, fb)
  {
    InsideStep(s, w, fb);
    QuietRead(s, Wire(s.ba[0])[s.a.got]);
    FirstDropped(s.ba, w.ba);
    moves := LoseFirst(w);
    v := w.(ba := w.ba[1..]);
  }

  /** What reading a byte does, for any event. */
  lemma EventRead(s: System, b: byte)
    requires SystemOk(s) && s.ba != [] && s.a.got < |Wire(s.ba[0])| && b == Wire(s.ba[0])[s.a.got]
    ensures var q := RxByte(s.a.ep.rx, s.a.ep.core.tx.expected, b);
      var r, core := ReadOn(s), Apply(s.a.ep.core, q.event);
      && r.a.ep == Ep(q.rx, core) && r.b == s.b && r.a.queued == s.a.queued
      && r.a.accepted == s.a.accepted + AcceptedBy(q.event)
      && r.ab == Sending(s.ab, s.a.ep.core.tx.log, core.tx.log)
      && (if s.a.got + 1 == |Wire(s.ba[0])| then r.a.got == 0 && r.ba == s.ba[1..]
          else r.a.got == s.a.got + 1 && r.ba == s.ba)
  {}

  lemma SomethingHappens(s: System, w: GoBackN.World, fb: bool) returns (moves: Moves, v: GoBackN.World)
    requires Same(s, w, false, fb) && s.ba != [] && s.a.got > 0
    requires RxByte(s.a.ep.rx, s.a.ep.core.tx.expected, Wire(s.ba[0])[s.a.got]).event != Nothing
    ensures v == GoBackN.Run(w, moves) && Same(ReadOn(s), v, s.a.got + 1 < |Wire(s.ba[0])|, fb)
  {
    var x := s.a.ep.core.tx.expected;
    InsideStep(s, w, fb);
    EventRead(s, Wire(s.ba[0])[s.a.got]);
    moves, v := FrameIsMoves(w, s.a.ep.core);
    AcceptedIsNew(s.ba[0].frame, x);
    SendingMatches(s.ab, w, v, fb);
    ReadingMore(s.b, s.ab, Leaving(v.a.tx.log, |w.a.tx.log|), fb);
    FirstDropped(s.ba, w.ba);
    FirstFired(s.ba, w.ba);
  }

  lemma ReadKeeps(s: System, w: GoBackN.World, fa: bool, fb: bool)
      returns (moves: Moves, v: GoBackN.World, f: bool)
    requires Same(s, w, fa, fb)
    ensures v == GoBackN.Run(w, moves) && Same(ReadOn(s), v, f, fb)
  {
    moves, v, f := [], w, fa;
    if s.ba != [] {
      var it := s.ba[0];
      WireTail(it, 0);
      if s.a.got == 0 {
        OpeningKeeps(s, w, fa, fb);
        f := false;
      } else {
        f := s.a.got + 1 < |Wire(it)|;
        if fa {
          SkippingKeeps(s, w, fb);
        } else if RxByte(s.a.ep.rx, s.a.ep.core.tx.expected, Wire(it)[s.a.got]).event != Nothing {
          moves, v := SomethingHappens(s, w, fb);
        } else if f {
          NothingYet(s, w, fb);
          f := false;
        } else {
          moves, v := NothingAtAll(s, w, fb);
        }
      }
    }
  }

  lemma DropSame(wire: seq<Item>, channel: seq<GoBackN.Wire>, fired: bool, k: nat)
    requires SameWire(wire, channel, fired) && k < |wire| && (fired ==> k > 0)
    ensures var j := if fired then k - 1 else k;
      SameWire(wire[..k] + wire[k + 1..], channel[..j] + channel[j + 1..], fired)
  {}

  lemma ReadingStill(n: Node, wire: seq<Item>, k: nat, fired: bool)
    requires NodeOk(n) && Reading(n, wire, fired) && k < |wire| && (k == 0 ==> n.got == 0)
    ensures Reading(n, wire[..k] + wire[k + 1..], fired)
  {}

  lemma DropKeeps(s: System, w: GoBackN.World, fa: bool, fb: bool, k: nat)
      returns (moves: Moves, v: GoBackN.World)
    requires Same(s, w, fa, fb)
    ensures v == GoBackN.Run(w, moves) && Same(DropOn(s, k), v, fa, fb)
  {
    moves, v := [], w;
    if Untouched(s, k) {
      var j := if fb then k - 1 else k;
      DropSame(s.ab, w.ab, fb, k);
      ReadingStill(s.b, s.ab, k, fb);
      moves, v := [(true, GoBackN.Lose(j))], w.(ab := w.ab[..j] + w.ab[j + 1..]);
      RunOne(w, GoBackN.Lose(j));
    }
  }

  lemma ChangeSame(wire: seq<Item>, channel: seq<GoBackN.Wire>, fired: bool, k: nat, it: Item)
    requires SameWire(wire, channel, fired) && k < |wire| && ItemOk(it) && it.frame == wire[k].frame
    ensures SameWire(wire[k := it], channel, fired)
  {}

  lemma CorruptKeeps(s: System, w: GoBackN.World, fa: bool, fb: bool, k: nat, d: seq<byte>)
    requires Same(s, w, fa, fb)
    ensures Same(CorruptOn(s, k, d), w, fa, fb)
  {
    var r := CorruptOn(s, k, d);
    if r != s {
      ChangeSame(s.ab, w.ab, fb, k, r.ab[k]);
      ReadingElse(s.b, s.ab, k, r.ab[k], fb);
    }
  }

  lemma AmendSame(wire: seq<Item>, channel: seq<GoBackN.Wire>, fired: bool, k: nat, it: Item)
    requires SameWire(wire, channel, fired) && k < |wire| && (fired ==> k > 0) && ItemOk(it)
    requires !wire[k].frame.rel && it.frame == wire[k].frame.(data := it.frame.data)
    ensures var j := if fired then k - 1 else k;
      SameWire(wire[k := it], channel[j := GoBackN.Amended(channel[j], it.frame.data)], fired)
  {
    var j := if fired then k - 1 else k;
    assert channel[j].frame == wire[k].frame;
  }

  lemma ReadingElse(n: Node, wire: seq<Item>, k: nat, it: Item, fired: bool)
    requires NodeOk(n) && Reading(n, wire, fired) && k < |wire| && (k == 0 ==> n.got == 0)
    ensures Reading(n, wire[k := it], fired)
  {}

  lemma ConfiguringOk(it: Item, cfg: byte)
    requires ItemOk(it) && !it.frame.rel && it.frame.ptype == LINK_CTL_PKT
    ensures var r := Configuring(it, cfg);
      ItemOk(r) && r.frame == it.frame.(data := r.frame.data)
  {}

  lemma AmendMove(w: GoBackN.World, j: nat, data: seq<byte>) returns (moves: Moves)
    requires j < |w.ab|
    ensures GoBackN.Run(w, moves) == w.(ab := w.ab[j := GoBackN.Amended(w.ab[j], data)])
  {
    moves := [(true, GoBackN.Amend(j, data))];
    RunOne(w, GoBackN.Amend(j, data));
  }

  /** The systems match again when one wire and its channel do. */
  lemma WireReplaced(s: System, w: GoBackN.World, fa: bool, fb: bool, wire: seq<Item>, channel: seq<GoBackN.Wire>)
    requires Same(s, w, fa, fb) && SameWire(wire, channel, fb) && Reading(s.b, wire, fb)
    ensures Same(s.(ab := wire), w.(ab := channel), fa, fb)
  {}

  lemma AmendedMatches(s: System, w: GoBackN.World, fa: bool, fb: bool, k: nat, it: Item)
      returns (moves: Moves, v: GoBackN.World)
    requires Same(s, w, fa, fb) && Untouched(s, k)
    requires ItemOk(it) && !s.ab[k].frame.rel && it.frame == s.ab[k].frame.(data := it.frame.data)
    ensures v == GoBackN.Run(w, moves) && Same(s.(ab := s.ab[k := it]), v, fa, fb)
  {
    var j := if fb then k - 1 else k;
    AmendSame(s.ab, w.ab, fb, k, it);
    ReadingElse(s.b, s.ab, k, it, fb);
    moves := AmendMove(w, j, it.frame.data);
    v := w.(ab := w.ab[j := GoBackN.Amended(w.ab[j], it.frame.data)]);
    WireReplaced(s, w, fa, fb, s.ab[k := it], v.ab);
  }

  lemma AmendKeeps(s: System, w: GoBackN.World, fa: bool, fb: bool, k: nat, cfg: byte)
      returns (moves: Moves, v: GoBackN.World)
    requires Same(s, w, fa, fb)
    ensures v == GoBackN.Run(w, moves) && Same(AmendOn(s, k, cfg), v, fa, fb)
  {
    moves, v := [], w;
    if AmendOn(s, k, cfg) != s {
      ConfiguringOk(s.ab[k], cfg);
      moves, v := AmendedMatches(s, w, fa, fb, k, Configuring(s.ab[k], cfg));
    }
  }

  lemma StepAKeeps(s: System, w: GoBackN.World, fa: bool, fb: bool, act: Action)
      returns (moves: Moves, v: GoBackN.World, f: bool)
    requires Same(s, w, fa, fb)
    ensures v == GoBackN.Run(w, moves) && Same(StepA(s, act), v, f, fb)
  {
    moves, v, f := [], w, fa;
    match act
    case Local(i) =>
      if !i.Byte? {
        moves, v := LocalKeeps(s, w, fa, fb, i);
      }
    case Read => moves, v, f := ReadKeeps(s, w, fa, fb);
    case Drop(k) => moves, v := DropKeeps(s, w, fa, fb, k);
    case Corrupt(k, d) => CorruptKeeps(s, w, fa, fb, k, d);
    case Amend(k, cfg) => moves, v := AmendKeeps(s, w, fa, fb, k, cfg);
  }

  // ----- both sides, and whole runs

  function Flip(moves: Moves): (r: Moves)
    ensures |r| == |moves|
  {
    seq(|moves|, i requires 0 <= i < |moves| => (!moves[i].0, moves[i].1))
  }

  lemma FlipFront(moves: Moves, n: nat)
    requires n + 1 == |moves|
    ensures Flip(moves)[..n] == Flip(moves[..n]) && Flip(moves)[n] == (!moves[n].0, moves[n].1)
  {}

  lemma {:induction false} FlipRun(w: GoBackN.World, moves: Moves)
    ensures GoBackN.Run(GoBackN.Swap(w), moves) == GoBackN.Swap(GoBackN.Run(w, Flip(moves)))
    decreases |moves|
  {
    if moves != [] {
      var n := |moves| - 1;
      FlipRun(w, moves[..n]);
      FlipFront(moves, n);
    }
  }

  lemma StepKeeps(s: System, w: GoBackN.World, fa: bool, fb: bool, onA: bool, act: Action)
      returns (moves: Moves, v: GoBackN.World, ga: bool, gb: bool)
    requires Same(s, w, fa, fb)
    ensures v == GoBackN.Run(w, moves) && Same(Step(s, onA, act), v, ga, gb)
  {
    if onA {
      gb := fb;
      moves, v, ga := StepAKeeps(s, w, fa, fb, act);
    } else {
      ga := fa;
      var back, u;
      back, u, gb := StepAKeeps(Swap(s), GoBackN.Swap(w), fb, fa, act);
      moves, v := Flip(back), GoBackN.Swap(u);
      FlipRun(w, back);
    }
  }

  /** Two endpoints as initialised, with nothing on the wires. */
  function Initial(staleA: seq<byte>, staleB: seq<byte>): (s: System)
    requires |staleA| == 8 && |staleB| == 8
    ensures SystemOk(s)
  {
    System(Node(Init(staleA), 0, Init(staleA).rx, [], []), Node(Init(staleB), 0, Init(staleB).rx, [], []), [], [])
  }

  function InitialSide(): GoBackN.Side {
    GoBackN.Side(Tx([], [], [], 0, 0, false, 0, false, false, []), None, [], 0, [])
  }

  const INITIAL_WORLD := GoBackN.World(InitialSide(), InitialSide(), [], [])

  /** Every run of the system from initialisation has a run of the two-endpoint protocol behind it, with
      the same transports, the same packets queued and the same packets accepted. */
  lemma {:induction false} RunIsMoves(staleA: seq<byte>, staleB: seq<byte>, run: seq<(bool, Action)>)
      returns (w: GoBackN.World, fa: bool, fb: bool)
    requires |staleA| == 8 && |staleB| == 8
    ensures Reaches(INITIAL_WORLD, w) && Same(Run(Initial(staleA, staleB), run), w, fa, fb)
    decreases |run|
  {
    var start := Initial(staleA, staleB);
    if run == [] {
      w, fa, fb := INITIAL_WORLD, false, false;
      assert GoBackN.Run(INITIAL_WORLD, []) == INITIAL_WORLD;
    } else {
      var (onA, act) := run[|run| - 1];
      var before := run[..|run| - 1];
      var u, ga, gb := RunIsMoves(staleA, staleB, before);
      var moves;
      moves, w, fa, fb := StepKeeps(Run(start, before), u, ga, gb, onA, act);
      ReachesThen(INITIAL_WORLD, u, moves);
    }
  }

  /** Reliable delivery, end to end. From initialisation on, through link establishment and restarts of
      either link, whatever the stacks hand over, whenever timers fire, however bytes interleave with all
      that, and whatever the wires lose or change: the reliable packets an endpoint has accepted are a
      prefix of those the other stack handed over, each once and in order. */
  lemma EndToEnd(staleA: seq<byte>, staleB: seq<byte>, run: seq<(bool, Action)>)
    requires |staleA| == 8 && |staleB| == 8
    ensures var s := Run(Initial(staleA, staleB), run);
      s.b.accepted <= s.a.queued && s.a.accepted <= s.b.queued
  {
    var w, fa, fb := RunIsMoves(staleA, staleB, run);
    var moves: Moves :| w == GoBackN.Run(INITIAL_WORLD, moves);
    GoBackN.ReliableDelivery(INITIAL_WORLD, moves);
  }

  lemma AfterPrefix(queued: seq<Skb>, n: nat, unack: seq<Skb>, rel: seq<Skb>)
    requires n <= |queued| && queued == queued[..n] + unack + rel
    ensures queued[n..] == unack + rel
  {
    assert queued == queued[..n] + (unack + rel);
  }

  /** Nothing is lost on the way. Of the packets a stack handed over, some first ones have been
      accepted by the other side, and exactly the rest are still outstanding or waiting, in order; at
      most seven are outstanding. */
  lemma NothingLost(staleA: seq<byte>, staleB: seq<byte>, run: seq<(bool, Action)>) returns (n: nat, m: nat)
    requires |staleA| == 8 && |staleB| == 8
    ensures var s := Run(Initial(staleA, staleB), run); Conveys(s.a, s.b, n) && Conveys(s.b, s.a, m)
  {
    var w, fa, fb := RunIsMoves(staleA, staleB, run);
    var moves: Moves :| w == GoBackN.Run(INITIAL_WORLD, moves);
    GoBackN.NothingForgotten(INITIAL_WORLD, moves);
    n, m := w.a.acked, w.b.acked;
    AfterPrefix(w.a.queued, n, w.a.tx.unack, w.a.tx.rel);
    AfterPrefix(w.b.queued, m, w.b.tx.unack, w.b.tx.rel);
  }

  predicate Conveys(a: Node, b: Node, n: nat) {
    && n <= |a.queued| && a.queued[..n] <= b.accepted
    && a.queued[n..] == a.ep.core.tx.unack + a.ep.core.tx.rel && |a.ep.core.tx.unack| <= 7
  }
}
