/** Two endpoints joined by lossy first-in first-out channels (Core Specification Vol 4 Part D
    section 6). Each mutex-protected region is one atomic move; a frame that is corrupted counts
    as lost. Sequence and acknowledgement numbers have three bits; the absolute positions in
    Wire, Held and Side are history that no move looks at. */
module GoBackN {
  import opened Bytes
  import opened Frames
  import opened Option
  import opened RtkQueues
  import opened Transport

  /** A frame in a channel. `pos` is the position of its packet among all reliable packets the
      sender ever queued, `base` the number acknowledged when it was sent, `ackPos` the number of
      packets its sender had accepted. */
  datatype Wire = Wire(frame: Frame, pos: nat, base: nat, ackPos: nat)

  /** An acknowledgement taken from a completed frame and not yet processed: h5_complete_rx_pkt
      releases the mutex in between. */
  datatype Held = Held(ack: nat, pos: nat)

  datatype Side = Side(
    tx: Tx,
    held: Option<Held>,
    /** All reliable packets queued so far, and how many of them have been removed from unack. */
    queued: seq<Skb>,
    acked: nat,
    /** The reliable packets accepted from the other side. */
    accepted: seq<Skb>)

  datatype World = World(a: Side, b: Side, ab: seq<Wire>, ba: seq<Wire>)

  datatype Move =
    | Queue(skb: Skb)
    | SendOne
    | Receive
    | ProcessAck
    | Timeout
    | Settings(window: nat, oof: bool, useCrc: bool)
    | Lose(k: nat)
    | Amend(k: nat, data: seq<byte>)

  // ----- the moves of side a

  function QueueOn(s: Side, skb: Skb): Side {
    var tx := Enqueue(s.tx, skb);
    s.(tx := tx, queued := if tx.rel == s.tx.rel then s.queued else s.queued + [skb])
  }

  /** One round of h5_wake_up. */
  function SendOn(s: Side, out: seq<Wire>): (Side, seq<Wire>) {
    match Dequeue(s.tx)
    case None => (s, out)
    case Some((tx, f)) =>
      (s.(tx := Emit(tx, f)), out + [Wire(f, s.acked + |s.tx.unack|, s.acked, |s.accepted|)])
  }

  /** The first half of h5_complete_rx_pkt, or the refusal of an out-of-order packet, whose
      acknowledgement is not looked at. */
  function ReceiveOn(s: Side, m: Wire): Side {
    var f := m.frame;
    if f.rel && f.seqno != s.tx.expected then s.(tx := s.tx.(ackReq := true))
    else
      var t := s.(held := Some(Held(f.ack, m.ackPos)));
      if f.rel then t.(tx := Accept(s.tx, f.seqno), accepted := s.accepted + [Skb(f.ptype, f.data)])
      else t
  }

  /** h5_remove_acked_pkt. */
  function ProcessAckOn(s: Side): Side {
    match s.held
    case None => s
    case Some(h) =>
      s.(tx := RemoveAcked(s.tx, h.ack), acked := s.acked + AckedCount(s.tx, h.ack), held := None)
  }

  function TimeoutOn(s: Side): Side {
    s.(tx := Rewind(s.tx))
  }

  /** The settings of a config response. */
  function SettingsOn(s: Side, window: nat, oof: bool, useCrc: bool): Side {
    if window < 8 then s.(tx := s.tx.(window := window, oof := oof, useCrc := useCrc)) else s
  }

  /** An unreliable frame may say anything. */
  function Amended(m: Wire, data: seq<byte>): Wire {
    if m.frame.rel then m else m.(frame := m.frame.(data := data))
  }

  /** A move that is not possible changes nothing. */
  function StepA(w: World, move: Move): World {
    match move
    case Queue(skb) => w.(a := QueueOn(w.a, skb))
    case SendOne => var (a, ab) := SendOn(w.a, w.ab); w.(a := a, ab := ab)
    case Receive =>
      if w.ba != [] && w.a.held.None? then w.(a := ReceiveOn(w.a, w.ba[0]), ba := w.ba[1..]) else w
    case ProcessAck => w.(a := ProcessAckOn(w.a))
    case Timeout => w.(a := TimeoutOn(w.a))
    case Settings(window, oof, crc) => w.(a := SettingsOn(w.a, window, oof, crc))
    case Lose(k) => if k < |w.ab| then w.(ab := w.ab[..k] + w.ab[k + 1..]) else w
    case Amend(k, data) => if k < |w.ab| then w.(ab := w.ab[k := Amended(w.ab[k], data)]) else w
  }

  function Swap(w: World): World {
    World(w.b, w.a, w.ba, w.ab)
  }

  function Step(w: World, onA: bool, move: Move): World {
    if onA then StepA(w, move) else Swap(StepA(Swap(w), move))
  }

  function Run(w: World, moves: seq<(bool, Move)>): World
    decreases |moves|
  {
    if moves == [] then w
    else
      var (onA, move) := moves[|moves| - 1];
      Step(Run(w, moves[..|moves| - 1]), onA, move)
  }

  /** Both counters at zero, nothing outstanding or under way, whatever is already queued. */
  predicate Fresh(s: Side) {
    && TxOk(s.tx) && s.tx.unack == [] && s.tx.txseq == 0 && s.tx.expected == 0
    && s.held.None? && s.queued == s.tx.rel && s.acked == 0 && s.accepted == []
  }

  predicate Start(w: World) {
    Fresh(w.a) && Fresh(w.b) && w.ab == [] && w.ba == []
  }

  lemma {:induction false} RunAfter(w: World, a: seq<(bool, Move)>, b: seq<(bool, Move)>)
    ensures Run(w, a + b) == Run(Run(w, a), b)
    decreases |b|
  {
    if b == [] {
      assert a + b == a;
    } else {
      assert (a + b)[..|a + b| - 1] == a + b[..|b| - 1];
      RunAfter(w, a, b[..|b| - 1]);
    }
  }

  // ----- the invariant of one direction

  /** What a sender keeps by itself: (acknowledged) ++ unack ++ rel is everything queued, and the
      next sequence number is that of the first packet not outstanding. */
  predicate SenderOk(s: Side) {
    && TxOk(s.tx)
    && s.acked <= |s.queued|
    && s.queued[s.acked..] == s.tx.unack + s.tx.rel
    && s.tx.txseq == (s.acked + |s.tx.unack|) % 8
  }

  predicate WireOk(s: Side, got: nat, m: Wire) {
    && m.base <= s.acked
    && got <= m.base + 7
    && (m.frame.rel ==>
          && m.base <= m.pos <= m.base + 6
          && m.pos < |s.queued|
          && s.queued[m.pos] == Skb(m.frame.ptype, m.frame.data)
          && m.frame.seqno == m.pos % 8)
  }

  predicate AckOk(s: Side, got: nat, ack: nat, pos: nat) {
    s.acked <= pos <= got && ack == pos % 8
  }

  /** Sender `s`, its frames `fwd`, receiver `r`, and the frames `back` that acknowledge. */
  predicate Dir(s: Side, fwd: seq<Wire>, r: Side, back: seq<Wire>) {
    var got := |r.accepted|;
    && SenderOk(s)
    && s.acked <= got <= |s.queued| && got <= s.acked + 7
    && r.accepted == s.queued[..got]
    && r.tx.expected == got % 8
    && (forall i :: 0 <= i < |fwd| ==> WireOk(s, got, fwd[i]))
    && (forall i, j :: 0 <= i < j < |fwd| ==> fwd[i].base <= fwd[j].base)
    && (forall i :: 0 <= i < |back| ==> AckOk(s, got, back[i].frame.ack, back[i].ackPos))
    && (forall i, j :: 0 <= i < j < |back| ==> back[i].ackPos <= back[j].ackPos)
    && (s.held.Some? ==>
          && AckOk(s, got, s.held.value.ack, s.held.value.pos)
          && forall i :: 0 <= i < |back| ==> s.held.value.pos <= back[i].ackPos)
  }

  predicate Inv(w: World) {
    Dir(w.a, w.ab, w.b, w.ba) && Dir(w.b, w.ba, w.a, w.ab)
  }

  // ----- each move keeps it, for the side that sends and for the side that receives

  lemma QueueKeeps(w: World, skb: Skb)
    requires Inv(w)
    ensures Inv(StepA(w, Queue(skb)))
  {
    var s := w.a;
    var t := QueueOn(s, skb);
    assert t.queued[t.acked..] == t.tx.unack + t.tx.rel by {
      if t.queued != s.queued {
        assert t.queued[t.acked..] == s.queued[s.acked..] + [skb];
      }
    }
  }

  lemma TimeoutKeeps(w: World)
    requires Inv(w)
    ensures Inv(StepA(w, Timeout))
  {
    var v := StepA(w, Timeout);
    RewindNumbers(w.a);
    assert Dir(v.a, v.ab, v.b, v.ba);
    assert Dir(v.b, v.ba, v.a, v.ab);
  }

  lemma RewindNumbers(s: Side)
    requires SenderOk(s)
    ensures SenderOk(TimeoutOn(s))
  {
    WrapAdd(s.acked + |s.tx.unack|, -|s.tx.unack|);
  }

  lemma SettingsKeep(w: World, window: nat, oof: bool, useCrc: bool)
    requires Inv(w)
    ensures Inv(StepA(w, Settings(window, oof, useCrc)))
  {
    var v := StepA(w, Settings(window, oof, useCrc));
    assert Dir(v.a, v.ab, v.b, v.ba);
    assert Dir(v.b, v.ba, v.a, v.ab);
  }

  lemma LoseKeeps(w: World, k: nat)
    requires Inv(w)
    ensures Inv(StepA(w, Lose(k)))
  {
    var v := StepA(w, Lose(k));
    assert Dir(v.a, v.ab, v.b, v.ba);
    assert Dir(v.b, v.ba, v.a, v.ab);
  }

  lemma AmendKeeps(w: World, k: nat, data: seq<byte>)
    requires Inv(w)
    ensures Inv(StepA(w, Amend(k, data)))
  {
    var v := StepA(w, Amend(k, data));
    assert Dir(v.a, v.ab, v.b, v.ba);
    assert Dir(v.b, v.ba, v.a, v.ab);
  }

  /** With d = txseq - ack (mod 8): an acknowledgement within the last eight positions removes
      exactly the packets below it, or nothing when it is beyond what is outstanding - which it is
      after a rewind. */
  lemma AckMeansPosition(s: Side, got: nat, ack: nat, pos: nat)
    requires SenderOk(s) && AckOk(s, got, ack, pos) && got <= s.acked + 7
    ensures var top := s.acked + |s.tx.unack|;
      AckedCount(s.tx, ack) == if pos <= top then pos - s.acked else 0
  {
    DistanceMod8(s.acked + |s.tx.unack|, pos);
  }

  lemma DistanceMod8(top: nat, pos: nat)
    requires -8 < top - pos < 8
    ensures (top % 8 - pos % 8) % 8 == if pos <= top then top - pos else top - pos + 8
  {}

  lemma ProcessAckKeeps(w: World)
    requires Inv(w)
    ensures Inv(StepA(w, ProcessAck))
  {
    var s := w.a;
    if s.held.Some? {
      var n := AckedCount(s.tx, s.held.value.ack);
      AckMeansPosition(s, |w.b.accepted|, s.held.value.ack, s.held.value.pos);
      var t := ProcessAckOn(s);
      assert t.queued[t.acked..] == s.queued[s.acked..][n..];
      assert s.tx.unack[n..] + s.tx.rel == (s.tx.unack + s.tx.rel)[n..];
    }
  }

  /** A reliable frame carries the packet at the position after everything acknowledged and
      outstanding, numbered by that position. */
  lemma SendNumbers(s: Side)
    requires SenderOk(s) && Dequeue(s.tx).Some?
    ensures var (tx, f) := Dequeue(s.tx).value;
      && SenderOk(s.(tx := tx))
      && tx.expected == s.tx.expected && f.ack == s.tx.expected
      && (f.rel ==>
            var pos := s.acked + |s.tx.unack|;
            && pos <= s.acked + 6 && pos < |s.queued|
            && s.queued[pos] == Skb(f.ptype, f.data) && f.seqno == pos % 8)
  {
    var (tx, f) := Dequeue(s.tx).value;
    if s.tx.unrel != [] {
      assert IsUnreliable(s.tx.unrel[0].ptype);
    } else if |s.tx.unack| < s.tx.window && s.tx.rel != [] {
      assert s.queued[s.acked..][|s.tx.unack|] == s.tx.rel[0];
      assert tx.unack + tx.rel == s.tx.unack + s.tx.rel;
      WrapAdd(s.acked + |s.tx.unack|, 1);
    }
  }

  lemma SendKeeps(w: World)
    requires Inv(w)
    ensures Inv(StepA(w, SendOne))
  {
    if Dequeue(w.a.tx).Some? {
      SendNumbers(w.a);
      var v := StepA(w, SendOne);
      SentForward(w, v);
      SentBack(w, v);
    }
  }

  lemma SentForward(w: World, v: World)
    requires Inv(w) && Dequeue(w.a.tx).Some? && v == StepA(w, SendOne) && SenderOk(v.a)
    requires WireOk(w.a, |w.b.accepted|, v.ab[|w.ab|])
    ensures Dir(v.a, v.ab, v.b, v.ba)
  {}

  lemma SentBack(w: World, v: World)
    requires Inv(w) && Dequeue(w.a.tx).Some? && v == StepA(w, SendOne)
    requires v.a.tx.expected == w.a.tx.expected == v.ab[|w.ab|].frame.ack
    ensures Dir(v.b, v.ba, v.a, v.ab)
  {}

  /** Of the positions a frame under way can have, only the expected one has the expected three-bit
      number. */
  lemma NumberMeansPosition(s: Side, got: nat, m: Wire)
    requires WireOk(s, got, m) && m.frame.rel && s.acked <= got && m.frame.seqno == got % 8
    ensures m.pos == got
  {}

  lemma ReceiveKeeps(w: World)
    requires Inv(w)
    ensures Inv(StepA(w, Receive))
  {
    if w.ba != [] && w.a.held.None? {
      var m := w.ba[0];
      var v := StepA(w, Receive);
      ReceivedForward(w, v);
      if m.frame.rel && m.frame.seqno == w.a.tx.expected {
        NumberMeansPosition(w.b, |w.a.accepted|, m);
        AcceptedBack(w, v);
      } else {
        IgnoredBack(w, v);
      }
    }
  }

  lemma ReceivedForward(w: World, v: World)
    requires Inv(w) && w.ba != [] && w.a.held.None? && v == StepA(w, Receive)
    ensures Dir(v.a, v.ab, v.b, v.ba)
  {}

  lemma AcceptedBack(w: World, v: World)
    requires Inv(w) && w.ba != [] && w.a.held.None? && v == StepA(w, Receive)
    requires w.ba[0].frame.rel && w.ba[0].frame.seqno == w.a.tx.expected
    requires w.ba[0].pos == |w.a.accepted|
    ensures Dir(v.b, v.ba, v.a, v.ab)
  {
    var got := |w.a.accepted|;
    WrapAdd(got, 1);
    assert w.b.queued[..got + 1] == w.b.queued[..got] + [w.b.queued[got]];
  }

  lemma IgnoredBack(w: World, v: World)
    requires Inv(w) && w.ba != [] && w.a.held.None? && v == StepA(w, Receive)
    requires !(w.ba[0].frame.rel && w.ba[0].frame.seqno == w.a.tx.expected)
    ensures Dir(v.b, v.ba, v.a, v.ab)
  {}

  lemma StepKeeps(w: World, onA: bool, move: Move)
    requires Inv(w)
    ensures Inv(Step(w, onA, move))
  {
    var u := if onA then w else Swap(w);
    match move
    case Queue(skb) => QueueKeeps(u, skb);
    case SendOne => SendKeeps(u);
    case Receive => ReceiveKeeps(u);
    case ProcessAck => ProcessAckKeeps(u);
    case Timeout => TimeoutKeeps(u);
    case Settings(window, oof, crc) => SettingsKeep(u, window, oof, crc);
    case Lose(k) => LoseKeeps(u, k);
    case Amend(k, data) => AmendKeeps(u, k, data);
  }

  lemma StartHolds(w: World)
    requires Start(w)
    ensures Inv(w)
  {}

  lemma {:induction false} RunKeeps(w: World, moves: seq<(bool, Move)>)
    requires Inv(w)
    ensures Inv(Run(w, moves))
    decreases |moves|
  {
    if moves != [] {
      var (onA, move) := moves[|moves| - 1];
      RunKeeps(w, moves[..|moves| - 1]);
      StepKeeps(Run(w, moves[..|moves| - 1]), onA, move);
    }
  }

  lemma RunHolds(w: World, moves: seq<(bool, Move)>)
    requires Start(w)
    ensures Inv(Run(w, moves))
  {
    StartHolds(w);
    RunKeeps(w, moves);
  }

  // ----- the theorems

  /** Reliable delivery. In every run - any interleaving of queueing, sending, losing, receiving,
      acknowledging and timing out on both sides - what a side has accepted is a prefix of what
      the other has queued, each packet once and in order, although the frames carry only
      three-bit numbers. */
  lemma ReliableDelivery(w: World, moves: seq<(bool, Move)>)
    requires Start(w)
    ensures var v := Run(w, moves);
      v.b.accepted <= v.a.queued && v.a.accepted <= v.b.queued
  {
    RunHolds(w, moves);
  }

  /** In every run a packet leaves `unack` only after the other side accepted it: what a sender
      gave up is accepted, what it still has is the rest, and at most seven are outstanding. */
  lemma NothingForgotten(w: World, moves: seq<(bool, Move)>)
    requires Start(w)
    ensures var v := Run(w, moves);
      && v.a.acked <= |v.a.queued| && v.b.acked <= |v.b.queued|
      && v.a.queued == v.a.queued[..v.a.acked] + v.a.tx.unack + v.a.tx.rel
      && v.a.queued[..v.a.acked] <= v.b.accepted
      && |v.a.tx.unack| <= 7
      && v.b.queued == v.b.queued[..v.b.acked] + v.b.tx.unack + v.b.tx.rel
      && v.b.queued[..v.b.acked] <= v.a.accepted
      && |v.b.tx.unack| <= 7
  {
    RunHolds(w, moves);
    Conserved(Run(w, moves).a);
    Conserved(Run(w, moves).b);
  }

  lemma Conserved(s: Side)
    requires SenderOk(s)
    ensures s.queued == s.queued[..s.acked] + s.tx.unack + s.tx.rel
  {
    assert s.queued == s.queued[..s.acked] + s.queued[s.acked..];
  }

  lemma OutstandingNumber(s: Side, pos: nat)
    requires SenderOk(s) && s.acked <= pos
    ensures (s.tx.txseq - |s.tx.unack| + (pos - s.acked)) % 8 == pos % 8
  {
    var n := s.acked + |s.tx.unack|;
    WrapAdd(n, pos - n);
  }

  /** In every run every packet is sent under one number, its position modulo eight: the next
      frame that carries the i-th outstanding packet, now or after any number of timeouts, has the
      number txseq - |unack| + i (mod 8) that it was sent under before. */
  lemma NumbersNeverChange(w: World, moves: seq<(bool, Move)>, k: nat)
    requires Start(w) && k < |Run(w, moves).ab| && Run(w, moves).ab[k].frame.rel
    ensures NumberedByPosition(Run(w, moves).a, Run(w, moves).ab[k])
  {
    RunHolds(w, moves);
    FrameNumbered(Run(w, moves), k);
  }

  /** The frame carries the packet at its position under that number, the one the packet has in
      `unack` while it is outstanding. */
  predicate NumberedByPosition(s: Side, m: Wire) {
    && m.pos < |s.queued| && s.queued[m.pos] == Skb(m.frame.ptype, m.frame.data)
    && m.frame.seqno == m.pos % 8
    && (s.acked <= m.pos < s.acked + |s.tx.unack| ==>
          m.frame.seqno == (s.tx.txseq - |s.tx.unack| + (m.pos - s.acked)) % 8)
  }

  lemma FrameNumbered(v: World, k: nat)
    requires Inv(v) && k < |v.ab| && v.ab[k].frame.rel
    ensures NumberedByPosition(v.a, v.ab[k])
  {
    var m := v.ab[k];
    assert WireOk(v.a, |v.b.accepted|, m);
    if v.a.acked <= m.pos {
      OutstandingNumber(v.a, m.pos);
    }
  }
}
