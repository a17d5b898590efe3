/** Progress of the two-endpoint protocol of GoBackN: when a side's window is large enough for what it
    has outstanding at the other side, everything it queued can still be delivered and acknowledged. */
module GoBackNProgress {
  import opened Frames
  import opened Option
  import opened Transport
  import opened GoBackN

  /** A move that needs neither the stack nor link control. */
  predicate Ordinary(m: Move) {
    !m.Queue? && !m.Settings? && !m.Amend?
  }

  ghost predicate Leads(w: World, v: World) {
    exists moves: seq<(bool, Move)> ::
      (forall i :: 0 <= i < |moves| ==> Ordinary(moves[i].1)) && v == Run(w, moves)
  }

  lemma LeadsNowhere(w: World)
    ensures Leads(w, w)
  {
    assert Run(w, []) == w;
  }

  lemma LeadsStep(u: World, w: World, onA: bool, m: Move)
    requires Leads(u, w) && Ordinary(m)
    ensures Leads(u, Step(w, onA, m))
  {
    var moves: seq<(bool, Move)> :|
      (forall i :: 0 <= i < |moves| ==> Ordinary(moves[i].1)) && w == Run(u, moves);
    var more := moves + [(onA, m)];
    assert more[..|more| - 1] == moves;
    assert Run(u, more) == Step(w, onA, m);
  }

  /** What no ordinary move takes away: what is queued, the windows, and what has been accepted and
      acknowledged. */
  ghost predicate Keeps(w: World, v: World) {
    && Leads(w, v)
    && (v.a.queued, v.b.queued) == (w.a.queued, w.b.queued)
    && (v.a.tx.window, v.b.tx.window) == (w.a.tx.window, w.b.tx.window)
    && w.a.accepted <= v.a.accepted && w.b.accepted <= v.b.accepted
    && w.a.acked <= v.a.acked && w.b.acked <= v.b.acked
  }

  /** What the invariant says of the two ends. */
  predicate Ends(w: World) {
    && SenderOk(w.a) && TxOk(w.b.tx)
    && w.a.acked <= |w.b.accepted| <= |w.a.queued| && |w.b.accepted| <= w.a.acked + 7
    && w.b.tx.expected == |w.b.accepted| % 8
  }

  lemma KeepsInv(w: World, v: World)
    requires Inv(w) && Keeps(w, v)
    ensures Inv(v)
  {
    var moves: seq<(bool, Move)> :|
      (forall i :: 0 <= i < |moves| ==> Ordinary(moves[i].1)) && v == Run(w, moves);
    RunKeeps(w, moves);
  }

  lemma KeepsEnds(w: World, v: World)
    requires Inv(w) && Keeps(w, v)
    ensures Ends(v)
  {
    KeepsInv(w, v);
  }

  lemma KeepsNothing(w: World)
    ensures Keeps(w, w)
  {
    LeadsNowhere(w);
  }

  lemma StepAGrows(w: World, m: Move)
    requires Ordinary(m)
    ensures var v := StepA(w, m);
      && v.a.queued == w.a.queued && v.a.tx.window == w.a.tx.window && v.b == w.b
      && w.a.accepted <= v.a.accepted && w.a.acked <= v.a.acked
  {}

  lemma KeepsStep(u: World, w: World, onA: bool, m: Move)
    requires Keeps(u, w) && Ordinary(m)
    ensures Keeps(u, Step(w, onA, m))
  {
    LeadsStep(u, w, onA, m);
    StepAGrows(if onA then w else Swap(w), m);
  }

  // ----- emptying the channels

  lemma LoseFirst(w: World)
    ensures w.ab != [] ==> Step(w, true, Lose(0)) == w.(ab := w.ab[1..])
    ensures w.ba != [] ==> Step(w, false, Lose(0)) == w.(ba := w.ba[1..])
  {}

  lemma {:induction false} EmptyForward(u: World, w: World) returns (v: World)
    requires Keeps(u, w)
    ensures Keeps(u, v) && v == w.(ab := [])
    decreases |w.ab|
  {
    v := w;
    if w.ab != [] {
      KeepsStep(u, w, true, Lose(0));
      LoseFirst(w);
      v := EmptyForward(u, w.(ab := w.ab[1..]));
    }
  }

  lemma {:induction false} EmptyBack(u: World, w: World) returns (v: World)
    requires Keeps(u, w)
    ensures Keeps(u, v) && v == w.(ba := [])
    decreases |w.ba|
  {
    v := w;
    if w.ba != [] {
      KeepsStep(u, w, false, Lose(0));
      LoseFirst(w);
      v := EmptyBack(u, w.(ba := w.ba[1..]));
    }
  }

  predicate Quiet(w: World) {
    (w.ab, w.ba, w.a.held, w.b.held) == ([], [], None, None)
  }

  lemma Calm(u: World, w: World) returns (v: World)
    requires Keeps(u, w)
    ensures Keeps(u, v) && Quiet(v) && v.b.accepted == w.b.accepted && w.a.acked <= v.a.acked
  {
    v := EmptyForward(u, w);
    v := EmptyBack(u, v);
    var x := Step(v, true, ProcessAck);
    KeepsStep(u, v, true, ProcessAck);
    v := Step(x, false, ProcessAck);
    KeepsStep(u, x, false, ProcessAck);
  }

  /** The other side sends what it may, all of it lost: then it has nothing but acknowledgements to
      send. */
  lemma {:induction false} Silence(u: World, w: World) returns (v: World)
    requires Keeps(u, w) && Quiet(w) && TxOk(w.b.tx)
    ensures Keeps(u, v) && Quiet(v) && v.a == w.a && v.b.accepted == w.b.accepted
    ensures Dequeue(v.b.tx).None?
    decreases Backlog(w.b.tx)
  {
    v := w;
    DequeueKeeps(w.b.tx);
    if Dequeue(w.b.tx).Some? {
      var x := Step(w, false, SendOne);
      KeepsStep(u, w, false, SendOne);
      var y := EmptyBack(u, x);
      v := Silence(u, y);
    }
  }

  /** This side sends its unreliable packets, all of them lost. */
  lemma {:induction false} Flush(u: World, w: World) returns (v: World)
    requires Keeps(u, w) && Quiet(w) && Unreliables(w.a.tx.unrel)
    ensures Keeps(u, v) && Quiet(v) && v.b == w.b && v.a.tx.unrel == []
    ensures v.a.acked == w.a.acked && v.a.tx.unack == w.a.tx.unack && v.a.tx.rel == w.a.tx.rel
    decreases |w.a.tx.unrel|
  {
    v := w;
    if w.a.tx.unrel != [] {
      assert IsUnreliable(w.a.tx.unrel[0].ptype);
      var x := Step(w, true, SendOne);
      KeepsStep(u, w, true, SendOne);
      var y := EmptyForward(u, x);
      v := Flush(u, y);
    }
  }

  // ----- sending again

  /** Everything not acknowledged is waiting, and `n` of it is sent. */
  lemma {:induction false} SendMany(u: World, w: World, n: nat) returns (v: World)
    requires Keeps(u, w) && Quiet(w) && w.a.tx.unrel == [] && w.a.tx.unack == []
    requires n <= |w.a.tx.rel| && n <= w.a.tx.window && Reliables(w.a.tx.rel)
    ensures Keeps(u, v) && v.b == w.b && v.ba == [] && |v.ab| == n && v.a.held.None?
    ensures v.a.acked == w.a.acked && v.a.tx.unrel == []
    ensures |v.a.tx.unack| == n && v.a.tx.rel == w.a.tx.rel[n..]
    ensures n > 0 ==> v.ab[n - 1].frame.rel && v.ab[n - 1].pos == w.a.acked + n - 1
    decreases n
  {
    if n == 0 {
      v := w;
      assert w.a.tx.rel[0..] == w.a.tx.rel;
    } else {
      var x := SendMany(u, w, n - 1);
      assert x.a.tx.rel[0] == w.a.tx.rel[n - 1] && x.a.tx.rel[1..] == w.a.tx.rel[n..];
      assert IsReliable(x.a.tx.rel[0].ptype);
      v := Step(x, true, SendOne);
      KeepsStep(u, x, true, SendOne);
    }
  }

  /** All but the last frame are lost. */
  lemma {:induction false} KeepLast(u: World, w: World) returns (v: World)
    requires Keeps(u, w) && w.ab != []
    ensures Keeps(u, v) && v == w.(ab := [w.ab[|w.ab| - 1]])
    decreases |w.ab|
  {
    v := w;
    if |w.ab| > 1 {
      KeepsStep(u, w, true, Lose(0));
      LoseFirst(w);
      v := KeepLast(u, w.(ab := w.ab[1..]));
    } else {
      assert w.ab == [w.ab[0]];
    }
  }

  /** A frame that arrives at a side that has nothing to send and makes it owe an acknowledgement is
      answered by a bare one. */
  lemma BareAnswer(s: Side, m: Wire)
    requires Dequeue(s.tx).None? && m.frame.rel && s.held.None?
    ensures var r := ReceiveOn(s, m);
      var (t, out) := SendOn(r, []);
      && |out| == 1 && !out[0].frame.rel && out[0].ackPos == |r.accepted| && t.accepted == r.accepted
      && ProcessAckOn(t).held.None? && ProcessAckOn(t).accepted == r.accepted
      && |r.accepted| == |s.accepted| + (if m.frame.seqno == s.tx.expected then 1 else 0)
  {}

  /** The three moves of the other side. */
  function Answer(w: World): World
    requires w.ab != []
  {
    var r := ReceiveOn(w.b, w.ab[0]);
    var (t, out) := SendOn(r, w.ba);
    World(w.a, ProcessAckOn(t), w.ab[1..], out)
  }

  lemma AnswerSteps(u: World, w: World)
    requires Keeps(u, w) && w.ab != [] && w.b.held.None?
    ensures Keeps(u, Answer(w))
  {
    var x := Step(w, false, Receive);
    KeepsStep(u, w, false, Receive);
    var y := Step(x, false, SendOne);
    KeepsStep(u, x, false, SendOne);
    KeepsStep(u, y, false, ProcessAck);
    assert Answer(w) == Step(y, false, ProcessAck);
  }

  /** A reliable frame, expected or not, has the other side owe an acknowledgement, and it has nothing
      else to send. */
  lemma Answered(u: World, w: World) returns (v: World)
    requires Keeps(u, w) && |w.ab| == 1 && w.ba == [] && w.b.held.None? && w.ab[0].frame.rel
    requires Dequeue(w.b.tx).None?
    ensures Keeps(u, v) && v.a == w.a && v.ab == [] && |v.ba| == 1 && v.b.held.None?
    ensures !v.ba[0].frame.rel && v.ba[0].ackPos == |v.b.accepted|
    ensures |v.b.accepted| == |w.b.accepted| + (if w.ab[0].frame.seqno == w.b.tx.expected then 1 else 0)
  {
    BareAnswer(w.b, w.ab[0]);
    AnswerSteps(u, w);
    v := Answer(w);
  }

  /** The number of a frame under way tells whether it is expected. */
  lemma FrameNumber(u: World, w: World)
    requires Inv(u) && Keeps(u, w) && w.ab != [] && w.ab[0].frame.rel && w.ab[0].pos <= |w.b.accepted|
    ensures w.ab[0].frame.seqno == w.b.tx.expected <==> w.ab[0].pos == |w.b.accepted|
  {
    KeepsInv(u, w);
    assert WireOk(w.a, |w.b.accepted|, w.ab[0]);
    if w.ab[0].frame.seqno == w.b.tx.expected {
      NumberMeansPosition(w.a, |w.b.accepted|, w.ab[0]);
    }
  }

  /** What the acknowledgement stands for. */
  lemma AckNumber(u: World, w: World)
    requires Inv(u) && Keeps(u, w) && w.ba != []
    ensures Ends(w) && AckOk(w.a, |w.b.accepted|, w.ba[0].frame.ack, w.ba[0].ackPos)
  {
    KeepsInv(u, w);
  }

  /** The acknowledgement arrives. */
  lemma Acknowledge(u: World, w: World) returns (v: World)
    requires Keeps(u, w) && w.ab == [] && |w.ba| == 1 && w.a.held.None? && w.b.held.None?
    requires Ends(w) && AckOk(w.a, |w.b.accepted|, w.ba[0].frame.ack, w.ba[0].ackPos)
    requires !w.ba[0].frame.rel && w.ba[0].ackPos == |w.b.accepted| <= w.a.acked + |w.a.tx.unack|
    ensures Keeps(u, v) && Quiet(v) && v.b == w.b && v.a.acked == |w.b.accepted|
  {
    var m := w.ba[0];
    AckMeansPosition(w.a, |w.b.accepted|, m.frame.ack, m.ackPos);
    var x := Step(w, true, Receive);
    KeepsStep(u, w, true, Receive);
    assert x.a == w.a.(held := Some(Held(m.frame.ack, m.ackPos)));
    v := Step(x, true, ProcessAck);
    KeepsStep(u, x, true, ProcessAck);
  }

  // ----- the theorem

  /** What the other side has accepted beyond what is acknowledged fits this side's window. */
  predicate Covered(w: World) {
    0 < w.a.tx.window && |w.b.accepted| - w.a.acked <= w.a.tx.window
  }

  /** Everything that is not acknowledged waits to be sent, and nothing else does. */
  predicate Unsent(s: Side) {
    && s.tx.unrel == [] && s.tx.unack == []
    && s.acked <= |s.queued| && s.tx.rel == s.queued[s.acked..]
  }

  lemma TimeOut(u: World, w: World) returns (v: World)
    requires Keeps(u, w)
    ensures Keeps(u, v) && v == w.(a := TimeoutOn(w.a))
  {
    KeepsStep(u, w, true, Timeout);
    v := Step(w, true, Timeout);
  }

  lemma Rewound(u: World, w: World) returns (v: World)
    requires Keeps(u, w) && Quiet(w) && Ends(w)
    ensures Keeps(u, v) && Quiet(v) && Dequeue(v.b.tx).None? && Unsent(v.a)
    ensures v.a.acked == w.a.acked && v.b.accepted == w.b.accepted
  {
    var x := Silence(u, w);
    var y := TimeOut(u, x);
    v := Flush(u, y);
  }

  /** One frame under way, which the other side knows already or expects. */
  predicate UnderWay(w: World) {
    && |w.ab| == 1 && w.ba == [] && w.a.held.None? && w.b.held.None?
    && w.ab[0].frame.rel && w.ab[0].pos <= |w.b.accepted| && Dequeue(w.b.tx).None?
    && w.ab[0].pos + 1 == w.a.acked + |w.a.tx.unack|
    && |w.b.accepted| <= w.ab[0].pos + 1
  }

  lemma Exchange(u: World, w: World) returns (v: World)
    requires Inv(u) && Keeps(u, w) && UnderWay(w)
    ensures Keeps(u, v) && v.a.acked == |v.b.accepted| == w.ab[0].pos + 1
  {
    FrameNumber(u, w);
    var z := Answered(u, w);
    AckNumber(u, z);
    v := Acknowledge(u, z);
  }

  lemma LastUnderWay(w: World, n: nat)
    requires |w.ab| == n > 0 && w.ba == [] && w.a.held.None? && w.b.held.None?
    requires |w.a.tx.unack| == n && Dequeue(w.b.tx).None?
    requires w.ab[n - 1].frame.rel && w.ab[n - 1].pos == w.a.acked + n - 1
    requires w.a.acked + n - 1 <= |w.b.accepted| <= w.a.acked + n
    ensures UnderWay(w.(ab := [w.ab[n - 1]]))
  {}

  /** As much is sent as shows the other side the last packet it has, or the first it has not. */
  lemma SendAgain(u: World, w: World) returns (v: World)
    requires Keeps(u, w) && Quiet(w) && Covered(w) && w.a.acked < |w.a.queued| && Ends(w)
    requires Dequeue(w.b.tx).None? && Unsent(w.a)
    ensures Keeps(u, v) && UnderWay(v) && v.ab[0].pos >= w.a.acked
  {
    var got := |w.b.accepted|;
    var n := if got > w.a.acked then got - w.a.acked else 1;
    var x := SendMany(u, w, n);
    LastUnderWay(x, n);
    v := KeepLast(u, x);
  }

  lemma Resend(u: World, w: World) returns (v: World)
    requires Inv(u) && Keeps(u, w) && Quiet(w) && Covered(w) && w.a.acked < |w.a.queued|
    requires Dequeue(w.b.tx).None? && Unsent(w.a) && Ends(w)
    ensures Keeps(u, v) && |v.b.accepted| == v.a.acked > w.a.acked
  {
    var x := SendAgain(u, w);
    v := Exchange(u, x);
  }

  /** At least one more packet is acknowledged. */
  lemma Round(u: World, w: World) returns (v: World)
    requires Inv(u) && Keeps(u, w) && Covered(w) && w.a.acked < |w.a.queued|
    ensures Keeps(u, v) && Covered(v) && w.a.acked < v.a.acked
  {
    v := Calm(u, w);
    if v.a.acked == w.a.acked {
      KeepsEnds(u, v);
      var x := Rewound(u, v);
      KeepsEnds(u, x);
      v := Resend(u, x);
      assert v.a.tx.window == u.a.tx.window == w.a.tx.window;
    }
  }

  lemma {:induction false} Finish(u: World, w: World) returns (v: World)
    requires Inv(u) && Keeps(u, w) && Covered(w)
    ensures Keeps(u, v) && v.a.acked >= |v.a.queued|
    decreases |w.a.queued| - w.a.acked
  {
    v := w;
    if w.a.acked < |w.a.queued| {
      var x := Round(u, w);
      v := Finish(u, x);
    }
  }

  /** From every world the invariant allows, if the window covers what is unacknowledged at the other
      side, some continuation delivers everything queued, and has it acknowledged. */
  lemma Progress(w: World) returns (v: World)
    requires Inv(w) && Covered(w)
    ensures Leads(w, v) && v.a.queued == w.a.queued
    ensures v.b.accepted == v.a.queued && v.a.tx.unack == [] && v.a.tx.rel == []
  {
    KeepsNothing(w);
    v := Finish(w, w);
    KeepsInv(w, v);
    assert v.a.queued[v.a.acked..] == [];
    assert |v.a.tx.unack + v.a.tx.rel| == 0;
  }

  // ----- when the window covers what is unacknowledged

  /** Neither side `s` nor the frames it has under way were ever ahead by more than `cap`. */
  predicate Tight(s: Side, fwd: seq<Wire>, got: nat, cap: nat) {
    && s.tx.window <= cap && |s.tx.unack| <= cap && got <= s.acked + cap
    && forall i :: 0 <= i < |fwd| ==>
         got <= fwd[i].base + cap && (fwd[i].frame.rel ==> fwd[i].pos < fwd[i].base + cap)
  }

  predicate Caps(onA: bool, m: Move, cap: nat) {
    onA && m.Settings? ==> m.window <= cap
  }

  lemma TightDequeue(w: World, cap: nat)
    requires Inv(w) && Tight(w.a, w.ab, |w.b.accepted|, cap)
    ensures var v := StepA(w, SendOne); Tight(v.a, v.ab, |v.b.accepted|, cap)
  {
    if Dequeue(w.a.tx).Some? {
      SendNumbers(w.a);
    }
  }

  /** A move of the sending side. */
  lemma TightSend(w: World, m: Move, cap: nat)
    requires Inv(w) && Tight(w.a, w.ab, |w.b.accepted|, cap) && Caps(true, m, cap)
    ensures var v := StepA(w, m); Tight(v.a, v.ab, |v.b.accepted|, cap)
  {
    if m.SendOne? {
      TightDequeue(w, cap);
    }
  }

  /** A move of the receiving side. */
  lemma TightReceive(w: World, m: Move, cap: nat)
    requires Inv(w) && Tight(w.a, w.ab, |w.b.accepted|, cap)
    ensures var v := Step(w, false, m); Tight(v.a, v.ab, |v.b.accepted|, cap)
  {
    if m.Receive? && w.ab != [] && w.b.held.None? {
      var f := w.ab[0];
      assert WireOk(w.a, |w.b.accepted|, f);
      if f.frame.rel && f.frame.seqno == w.b.tx.expected {
        NumberMeansPosition(w.a, |w.b.accepted|, f);
      }
    }
  }

  lemma {:induction false} TightRun(w: World, moves: seq<(bool, Move)>, cap: nat)
    requires Inv(w) && Tight(w.a, w.ab, |w.b.accepted|, cap)
    requires forall i :: 0 <= i < |moves| ==> Caps(moves[i].0, moves[i].1, cap)
    ensures var v := Run(w, moves); Tight(v.a, v.ab, |v.b.accepted|, cap)
    decreases |moves|
  {
    if moves != [] {
      var n := |moves| - 1;
      var u := Run(w, moves[..n]);
      RunKeeps(w, moves[..n]);
      TightRun(w, moves[..n], cap);
      if moves[n].0 {
        TightSend(u, moves[n].1, cap);
      } else {
        TightReceive(u, moves[n].1, cap);
      }
    }
  }

  /** After any run in which the window of a side was never larger than it is at the end, everything
      that side queued can still be delivered and acknowledged, whatever was lost on the way. */
  lemma RunsCanFinish(w: World, moves: seq<(bool, Move)>) returns (v: World)
    requires Start(w) && 0 < Run(w, moves).a.tx.window
    requires w.a.tx.window <= Run(w, moves).a.tx.window
    requires forall i :: 0 <= i < |moves| ==> Caps(moves[i].0, moves[i].1, Run(w, moves).a.tx.window)
    ensures var u := Run(w, moves);
      && Leads(u, v) && v.a.queued == u.a.queued
      && v.b.accepted == v.a.queued && v.a.tx.unack == [] && v.a.tx.rel == []
  {
    StartHolds(w);
    RunKeeps(w, moves);
    TightRun(w, moves, Run(w, moves).a.tx.window);
    v := Progress(Run(w, moves));
  }
}
