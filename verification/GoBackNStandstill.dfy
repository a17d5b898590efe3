/** When the two-endpoint protocol of GoBackN can no longer deliver what is queued: exactly when the other
    side may get further ahead than the window covers, which takes a window that was lowered. */
module GoBackNStandstill {
  import opened Frames
  import opened Option
  import opened RtkQueues
  import opened Transport
  import opened GoBackN
  import opened GoBackNProgress

  // ----- a world in which nothing more happens

  /** The other side has `got` packets, more than a window beyond what is acknowledged; every
      acknowledgement under way says so, and no frame under way is new to it. */
  predicate Frozen(w: World, acked: nat, got: nat, window: nat) {
    && (w.a.acked, |w.b.accepted|, w.a.tx.window) == (acked, got, window)
    && (window == 0 || acked + window < got) && |w.a.tx.unack| <= window
    && (forall i :: 0 <= i < |w.ab| ==> w.ab[i].frame.rel ==> w.ab[i].pos < got)
    && (forall i :: 0 <= i < |w.ba| ==> w.ba[i].ackPos == got)
    && (w.a.held.Some? ==> w.a.held.value.pos == got)
  }

  predicate WindowStays(onA: bool, m: Move) {
    onA ==> !m.Settings?
  }

  lemma FrozenDequeue(w: World, acked: nat, got: nat, window: nat)
    requires Inv(w) && Frozen(w, acked, got, window)
    ensures Frozen(StepA(w, SendOne), acked, got, window)
  {
    if Dequeue(w.a.tx).Some? {
      SendNumbers(w.a);
      if w.a.tx.unrel != [] {
        assert IsUnreliable(w.a.tx.unrel[0].ptype);
      }
    }
  }

  lemma FrozenAck(w: World, acked: nat, got: nat, window: nat)
    requires Inv(w) && Frozen(w, acked, got, window)
    ensures Frozen(StepA(w, ProcessAck), acked, got, window)
  {
    if w.a.held.Some? {
      AckMeansPosition(w.a, got, w.a.held.value.ack, got);
    }
  }

  lemma FrozenSend(w: World, m: Move, acked: nat, got: nat, window: nat)
    requires Inv(w) && Frozen(w, acked, got, window) && !m.Settings?
    ensures Frozen(StepA(w, m), acked, got, window)
  {
    match m
    case SendOne => FrozenDequeue(w, acked, got, window);
    case ProcessAck => FrozenAck(w, acked, got, window);
    case Queue(_) =>
    case Receive =>
    case Timeout =>
    case Lose(k) =>
    case Amend(k, data) =>
  }

  lemma FrozenReceive(w: World, m: Move, acked: nat, got: nat, window: nat)
    requires Inv(w) && Frozen(w, acked, got, window)
    ensures Frozen(Step(w, false, m), acked, got, window)
  {
    if m.Receive? && w.ab != [] && w.b.held.None? {
      var f := w.ab[0];
      assert WireOk(w.a, got, f);
      if f.frame.rel && f.frame.seqno == w.b.tx.expected {
        NumberMeansPosition(w.a, got, f);
      }
    }
  }

  lemma {:induction false} FrozenRun(w: World, moves: seq<(bool, Move)>, acked: nat, got: nat, window: nat)
    requires Inv(w) && Frozen(w, acked, got, window)
    requires forall i :: 0 <= i < |moves| ==> WindowStays(moves[i].0, moves[i].1)
    ensures Frozen(Run(w, moves), acked, got, window)
    decreases |moves|
  {
    if moves != [] {
      var n := |moves| - 1;
      var u := Run(w, moves[..n]);
      RunKeeps(w, moves[..n]);
      FrozenRun(w, moves[..n], acked, got, window);
      if moves[n].0 {
        FrozenSend(u, moves[n].1, acked, got, window);
      } else {
        FrozenReceive(u, moves[n].1, acked, got, window);
      }
    }
  }

  /** No frame under way is new to the other side, every acknowledgement under way says what it has,
      and no more is outstanding than the window admits. */
  predicate Settled(w: World) {
    && |w.a.tx.unack| <= w.a.tx.window
    && (forall i :: 0 <= i < |w.ab| ==> w.ab[i].frame.rel ==> w.ab[i].pos < |w.b.accepted|)
    && (forall i :: 0 <= i < |w.ba| ==> w.ba[i].ackPos == |w.b.accepted|)
    && (w.a.held.Some? ==> w.a.held.value.pos == |w.b.accepted|)
  }

  lemma SettledFrozen(w: World)
    requires Inv(w) && Settled(w) && !Covered(w)
    ensures Frozen(w, w.a.acked, |w.b.accepted|, w.a.tx.window)
  {}

  /** Nothing more is ever accepted, whatever either stack queues and either side does, until another
      config response. */
  ghost predicate NeverMore(w: World) {
    forall moves: seq<(bool, Move)> ::
      (forall i :: 0 <= i < |moves| ==> WindowStays(moves[i].0, moves[i].1)) ==>
        Run(w, moves).b.accepted == w.b.accepted
  }

  lemma NothingMore(w: World)
    requires Inv(w) && Settled(w) && !Covered(w)
    ensures NeverMore(w)
  {
    SettledFrozen(w);
    forall moves: seq<(bool, Move)> | forall i :: 0 <= i < |moves| ==> WindowStays(moves[i].0, moves[i].1)
      ensures Run(w, moves).b.accepted == w.b.accepted
    {
      FrozenRun(w, moves, w.a.acked, |w.b.accepted|, w.a.tx.window);
      AcceptedGrows(w, moves);
    }
  }

  lemma {:induction false} AcceptedGrows(w: World, moves: seq<(bool, Move)>)
    ensures w.b.accepted <= Run(w, moves).b.accepted
    decreases |moves|
  {
    if moves != [] {
      AcceptedGrows(w, moves[..|moves| - 1]);
    }
  }

  lemma FrozenStays(w: World, v: World)
    requires Inv(w) && Settled(w) && !Covered(w) && Leads(w, v)
    ensures v.b.accepted == w.b.accepted && v.a.queued == w.a.queued
  {
    var moves: seq<(bool, Move)> :|
      (forall i :: 0 <= i < |moves| ==> Ordinary(moves[i].1)) && v == Run(w, moves);
    NothingMore(w);
    QueuedStays(w, moves);
  }

  lemma {:induction false} QueuedStays(w: World, moves: seq<(bool, Move)>)
    requires forall i :: 0 <= i < |moves| ==> Ordinary(moves[i].1)
    ensures Run(w, moves).a.queued == w.a.queued
    decreases |moves|
  {
    if moves != [] {
      var n := |moves| - 1;
      var u := Run(w, moves[..n]);
      QueuedStays(w, moves[..n]);
      StepAGrows(if moves[n].0 then u else Swap(u), moves[n].1);
    }
  }

  ghost predicate CanFinish(w: World) {
    exists v :: Leads(w, v) && v.a.queued == w.a.queued && v.b.accepted == v.a.queued
  }

  /** Once nothing under way is news, what is queued can still be delivered if and only if it has been
      already, or the window is open and covers what the other side has beyond the last
      acknowledgement. Otherwise this side can resend only packets the other side has, and every
      acknowledgement is beyond what it has outstanding and ignored. */
  lemma SettledExactly(w: World)
    requires Inv(w) && Settled(w)
    ensures CanFinish(w) <==> |w.b.accepted| == |w.a.queued| || Covered(w)
  {
    if |w.b.accepted| == |w.a.queued| {
      LeadsNowhere(w);
    } else if Covered(w) {
      var v := Progress(w);
    } else if CanFinish(w) {
      var v :| Leads(w, v) && v.a.queued == w.a.queued && v.b.accepted == v.a.queued;
      FrozenStays(w, v);
    }
  }

  // ----- the exact condition, in every world

  /** What the other side has counted after one more frame. */
  function Bump(got: nat, m: Wire): nat {
    if m.frame.rel && m.pos == got then got + 1 else got
  }

  /** How far the other side gets if every frame under way arrives. */
  function Ahead(fwd: seq<Wire>, got: nat): (r: nat)
    ensures got <= r
    decreases |fwd|
  {
    if fwd == [] then got else Ahead(fwd[1..], Bump(got, fwd[0]))
  }

  lemma {:induction false} AheadMore(fwd: seq<Wire>, x: nat, y: nat)
    requires x <= y
    ensures Ahead(fwd, x) <= Ahead(fwd, y)
    decreases |fwd|
  {
    if fwd != [] {
      AheadMore(fwd[1..], Bump(x, fwd[0]), Bump(y, fwd[0]));
    }
  }

  lemma {:induction false} AheadAppend(fwd: seq<Wire>, m: Wire, got: nat)
    ensures Ahead(fwd + [m], got) == Bump(Ahead(fwd, got), m)
    decreases |fwd|
  {
    var all := fwd + [m];
    if fwd == [] {
      assert all == [m] && all[1..] == [];
      assert Ahead(all[1..], Bump(got, m)) == Bump(got, m);
    } else {
      assert all[1..] == fwd[1..] + [m];
      AheadAppend(fwd[1..], m, Bump(got, fwd[0]));
    }
  }

  /** A frame that is lost gets it no further. */
  lemma {:induction false} AheadLess(fwd: seq<Wire>, k: nat, got: nat)
    requires k < |fwd|
    ensures Ahead(fwd[..k] + fwd[k + 1..], got) <= Ahead(fwd, got)
    decreases |fwd|
  {
    var less := fwd[..k] + fwd[k + 1..];
    if k == 0 {
      assert less == fwd[1..];
      AheadMore(fwd[1..], got, Bump(got, fwd[0]));
    } else {
      assert less[0] == fwd[0] && less[1..] == fwd[1..][..k - 1] + fwd[1..][k..];
      AheadLess(fwd[1..], k - 1, Bump(got, fwd[0]));
    }
  }

  /** Everything queued has been accepted; or the window is open, and the other side cannot get beyond
      what it covers, or only with the very last packet. */
  predicate Assured(w: World) {
    var got, all, limit := |w.b.accepted|, |w.a.queued|, w.a.acked + w.a.tx.window;
    || got == all
    || (0 < w.a.tx.window && (Ahead(w.ab, got) <= limit || all <= limit + 1))
  }

  lemma AssuredSends(w: World)
    requires Inv(w) && Assured(w)
    ensures Assured(StepA(w, SendOne))
  {
    if Dequeue(w.a.tx).Some? {
      SendNumbers(w.a);
      if w.a.tx.unrel != [] {
        assert IsUnreliable(w.a.tx.unrel[0].ptype);
      }
      var v := StepA(w, SendOne);
      AheadAppend(w.ab, v.ab[|w.ab|], |w.b.accepted|);
      assert v.ab == w.ab + [v.ab[|w.ab|]];
    }
  }

  lemma AssuredSender(w: World, m: Move)
    requires Inv(w) && Assured(w) && Ordinary(m)
    ensures Assured(StepA(w, m))
  {
    match m
    case SendOne => AssuredSends(w);
    case Lose(k) =>
      if k < |w.ab| {
        AheadLess(w.ab, k, |w.b.accepted|);
      }
    case Receive =>
    case ProcessAck =>
    case Timeout =>
  }

  /** A frame that arrives is accepted if and only if it is the next one. */
  lemma Arrives(w: World)
    requires Inv(w) && w.ab != [] && w.b.held.None?
    ensures var v := Step(w, false, Receive);
      && v.a == w.a && v.ab == w.ab[1..] && v.ba == w.ba
      && |v.b.accepted| == Bump(|w.b.accepted|, w.ab[0])
  {
    var m := w.ab[0];
    assert WireOk(w.a, |w.b.accepted|, m);
    if m.frame.rel && m.frame.seqno == w.b.tx.expected {
      NumberMeansPosition(w.a, |w.b.accepted|, m);
    }
  }

  lemma AssuredReceiver(w: World, m: Move)
    requires Inv(w) && Assured(w) && Ordinary(m)
    ensures Assured(Step(w, false, m))
  {
    if m.Receive? && w.ab != [] && w.b.held.None? {
      Arrives(w);
      StepKeeps(w, false, m);
    }
  }

  lemma AssuredStep(w: World, onA: bool, m: Move)
    requires Inv(w) && Assured(w) && Ordinary(m)
    ensures Assured(Step(w, onA, m))
  {
    if onA {
      AssuredSender(w, m);
    } else {
      AssuredReceiver(w, m);
    }
  }

  lemma {:induction false} AssuredRun(w: World, moves: seq<(bool, Move)>)
    requires Inv(w) && Assured(w)
    requires forall i :: 0 <= i < |moves| ==> Ordinary(moves[i].1)
    ensures Assured(Run(w, moves))
    decreases |moves|
  {
    if moves != [] {
      var n := |moves| - 1;
      var u := Run(w, moves[..n]);
      RunKeeps(w, moves[..n]);
      AssuredRun(w, moves[..n]);
      assert Ordinary(moves[n].1);
      AssuredStep(u, moves[n].0, moves[n].1);
    }
  }

  lemma AssuredFinishes(w: World)
    requires Inv(w) && Assured(w)
    ensures CanFinish(w)
  {
    if |w.b.accepted| == |w.a.queued| {
      LeadsNowhere(w);
    } else {
      var v := Progress(w);
    }
  }

  lemma DeliverOne(u: World, w: World) returns (v: World)
    requires Inv(u) && Keeps(u, w) && w.ab != []
    ensures Keeps(u, v) && v.a == w.a && v.ab == w.ab[1..]
    ensures |v.b.accepted| == Bump(|w.b.accepted|, w.ab[0])
  {
    var x := Step(w, false, ProcessAck);
    KeepsStep(u, w, false, ProcessAck);
    KeepsInv(u, x);
    Arrives(x);
    KeepsStep(u, x, false, Receive);
    v := Step(x, false, Receive);
  }

  /** Frames under way arrive until the other side has `target` packets. */
  lemma {:induction false} Deliver(u: World, w: World, target: nat) returns (v: World)
    requires Inv(u) && Keeps(u, w) && |w.b.accepted| <= target <= Ahead(w.ab, |w.b.accepted|)
    ensures Keeps(u, v) && v.a == w.a && |v.b.accepted| == target
    decreases |w.ab|
  {
    v := w;
    if |w.b.accepted| < target {
      var x := DeliverOne(u, w);
      v := Deliver(u, x, target);
    }
  }

  /** An acknowledgement beyond what is outstanding, or of nothing new, is dropped. */
  lemma DropsAck(w: World)
    requires Inv(w) && w.a.tx.unack == []
    ensures var v := Step(w, true, ProcessAck);
      v == w.(a := v.a) && v.a.held.None? && v.a.tx.unack == []
      && (v.a.acked, v.a.queued, v.a.tx.window) == (w.a.acked, w.a.queued, w.a.tx.window)
  {
    if w.a.held.Some? {
      AckMeansPosition(w.a, |w.b.accepted|, w.a.held.value.ack, w.a.held.value.pos);
    }
  }

  /** Everything under way is lost, and this side times out. */
  lemma Abandon(u: World, w: World) returns (v: World)
    requires Inv(u) && Keeps(u, w)
    ensures Keeps(u, v) && Settled(v) && v.b == w.b
    ensures (v.a.acked, v.a.queued, v.a.tx.window) == (w.a.acked, w.a.queued, w.a.tx.window)
  {
    var x := EmptyForward(u, w);
    var y := EmptyBack(u, x);
    var z := TimeOut(u, y);
    KeepsInv(u, z);
    DropsAck(z);
    KeepsStep(u, z, true, ProcessAck);
    v := Step(z, true, ProcessAck);
  }

  /** If the other side can get beyond what the window covers, it may, and everything it says of that
      may be lost. */
  lemma GoesAstray(w: World) returns (v: World)
    requires Inv(w) && !Assured(w)
    ensures Keeps(w, v) && !CanFinish(v) && NeverMore(v)
    ensures var got, limit := |w.b.accepted|, w.a.acked + w.a.tx.window;
      |v.b.accepted| == if 0 < w.a.tx.window && got <= limit then limit + 1 else got
  {
    var got, limit := |w.b.accepted|, w.a.acked + w.a.tx.window;
    KeepsNothing(w);
    var x := Deliver(w, w, if 0 < w.a.tx.window && got <= limit then limit + 1 else got);
    v := Abandon(w, x);
    KeepsInv(w, v);
    SettledExactly(v);
    NothingMore(v);
  }

  ghost predicate AlwaysFinishes(w: World) {
    forall v :: Leads(w, v) ==> CanFinish(v)
  }

  /** The exact condition. Whatever is lost, delayed or timed out from here on, what is queued can still
      be delivered, if and only if it has been already, or the window is open and the other side cannot
      get beyond what it covers with the frames under way - or has nothing left then but one packet. */
  lemma FinishExactly(w: World)
    requires Inv(w)
    ensures AlwaysFinishes(w) <==> Assured(w)
  {
    if Assured(w) {
      forall v | Leads(w, v)
        ensures CanFinish(v)
      {
        var moves: seq<(bool, Move)> :|
          (forall i :: 0 <= i < |moves| ==> Ordinary(moves[i].1)) && v == Run(w, moves);
        RunKeeps(w, moves);
        AssuredRun(w, moves);
        AssuredFinishes(v);
      }
    } else {
      var v := GoesAstray(w);
    }
  }

  // ----- a run after which delivery never finishes

  predicate Acl(skb: Skb) {
    skb.ptype == ACL_PKT && |skb.data| <= MAX_PAYLOAD
  }

  function QuietSide(rel: seq<Skb>, window: nat): Side {
    Side(Tx([], rel, [], 0, 0, false, window, false, false, []), None, rel, 0, [])
  }

  /** Two packets are sent with a window of two, and then the window is lowered. */
  lemma TwoSent(x: Skb, y: Skb, z: Skb) returns (v: World)
    requires Acl(x) && Acl(y) && Acl(z)
    ensures var w := World(QuietSide([x, y, z], 2), QuietSide([], 0), [], []);
      v == Step(Step(Step(w, true, SendOne), true, SendOne), true, Settings(1, false, false))
    ensures v.b == QuietSide([], 0) && (v.a.queued, v.a.acked, v.a.tx.window) == ([x, y, z], 0, 1)
    ensures |v.ab| == 2 && forall i :: 0 <= i < 2 ==> v.ab[i].frame.rel && v.ab[i].pos == i
  {
    var w := World(QuietSide([x, y, z], 2), QuietSide([], 0), [], []);
    var u := Step(w, true, SendOne);
    assert [x, y, z][1..] == [y, z] && [y, z][1..] == [z];
    assert u.a.tx.unack == [x] && u.a.tx.rel == [y, z];
    v := Step(Step(u, true, SendOne), true, Settings(1, false, false));
  }

  lemma AheadTwo(fwd: seq<Wire>)
    requires |fwd| == 2 && forall i :: 0 <= i < 2 ==> fwd[i].frame.rel && fwd[i].pos == i
    ensures Ahead(fwd, 0) == 2
  {
    assert fwd[1..] == [fwd[1]] && fwd[1..][1..] == [];
    assert Ahead(fwd[1..], 1) == Ahead(fwd[1..][1..], 2);
  }

  lemma RunPrefix(w: World, m: seq<(bool, Move)>, i: nat)
    requires i < |m|
    ensures Run(w, m[..i + 1]) == Step(Run(w, m[..i]), m[i].0, m[i].1)
  {
    assert m[..i + 1][..i] == m[..i];
  }

  lemma RunThree(w: World, m: seq<(bool, Move)>)
    requires |m| == 3
    ensures Run(w, m) == Step(Step(Step(w, m[0].0, m[0].1), m[1].0, m[1].1), m[2].0, m[2].1)
  {
    RunPrefix(w, m, 0);
    RunPrefix(w, m, 1);
    RunPrefix(w, m, 2);
    assert m[..3] == m && m[..0] == [];
  }

  lemma LoweredReached(x: Skb, y: Skb, z: Skb) returns (w: World, moves: seq<(bool, Move)>)
    requires Acl(x) && Acl(y) && Acl(z)
    ensures Start(w) && w.a.tx.window == 2
    ensures var v := Run(w, moves);
      !Assured(v) && (v.a.queued, v.a.acked, v.a.tx.window, |v.b.accepted|) == ([x, y, z], 0, 1, 0)
  {
    w := World(QuietSide([x, y, z], 2), QuietSide([], 0), [], []);
    moves := [(true, SendOne), (true, SendOne), (true, Settings(1, false, false))];
    RunThree(w, moves);
    var v := TwoSent(x, y, z);
    AheadTwo(v.ab);
  }

  lemma LeadsOn(w: World, moves: seq<(bool, Move)>, v: World) returns (all: seq<(bool, Move)>)
    requires Leads(Run(w, moves), v)
    ensures v == Run(w, all)
  {
    var more: seq<(bool, Move)> :|
      (forall i :: 0 <= i < |more| ==> Ordinary(more[i].1)) && v == Run(Run(w, moves), more);
    all := moves + more;
    RunAfter(w, moves, more);
  }

  /** With a window of two, two of three packets are sent; then a new config response lowers the window
      to one. Both are accepted and their acknowledgement is lost, and after a timeout the third is
      never accepted, whatever follows but yet another config response. */
  lemma RestWithoutEnd(x: Skb, y: Skb, z: Skb) returns (w: World, moves: seq<(bool, Move)>)
    requires Acl(x) && Acl(y) && Acl(z)
    ensures Start(w) && w.a.tx.window == 2
    ensures var v := Run(w, moves);
      && (v.a.tx.window, v.a.queued, |v.b.accepted|) == (1, [x, y, z], 2)
      && !CanFinish(v) && NeverMore(v)
  {
    var before;
    w, before := LoweredReached(x, y, z);
    RunHolds(w, before);
    var u := Run(w, before);
    var v := GoesAstray(u);
    assert |v.b.accepted| == 2 by {
      assert u.a.acked + u.a.tx.window == 1 && |u.b.accepted| == 0;
    }
    moves := LeadsOn(w, before, v);
  }
}
