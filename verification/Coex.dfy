/** The coexistence queues of userial_vendor.c: several threads push data and then a token that says
    which queue it went to, and one thread takes a token and then the data it stands for. Every
    queue operation is one atomic step. */
module Coex {
  import opened Bytes
  import opened Option

  datatype Kind = Inbound | Outbound

  datatype Item = Item(kind: Kind, data: seq<byte>)

  /** `owedRecv` and `owedSend` count the producers between their two pushes, `token` is the one the
      consumer has taken; `entered` and `handled` record the order of pushes and of processing. */
  datatype State = State(
    recv: seq<seq<byte>>,
    send: seq<seq<byte>>,
    order: seq<Kind>,
    owedRecv: nat,
    owedSend: nat,
    token: Option<Kind>,
    entered: seq<Item>,
    handled: seq<Item>)

  const EMPTY := State([], [], [], 0, 0, None, [], [])

  datatype Step =
    | PushData(item: Item)
    | PushToken(kind: Kind)
    | TakeToken
    | TakeData

  function Queue(s: State, k: Kind): seq<seq<byte>> {
    if k == Inbound then s.recv else s.send
  }

  function Owed(s: State, k: Kind): nat {
    if k == Inbound then s.owedRecv else s.owedSend
  }

  predicate Enabled(s: State, step: Step) {
    match step
    case PushData(_) => true
    case PushToken(k) => Owed(s, k) > 0
    case TakeToken => s.token.None? && s.order != []
    case TakeData => s.token.Some?
  }

  /** userial_enqueue_coex_rawdata and userial_coex_handler, one queue operation at a time. */
  function Next(s: State, step: Step): State
    requires Enabled(s, step)
  {
    match step
    case PushData(item) =>
      var t := s.(entered := s.entered + [item]);
      if item.kind == Inbound then t.(recv := s.recv + [item.data], owedRecv := s.owedRecv + 1)
      else t.(send := s.send + [item.data], owedSend := s.owedSend + 1)
    case PushToken(k) =>
      var t := s.(order := s.order + [k]);
      if k == Inbound then t.(owedRecv := s.owedRecv - 1) else t.(owedSend := s.owedSend - 1)
    case TakeToken => s.(order := s.order[1..], token := Some(s.order[0]))
    case TakeData =>
      var k, t := s.token.value, s.(token := None);
      if Queue(s, k) == [] then t
      else
        var u := t.(handled := s.handled + [Item(k, Queue(s, k)[0])]);
        if k == Inbound then u.(recv := s.recv[1..]) else u.(send := s.send[1..])
  }

  predicate Runs(s: State, steps: seq<Step>, t: State)
    decreases |steps|
  {
    if steps == [] then s == t
    else Enabled(s, steps[0]) && Runs(Next(s, steps[0]), steps[1..], t)
  }

  function Count(order: seq<Kind>, k: Kind): nat {
    if order == [] then 0 else (if order[0] == k then 1 else 0) + Count(order[1..], k)
  }

  /** The data of one direction. */
  function Of(items: seq<Item>, k: Kind): seq<seq<byte>> {
    if items == [] then []
    else
      var last := items[|items| - 1];
      Of(items[..|items| - 1], k) + (if last.kind == k then [last.data] else [])
  }

  lemma {:induction false} CountAppend(order: seq<Kind>, j: Kind, k: Kind)
    ensures Count(order + [j], k) == Count(order, k) + if j == k then 1 else 0
  {
    if order == [] {
      assert order + [j] == [j] && [j][1..] == [];
    } else {
      assert (order + [j])[0] == order[0] && (order + [j])[1..] == order[1..] + [j];
      CountAppend(order[1..], j, k);
    }
  }

  lemma OfAppend(items: seq<Item>, i: Item, k: Kind)
    ensures Of(items + [i], k) == Of(items, k) + if i.kind == k then [i.data] else []
  {
    assert (items + [i])[..|items|] == items;
  }

  /** Data in a queue is accounted for by a token in `order`, the token in hand or a producer that
      still owes one; and each direction is in order. */
  predicate InvFor(s: State, k: Kind) {
    && |Queue(s, k)| == Count(s.order, k) + Owed(s, k) + (if s.token == Some(k) then 1 else 0)
    && Of(s.entered, k) == Of(s.handled, k) + Queue(s, k)
  }

  predicate Inv(s: State) {
    InvFor(s, Inbound) && InvFor(s, Outbound)
  }

  lemma PushKeeps(s: State, item: Item, k: Kind)
    requires InvFor(s, k)
    ensures InvFor(Next(s, PushData(item)), k)
  {
    OfAppend(s.entered, item, k);
    var h, q := Of(s.handled, k), Queue(s, k);
    assert h + q + [item.data] == h + (q + [item.data]);
  }

  lemma ShiftOne(h: seq<seq<byte>>, q: seq<seq<byte>>)
    requires q != []
    ensures h + [q[0]] + q[1..] == h + q && h + [] == h
  {}

  lemma TakeKeeps(s: State, k: Kind)
    requires s.token.Some? && InvFor(s, k)
    ensures InvFor(Next(s, TakeData), k)
  {
    var j := s.token.value;
    var h, q := Of(s.handled, k), Queue(s, k);
    if Queue(s, j) != [] {
      OfAppend(s.handled, Item(j, Queue(s, j)[0]), k);
      ShiftOne(h, if j == k then q else [[]]);
    }
  }

  lemma StepKeepsFor(s: State, step: Step, k: Kind)
    requires Enabled(s, step) && InvFor(s, k)
    ensures InvFor(Next(s, step), k)
  {
    match step
    case PushData(item) => PushKeeps(s, item, k);
    case PushToken(j) => CountAppend(s.order, j, k);
    case TakeToken =>
    case TakeData => TakeKeeps(s, k);
  }

  lemma {:induction false} RunKeeps(s: State, steps: seq<Step>, t: State)
    requires Inv(s) && Runs(s, steps, t)
    ensures Inv(t)
    decreases |steps|
  {
    if steps != [] {
      StepKeepsFor(s, steps[0], Inbound);
      StepKeepsFor(s, steps[0], Outbound);
      RunKeeps(Next(s, steps[0]), steps[1..], t);
    }
  }

  /** However producers interleave, tokens never outnumber data, so every token taken finds its
      data, and each direction is processed in the order it was pushed. */
  lemma TokensFindData(steps: seq<Step>, s: State, k: Kind)
    requires Runs(EMPTY, steps, s)
    ensures Count(s.order, k) <= |Queue(s, k)|
    ensures s.token == Some(k) ==> Queue(s, k) != []
    ensures Of(s.handled, k) <= Of(s.entered, k)
  {
    RunKeeps(EMPTY, steps, s);
  }

  /** Nothing is lost: when the consumer has caught up and no producer is half way, everything pushed
      has been processed. */
  lemma QuietMeansHandled(steps: seq<Step>, s: State, k: Kind)
    requires Runs(EMPTY, steps, s)
    requires s.order == [] && s.token.None? && Owed(s, k) == 0
    ensures Of(s.handled, k) == Of(s.entered, k)
  {
    RunKeeps(EMPTY, steps, s);
  }

  // ----- the order of both directions together

  function Kinds(items: seq<Item>): (r: seq<Kind>)
    ensures |r| == |items|
  {
    seq(|items|, i requires 0 <= i < |items| => items[i].kind)
  }

  /** The directions of the data pushed by some steps, and of the tokens pushed. */
  function DataKinds(steps: seq<Step>): seq<Kind> {
    if steps == [] then []
    else (if steps[0].PushData? then [steps[0].item.kind] else []) + DataKinds(steps[1..])
  }

  function TokenKinds(steps: seq<Step>): seq<Kind> {
    if steps == [] then []
    else (if steps[0].PushToken? then [steps[0].kind] else []) + TokenKinds(steps[1..])
  }

  /** The tokens whose data has been processed, the one in hand, and those in the queue. */
  function Taken(s: State): seq<Kind> {
    Kinds(s.handled) + InHand(s) + s.order
  }

  function InHand(s: State): seq<Kind> {
    if s.token.Some? then [s.token.value] else []
  }

  lemma StepKinds(s: State, step: Step)
    requires Inv(s) && Enabled(s, step)
    ensures var t := Next(s, step);
      && Kinds(t.entered) == Kinds(s.entered) + (if step.PushData? then [step.item.kind] else [])
      && Taken(t) == Taken(s) + (if step.PushToken? then [step.kind] else [])
  {
    match step
    case PushData(item) => KindsAppend(s.entered, item);
    case PushToken(k) => Append(Kinds(s.handled) + InHand(s), s.order, [k]);
    case TakeToken => FirstToken(Kinds(s.handled), s.order);
    case TakeData =>
      var k := s.token.value;
      assert InvFor(s, k);
      KindsAppend(s.handled, Item(k, Queue(s, k)[0]));
      assert Kinds(s.handled) + [k] + [] == Kinds(s.handled) + [k];
  }

  lemma KindsAppend(items: seq<Item>, i: Item)
    ensures Kinds(items + [i]) == Kinds(items) + [i.kind]
  {}

  lemma FirstToken(h: seq<Kind>, order: seq<Kind>)
    requires order != []
    ensures h + [order[0]] + order[1..] == h + [] + order
  {}

  /** Data is processed in the order of the tokens. */
  lemma {:induction false} RunKinds(s: State, steps: seq<Step>, t: State)
    requires Inv(s) && Runs(s, steps, t)
    ensures Kinds(t.entered) == Kinds(s.entered) + DataKinds(steps)
    ensures Taken(t) == Taken(s) + TokenKinds(steps)
    decreases |steps|
  {
    if steps != [] {
      var u := Next(s, steps[0]);
      StepKeepsFor(s, steps[0], Inbound);
      StepKeepsFor(s, steps[0], Outbound);
      StepKinds(s, steps[0]);
      RunKinds(u, steps[1..], t);
      Append(Kinds(s.entered), if steps[0].PushData? then [steps[0].item.kind] else [], DataKinds(steps[1..]));
      Append(Taken(s), if steps[0].PushToken? then [steps[0].kind] else [], TokenKinds(steps[1..]));
    }
  }

  lemma Append(a: seq<Kind>, b: seq<Kind>, c: seq<Kind>)
    ensures a + b + c == a + (b + c)
  {}

  lemma {:induction false} OfPrefix(items: seq<Item>, n: nat, k: Kind)
    requires n <= |items|
    ensures Of(items[..n], k) <= Of(items, k)
    decreases |items|
  {
    if n < |items| {
      var front := items[..|items| - 1];
      OfPrefix(front, n, k);
      assert front[..n] == items[..n];
    } else {
      assert items[..n] == items;
    }
  }

  lemma KindsPrefix(a: seq<Item>, b: seq<Item>)
    ensures a <= b ==> Kinds(a) <= Kinds(b)
  {}

  /** Two sequences that agree direction by direction agree altogether as soon as the directions come
      in the same order. */
  lemma {:induction false} SameByKinds(a: seq<Item>, b: seq<Item>)
    requires forall k :: Of(a, k) <= Of(b, k)
    requires Kinds(a) <= Kinds(b)
    ensures a <= b
    decreases |a|
  {
    if a != [] {
      var n := |a| - 1;
      var front, last := a[..n], a[n];
      forall k
        ensures Of(front, k) <= Of(b, k)
      {
        OfPrefix(a, n, k);
      }
      assert Kinds(front) == Kinds(a)[..n];
      SameByKinds(front, b);
      assert b[..n + 1] == front + [b[n]];
      OfAppend(front, b[n], last.kind);
      OfPrefix(b, n + 1, last.kind);
      assert Kinds(a)[n] == Kinds(b)[n];
      var h := Of(front, last.kind);
      assert Of(a, last.kind) == h + [last.data] && Of(b[..n + 1], last.kind) == h + [b[n].data];
      SameNext(h, last.data, b[n].data, Of(b, last.kind));
    }
  }

  lemma SameNext(h: seq<seq<byte>>, x: seq<byte>, y: seq<byte>, all: seq<seq<byte>>)
    requires h + [x] <= all && h + [y] <= all
    ensures x == y
  {
    assert (h + [x])[|h|] == all[|h|] == (h + [y])[|h|];
  }

  /** Whatever producers and consumer do, what has been processed so far is in the order in which it
      was pushed if and only if its directions are. */
  lemma OrderExact(steps: seq<Step>, s: State)
    requires Runs(EMPTY, steps, s)
    ensures s.handled <= s.entered <==> Kinds(s.handled) <= Kinds(s.entered)
  {
    RunKeeps(EMPTY, steps, s);
    KindsPrefix(s.handled, s.entered);
    if Kinds(s.handled) <= Kinds(s.entered) {
      forall k
        ensures Of(s.handled, k) <= Of(s.entered, k)
      {
        TokensFindData(steps, s, k);
      }
      SameByKinds(s.handled, s.entered);
    }
  }

  /** Once the consumer has caught up, both directions together have been processed in the order in
      which they were pushed if and only if the tokens were pushed in the order of the data. */
  lemma OrderIsTokenOrder(steps: seq<Step>, s: State)
    requires Runs(EMPTY, steps, s) && s.order == [] && s.token.None?
    ensures s.handled <= s.entered <==> TokenKinds(steps) <= DataKinds(steps)
  {
    RunKinds(EMPTY, steps, s);
    OrderExact(steps, s);
    assert Taken(s) == Kinds(s.handled);
    assert Taken(EMPTY) == [] && Kinds(EMPTY.entered) == [];
    assert [] + TokenKinds(steps) == TokenKinds(steps) && [] + DataKinds(steps) == DataKinds(steps);
  }

  // ----- producers that do not overlap

  /** A push of data comes only when no producer is between its two pushes. */
  predicate Serial(s: State, steps: seq<Step>)
    decreases |steps|
  {
    steps != [] && Enabled(s, steps[0]) ==>
      && (steps[0].PushData? ==> s.owedRecv == 0 && s.owedSend == 0)
      && Serial(Next(s, steps[0]), steps[1..])
  }

  /** All tokens there are or will be for data already pushed, in order. */
  function Tokens(s: State): seq<Kind> {
    InHand(s) + s.order
    + (if s.owedRecv > 0 then [Inbound] else if s.owedSend > 0 then [Outbound] else [])
  }

  /** The items that tokens stand for, each taking the next of its queue. */
  function Merge(tokens: seq<Kind>, recv: seq<seq<byte>>, send: seq<seq<byte>>): seq<Item>
    requires Count(tokens, Inbound) == |recv| && Count(tokens, Outbound) == |send|
    decreases |tokens|
  {
    if tokens == [] then []
    else if tokens[0] == Inbound then [Item(Inbound, recv[0])] + Merge(tokens[1..], recv[1..], send)
    else [Item(Outbound, send[0])] + Merge(tokens[1..], recv, send[1..])
  }

  lemma {:induction false} MergeAppend(tokens: seq<Kind>, recv: seq<seq<byte>>, send: seq<seq<byte>>, i: Item)
    requires Count(tokens, Inbound) == |recv| && Count(tokens, Outbound) == |send|
    ensures Count(tokens + [i.kind], Inbound) == |recv| + if i.kind == Inbound then 1 else 0
    ensures Count(tokens + [i.kind], Outbound) == |send| + if i.kind == Outbound then 1 else 0
    ensures Merge(tokens + [i.kind], if i.kind == Inbound then recv + [i.data] else recv,
                  if i.kind == Outbound then send + [i.data] else send)
         == Merge(tokens, recv, send) + [i]
    decreases |tokens|
  {
    CountAppend(tokens, i.kind, Inbound);
    CountAppend(tokens, i.kind, Outbound);
    var more := tokens + [i.kind];
    if tokens == [] {
      assert more[1..] == [] && [i.data][1..] == [];
    } else {
      assert more[0] == tokens[0] && more[1..] == tokens[1..] + [i.kind];
      if tokens[0] == Inbound {
        MergeAppend(tokens[1..], recv[1..], send, i);
        if i.kind == Inbound {
          assert (recv + [i.data])[0] == recv[0] && (recv + [i.data])[1..] == recv[1..] + [i.data];
        }
      } else {
        MergeAppend(tokens[1..], recv, send[1..], i);
        if i.kind == Outbound {
          assert (send + [i.data])[0] == send[0] && (send + [i.data])[1..] == send[1..] + [i.data];
        }
      }
    }
  }

  predicate SerialInv(s: State) {
    && s.owedRecv + s.owedSend <= 1
    && Count(Tokens(s), Inbound) == |s.recv| && Count(Tokens(s), Outbound) == |s.send|
    && s.entered == s.handled + Merge(Tokens(s), s.recv, s.send)
  }

  lemma SerialPushKeeps(s: State, item: Item)
    requires SerialInv(s) && s.owedRecv == 0 && s.owedSend == 0
    ensures SerialInv(Next(s, PushData(item)))
  {
    var t := Next(s, PushData(item));
    assert Tokens(t) == Tokens(s) + [item.kind];
    MergeAppend(Tokens(s), s.recv, s.send, item);
    assert t.entered == s.handled + (Merge(Tokens(s), s.recv, s.send) + [item]);
  }

  lemma SerialTakeKeeps(s: State)
    requires SerialInv(s) && s.token.Some?
    ensures SerialInv(Next(s, TakeData))
  {
    var t, all := Next(s, TakeData), Tokens(s);
    assert all[0] == s.token.value && all[1..] == Tokens(t);
    var i := Item(all[0], Queue(s, all[0])[0]);
    assert s.handled + ([i] + Merge(Tokens(t), t.recv, t.send))
        == s.handled + [i] + Merge(Tokens(t), t.recv, t.send);
  }

  lemma SerialStepKeeps(s: State, step: Step)
    requires SerialInv(s) && Enabled(s, step)
    requires step.PushData? ==> s.owedRecv == 0 && s.owedSend == 0
    ensures SerialInv(Next(s, step))
  {
    match step
    case PushData(item) => SerialPushKeeps(s, item);
    case PushToken(k) => assert Tokens(Next(s, step)) == Tokens(s);
    case TakeToken => assert Tokens(Next(s, step)) == Tokens(s);
    case TakeData => SerialTakeKeeps(s);
  }

  lemma {:induction false} SerialRunKeeps(s: State, steps: seq<Step>, t: State)
    requires SerialInv(s) && Runs(s, steps, t) && Serial(s, steps)
    ensures SerialInv(t)
    decreases |steps|
  {
    if steps != [] {
      SerialStepKeeps(s, steps[0]);
      SerialRunKeeps(Next(s, steps[0]), steps[1..], t);
    }
  }

  /** When producers do not overlap, both directions together are processed in the order they were
      pushed. */
  lemma SerialOrder(steps: seq<Step>, s: State)
    requires Runs(EMPTY, steps, s) && Serial(EMPTY, steps)
    ensures s.handled <= s.entered
  {
    SerialRunKeeps(EMPTY, steps, s);
  }

  /** When they do overlap, the two directions may be exchanged. */
  lemma OverlapReorders(x: seq<byte>, y: seq<byte>) returns (steps: seq<Step>, s: State)
    ensures Runs(EMPTY, steps, s)
    ensures s.entered == [Item(Inbound, x), Item(Outbound, y)]
    ensures s.handled == [Item(Outbound, y), Item(Inbound, x)]
  {
    var s1 := Next(EMPTY, PushData(Item(Inbound, x)));
    var s2 := Next(s1, PushData(Item(Outbound, y)));
    var s3 := Next(s2, PushToken(Outbound));
    var s4 := Next(s3, PushToken(Inbound));
    var s5 := Next(s4, TakeToken);
    var s6 := Next(s5, TakeData);
    var s7 := Next(s6, TakeToken);
    var s8 := Next(s7, TakeData);
    steps, s := [], s8;
    steps := RunsMore(s7, TakeData, steps, s8);
    steps := RunsMore(s6, TakeToken, steps, s8);
    steps := RunsMore(s5, TakeData, steps, s8);
    steps := RunsMore(s4, TakeToken, steps, s8);
    steps := RunsMore(s3, PushToken(Inbound), steps, s8);
    steps := RunsMore(s2, PushToken(Outbound), steps, s8);
    steps := RunsMore(s1, PushData(Item(Outbound, y)), steps, s8);
    steps := RunsMore(EMPTY, PushData(Item(Inbound, x)), steps, s8);
  }

  lemma RunsMore(s: State, step: Step, steps: seq<Step>, t: State) returns (more: seq<Step>)
    requires Enabled(s, step) && Runs(Next(s, step), steps, t)
    ensures Runs(s, more, t)
  {
    more := [step] + steps;
    assert more[1..] == steps;
  }

  // ----- the handler when no producer runs beside it

  class CoexQueues {
    var recvData: seq<seq<byte>>
    var sendData: seq<seq<byte>>
    var dataOrder: seq<Kind>
    var handled: seq<Item>

    predicate Valid()
      reads this
    {
      Count(dataOrder, Inbound) == |recvData| && Count(dataOrder, Outbound) == |sendData|
    }

    function Waiting(): seq<Item>
      requires Valid()
      reads this
    {
      Merge(dataOrder, recvData, sendData)
    }

    constructor ()
      ensures Valid() && Waiting() == [] && handled == []
    {
      recvData, sendData, dataOrder, handled := [], [], [], [];
    }

    /** userial_enqueue_coex_rawdata. */
    method EnqueueRawdata(data: seq<byte>, isRecved: bool)
      requires Valid()
      modifies this
      ensures Valid() && handled == old(handled)
      ensures Waiting() == old(Waiting()) + [Item(if isRecved then Inbound else Outbound, data)]
    {
      MergeAppend(dataOrder, recvData, sendData, Item(if isRecved then Inbound else Outbound, data));
      if isRecved {
        recvData := recvData + [data];
        dataOrder := dataOrder + [Inbound];
      } else {
        sendData := sendData + [data];
        dataOrder := dataOrder + [Outbound];
      }
    }

    /** userial_coex_handler: everything waiting is handled, in the order it was pushed. */
    method Handler()
      requires Valid()
      modifies this
      ensures Valid() && dataOrder == [] && Waiting() == []
      ensures handled == old(handled) + old(Waiting())
    {
      assert handled + Waiting() == old(handled) + old(Waiting());
      while dataOrder != []
        invariant Valid() && handled + Waiting() == old(handled) + old(Waiting())
        decreases |dataOrder|
      {
        ghost var all, h := Waiting(), handled;
        var token := dataOrder[0];
        dataOrder := dataOrder[1..];
        if token == Inbound {
          handled := handled + [Item(Inbound, recvData[0])];
          recvData := recvData[1..];
        } else {
          handled := handled + [Item(Outbound, sendData[0])];
          sendData := sendData[1..];
        }
        assert all == [all[0]] + Waiting() && handled == h + [all[0]];
        assert h + ([all[0]] + Waiting()) == h + [all[0]] + Waiting();
      }
    }
  }
}
