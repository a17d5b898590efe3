/** The sending half of the H5 control block of hci_h5.c as an object: queues on the heap, frames
    built in byte buffers, counters updated in place. Every method is proved to do to the abstract
    sender what the functions of Transport say. */
module H5Sender {
  import opened Bytes
  import opened Slip
  import opened Frames
  import opened RtkBuffers
  import opened RtkQueues
  import opened Transport
  import Crc

  /** The buffers handed to the UART are the encodings of the logged frames. */
  ghost predicate WireCarries(wire: seq<seq<byte>>, log: seq<Sent>) {
    && |wire| == |log|
    && forall i {:trigger wire[i]} {:trigger log[i]} :: 0 <= i < |wire| ==>
         Fits(log[i].frame) && wire[i] == Encode(log[i].oof, log[i].frame)
  }

  /** h5_crc_update, in two table steps. */
  method CrcUpdate(crc: Crc.word, d: byte) returns (reg: Crc.word)
    ensures reg == Crc.Update(crc, d)
  {
    Crc.UpdateWord(crc, d);
    var r: nat := crc;
    r := Xor(r / 16, Crc.CRC_TABLE[Xor(r, d) % 16]);
    r := Xor(r / 16, Crc.CRC_TABLE[Xor(r, d / 16) % 16]);
    reg := r;
  }

  /** h5_slip_msgdelim. */
  method PutDelimiter(skb: RtkBuffer)
    requires skb.Valid() && skb.TailRoom() >= 1
    modifies skb`end, skb`length, skb.head
    ensures skb.Valid() && skb.Content() == old(skb.Content()) + [DELIM]
    ensures skb.TailRoom() == old(skb.TailRoom()) - 1
  {
    skb.Put(DELIM);
  }

  method PutTwo(skb: RtkBuffer, x: byte, y: byte)
    requires skb.Valid() && skb.TailRoom() >= 2
    modifies skb`end, skb`length, skb.head
    ensures skb.Valid() && skb.Content() == old(skb.Content()) + [x, y]
    ensures skb.TailRoom() == old(skb.TailRoom()) - 2
  {
    skb.Put(x);
    skb.Put(y);
  }

  /** h5_slip_one_byte. */
  method SlipOneByte(skb: RtkBuffer, oof: bool, b: byte)
    requires skb.Valid() && skb.TailRoom() >= 2
    modifies skb`end, skb`length, skb.head
    ensures skb.Valid() && skb.Content() == old(skb.Content()) + SlipByte(oof, b)
    ensures skb.TailRoom() == old(skb.TailRoom()) - |SlipByte(oof, b)|
  {
    if b == DELIM {
      PutTwo(skb, ESC, 0xdc);
    } else if b == ESC {
      PutTwo(skb, ESC, 0xdd);
    } else if b == XON && oof {
      PutTwo(skb, ESC, 0xde);
    } else if b == XOFF && oof {
      PutTwo(skb, ESC, 0xdf);
    } else {
      skb.Put(b);
    }
  }

  /** What has been written of a frame: the delimiter and the stuffed bytes of `t`, with the check
      of `t` running if there is one. */
  ghost predicate Written(skb: RtkBuffer, oof: bool, useCrc: bool, crc: Crc.word, t: seq<byte>)
    reads skb, skb.head
  {
    && skb.Valid()
    && skb.Content() == [DELIM] + SlipAll(oof, t)
    && (useCrc ==> crc == Crc.Message(Crc.INIT, t))
  }

  lemma WrittenOne(oof: bool, t: seq<byte>, b: byte)
    ensures [DELIM] + SlipAll(oof, t + [b]) == [DELIM] + SlipAll(oof, t) + SlipByte(oof, b)
  {
    assert (t + [b])[..|t|] == t;
  }

  /** One round of the stuffing loops of h5_prepare_pkt. */
  method PutByte(skb: RtkBuffer, oof: bool, useCrc: bool, crc: Crc.word, b: byte, ghost t: seq<byte>)
      returns (reg: Crc.word)
    requires Written(skb, oof, useCrc, crc, t) && skb.TailRoom() >= 2
    modifies skb`end, skb`length, skb.head
    ensures Written(skb, oof, useCrc, reg, t + [b])
    ensures skb.TailRoom() >= old(skb.TailRoom()) - 2
  {
    SlipOneByte(skb, oof, b);
    WrittenOne(oof, t, b);
    if useCrc {
      reg := CrcUpdate(crc, b);
      Crc.MessageAppend(Crc.INIT, t, b);
    } else {
      reg := crc;
    }
  }

  /** The stuffing loops of h5_prepare_pkt: the bytes `s` after `t`. */
  method PutBytes(skb: RtkBuffer, oof: bool, useCrc: bool, crc: Crc.word, s: seq<byte>, ghost t: seq<byte>)
      returns (reg: Crc.word)
    requires Written(skb, oof, useCrc, crc, t) && skb.TailRoom() >= 2 * |s|
    modifies skb`end, skb`length, skb.head
    ensures Written(skb, oof, useCrc, reg, t + s)
    ensures skb.TailRoom() >= old(skb.TailRoom()) - 2 * |s|
  {
    reg := crc;
    assert t + s[..0] == t;
    for i := 0 to |s|
      invariant skb.head == old(skb.head)
      invariant Written(skb, oof, useCrc, reg, t + s[..i])
      invariant skb.TailRoom() >= old(skb.TailRoom()) - 2 * i
    {
      AppendOne(t, s, i);
      reg := PutByte(skb, oof, useCrc, reg, s[i], t + s[..i]);
    }
    assert s[..|s|] == s;
  }

  lemma AppendOne(t: seq<byte>, s: seq<byte>, i: nat)
    requires i < |s|
    ensures t + s[..i + 1] == t + s[..i] + [s[i]]
  {}

  /** The buffer h5_prepare_pkt builds: header, payload and check, stuffed, between delimiters. */
  method EncodeFrame(oof: bool, f: Frame, hdr: seq<byte>) returns (nskb: RtkBuffer)
    requires Fits(f) && hdr == Header(f)
    ensures fresh(nskb) && fresh(nskb.head) && nskb.Valid()
    ensures nskb.Content() == Encode(oof, f)
  {
    nskb := new RtkBuffer((|f.data| + 6) * 2 + 2, 0);
    PutDelimiter(nskb);
    var crc := PutBytes(nskb, oof, f.crc, Crc.INIT, hdr, []);
    assert [] + hdr == hdr;
    crc := PutBytes(nskb, oof, f.crc, crc, f.data, hdr);
    if f.crc {
      PutCheck(nskb, oof, crc, hdr + f.data);
    } else {
      assert hdr + f.data + [] == hdr + f.data;
    }
    PutDelimiter(nskb);
  }

  method PutCheck(skb: RtkBuffer, oof: bool, crc: Crc.word, ghost msg: seq<byte>)
    requires Written(skb, oof, true, crc, msg) && skb.TailRoom() >= 4
    modifies skb`end, skb`length, skb.head
    ensures Written(skb, oof, false, 0, msg + CrcBytes(msg))
    ensures skb.TailRoom() >= old(skb.TailRoom()) - 4
  {
    var c := Crc.BitRev16(crc);
    var check := [c / 256, c % 256];
    CheckBytes(crc, msg);
    var _ := PutBytes(skb, oof, false, 0, check, msg);
  }

  lemma CheckBytes(crc: Crc.word, msg: seq<byte>)
    requires crc == Crc.Message(Crc.INIT, msg)
    ensures [Crc.BitRev16(crc) / 256, Crc.BitRev16(crc) % 256] == CrcBytes(msg)
  {
    Crc.BitRev16IsBitRev(crc);
  }

  ghost function RewoundOne(tx: Tx): Tx
    requires tx.unack != []
  {
    var k := |tx.unack| - 1;
    tx.(unack := tx.unack[..k], rel := [tx.unack[k]] + tx.rel, txseq := (tx.txseq - 1) % 8)
  }

  lemma RewoundOk(tx: Tx)
    requires TxOk(tx) && tx.unack != []
    ensures TxOk(RewoundOne(tx))
  {}

  lemma RewindRound(tx: Tx)
    requires tx.txseq < 8
    ensures tx.unack != [] ==> Rewind(RewoundOne(tx)) == Rewind(tx)
    ensures tx.unack == [] ==> Rewind(tx) == tx
  {
    if tx.unack != [] {
      var k := |tx.unack| - 1;
      WrapAdd(tx.txseq - 1, -k);
      assert tx.unack[..k] + ([tx.unack[k]] + tx.rel) == tx.unack + tx.rel;
    } else {
      assert [] + tx.rel == tx.rel;
    }
  }

  ghost predicate Encodes(nskb: RtkBuffer, oof: bool, f: Frame)
    reads nskb, nskb.head
  {
    nskb.Valid() && Fits(f) && nskb.Content() == Encode(oof, f)
  }

  class Sender {
    const unrel: RtkQueue
    const rel: RtkQueue
    const unack: RtkQueue

    var slidingWindowSize: nat
    var oofFlowControl: bool
    var useCrc: bool
    var rxseqTxack: nat
    var isTxackReq: bool
    var msgqTxseq: nat

    /** The buffers handed to the transmit callback so far, and the frames they encode. */
    var wire: seq<seq<byte>>
    ghost var log: seq<Sent>

    /** The abstract sender, and the objects that represent it. */
    ghost var tx: Tx
    ghost var repr: set<object>

    ghost predicate QueuesOk()
      reads this, repr
    {
      && this in repr && unrel in repr && rel in repr && unack in repr
      && unrel != rel && unrel != unack && rel != unack
      && unrel.entries <= repr && rel.entries <= repr && unack.entries <= repr
      && unrel.entries !! rel.entries && unrel.entries !! unack.entries && rel.entries !! unack.entries
      && unrel.Valid() && rel.Valid() && unack.Valid()
      && WireCarries(wire, log)
      && tx == TxAbs()
    }

    ghost function TxAbs(): Tx
      reads this, unrel, rel, unack
    {
      Tx(unrel.contents, rel.contents, unack.contents, msgqTxseq, rxseqTxack, isTxackReq,
         slidingWindowSize, useCrc, oofFlowControl, log)
    }

    ghost predicate Valid()
      reads this, repr
    {
      QueuesOk() && TxOk(tx)
    }

    /** A node that is in no queue. */
    ghost predicate Loose(n: Node)
      reads this, unrel, rel, unack
    {
      n in repr && n !in unrel.entries && n !in rel.entries && n !in unack.entries
    }

    /** hci_h5_int_init. */
    constructor ()
      ensures Valid() && fresh(repr)
      ensures tx == Tx([], [], [], 0, 0, false, 0, false, false, [])
    {
      var q0 := new RtkQueue();
      var q1 := new RtkQueue();
      var q2 := new RtkQueue();
      unrel, rel, unack := q0, q1, q2;
      slidingWindowSize, oofFlowControl, useCrc := 0, false, false;
      rxseqTxack, isTxackReq, msgqTxseq := 0, false, 0;
      wire, log := [], [];
      tx := Tx([], [], [], 0, 0, false, 0, false, false, []);
      repr := {this, q0, q1, q2, q0.head, q1.head, q2.head};
    }

    // Each queue operation of the sender, with what it does to the abstract sender.

    method PopUnrel() returns (n: Node?)
      requires QueuesOk()
      modifies repr
      ensures QueuesOk() && repr == old(repr)
      ensures n == null <==> old(tx).unrel == []
      ensures n == null ==> tx == old(tx)
      ensures n != null ==>
        n.skb == old(tx).unrel[0] && tx == old(tx).(unrel := old(tx).unrel[1..]) && Loose(n)
    {
      n := unrel.DequeueHead();
      tx := TxAbs();
    }

    method PopRel() returns (n: Node?)
      requires QueuesOk()
      modifies repr
      ensures QueuesOk() && repr == old(repr)
      ensures n == null <==> old(tx).rel == []
      ensures n == null ==> tx == old(tx)
      ensures n != null ==>
        n.skb == old(tx).rel[0] && tx == old(tx).(rel := old(tx).rel[1..]) && Loose(n)
    {
      n := rel.DequeueHead();
      tx := TxAbs();
    }

    method PopUnackTail() returns (n: Node?)
      requires QueuesOk()
      modifies repr
      ensures QueuesOk() && repr == old(repr)
      ensures n == null <==> old(tx).unack == []
      ensures n == null ==> tx == old(tx)
      ensures n != null ==>
        var was := old(tx).unack;
        n.skb == was[|was| - 1] && tx == old(tx).(unack := was[..|was| - 1]) && Loose(n)
    {
      n := unack.DequeueTail();
      tx := TxAbs();
    }

    method PopUnackFront(count: nat)
      requires QueuesOk() && count <= |tx.unack|
      modifies repr
      ensures QueuesOk() && repr == old(repr)
      ensures tx == old(tx).(unack := old(tx).unack[count..])
    {
      var _ := unack.RemovePrefix(count);
      tx := TxAbs();
    }

    method PushUnrel(n: Node)
      requires QueuesOk() && Loose(n)
      modifies repr
      ensures QueuesOk() && repr == old(repr)
      ensures tx == old(tx).(unrel := old(tx).unrel + [n.skb])
    {
      unrel.QueueTail(n);
      tx := TxAbs();
    }

    method PushRel(n: Node)
      requires QueuesOk() && Loose(n)
      modifies repr
      ensures QueuesOk() && repr == old(repr)
      ensures tx == old(tx).(rel := old(tx).rel + [n.skb])
    {
      rel.QueueTail(n);
      tx := TxAbs();
    }

    method PushRelHead(n: Node)
      requires QueuesOk() && Loose(n)
      modifies repr
      ensures QueuesOk() && repr == old(repr)
      ensures tx == old(tx).(rel := [n.skb] + old(tx).rel)
    {
      rel.QueueHead(n);
      tx := TxAbs();
    }

    method PushUnack(n: Node)
      requires QueuesOk() && Loose(n)
      modifies repr
      ensures QueuesOk() && repr == old(repr)
      ensures tx == old(tx).(unack := old(tx).unack + [n.skb])
    {
      unack.QueueTail(n);
      tx := TxAbs();
    }

    /** h5_prepare_pkt: acknowledge, number and mark the packet, and encode it. */
    method PreparePkt(skb: Skb) returns (nskb: RtkBuffer)
      requires QueuesOk() && tx.txseq < 8 && tx.expected < 8 && |skb.data| <= MAX_PAYLOAD
      requires IsReliable(skb.ptype) || IsUnreliable(skb.ptype)
      modifies this
      ensures QueuesOk() && repr == old(repr)
      ensures tx == Prepared(old(tx), skb)
      ensures fresh(nskb) && fresh(nskb.head) && Encodes(nskb, old(tx).oof, FrameOf(old(tx), skb))
    {
      ghost var f := FrameOf(tx, skb);
      var n := |skb.data|;
      var reliable := IsReliable(skb.ptype);
      var seqno := if reliable then msgqTxseq else 0;
      var h0 := rxseqTxack * 8;
      isTxackReq := false;
      if reliable {
        h0 := h0 + 0x80 + msgqTxseq;
        msgqTxseq := (msgqTxseq + 1) % 8;
      }
      if useCrc {
        h0 := h0 + 0x40;
      }
      var h1 := (n * 16) % 256 + skb.ptype;
      var h2 := n / 16;
      var h3 := 255 - (h0 + h1 + h2) % 256;
      assert [h0, h1, h2, h3] == Header(f);
      nskb := EncodeFrame(oofFlowControl, Frame(reliable, seqno, rxseqTxack, useCrc, skb.ptype, skb.data),
                          [h0, h1, h2, h3]);
      tx := Prepared(tx, skb);
    }

    /** The unreliable branch of h5_dequeue. */
    method TakeUnreliable() returns (nskb: RtkBuffer?)
      requires Valid()
      modifies repr
      ensures QueuesOk() && repr == old(repr)
      ensures nskb == null <==> old(tx).unrel == []
      ensures nskb == null ==> tx == old(tx)
      ensures nskb != null ==>
        var t := old(tx);
        && tx == Prepared(t.(unrel := t.unrel[1..]), t.unrel[0])
        && Encodes(nskb, t.oof, FrameOf(t, t.unrel[0]))
    {
      nskb := null;
      var n := PopUnrel();
      if n != null {
        nskb := PreparePkt(n.skb);
      }
    }

    /** The reliable branch: a packet moves from `rel` to `unack`. */
    method TakeReliable() returns (nskb: RtkBuffer?)
      requires Valid()
      modifies repr
      ensures QueuesOk() && repr == old(repr)
      ensures nskb == null <==> old(tx).rel == []
      ensures nskb == null ==> tx == old(tx)
      ensures nskb != null ==>
        var t := old(tx);
        && tx == Prepared(t.(rel := t.rel[1..], unack := t.unack + [t.rel[0]]), t.rel[0])
        && Encodes(nskb, t.oof, FrameOf(t, t.rel[0]))
    {
      nskb := null;
      var n := PopRel();
      if n != null {
        nskb := PreparePkt(n.skb);
        PushUnack(n);
      }
    }

    /** The rest of h5_dequeue when no unreliable packet waits: a reliable packet if the window is
        open, or else a bare acknowledgement if one is owed. */
    method TakeOther() returns (nskb: RtkBuffer?)
      requires Valid() && tx.unrel == []
      modifies repr
      ensures QueuesOk() && repr == old(repr)
      ensures match Dequeue(old(tx))
        case None => nskb == null && tx == old(tx)
        case Some((next, f)) => nskb != null && tx == next && Encodes(nskb, old(tx).oof, f)
    {
      nskb := null;
      if unack.queueLen < slidingWindowSize {
        nskb := TakeReliable();
      }
      if nskb == null && isTxackReq {
        nskb := PreparePkt(ACK_SKB);
      }
    }

    /** h5_dequeue. */
    method DequeuePkt() returns (nskb: RtkBuffer?)
      requires Valid()
      modifies repr
      ensures Valid() && repr == old(repr)
      ensures match Dequeue(old(tx))
        case None => nskb == null && tx == old(tx)
        case Some((next, f)) => nskb != null && tx == next && Encodes(nskb, old(tx).oof, f)
    {
      DequeueKeeps(tx);
      nskb := TakeUnreliable();
      if nskb == null {
        nskb := TakeOther();
      }
    }

    /** The transmit callback. */
    method Transmit(nskb: RtkBuffer, ghost f: Frame)
      requires QueuesOk() && Encodes(nskb, tx.oof, f)
      modifies this
      ensures QueuesOk() && repr == old(repr) && tx == Emit(old(tx), f)
    {
      wire := wire + [nskb.head[nskb.data..nskb.end]];
      log := log + [Sent(oofFlowControl, f)];
      tx := TxAbs();
    }

    /** One round of the loop in h5_wake_up. */
    method SendOne() returns (sent: bool)
      requires Valid()
      modifies repr
      ensures Valid() && repr == old(repr)
      ensures sent <==> Dequeue(old(tx)).Some?
      ensures !sent ==> tx == old(tx)
      ensures sent ==> var (next, f) := Dequeue(old(tx)).value; tx == Emit(next, f)
    {
      ghost var t := tx;
      DequeueKeeps(t);
      var nskb := DequeuePkt();
      sent := nskb != null;
      if sent {
        Transmit(nskb, Dequeue(t).value.1);
      }
    }

    /** h5_wake_up: everything that may be sent goes to the transmit callback. */
    method WakeUpTx()
      requires Valid()
      modifies repr
      ensures Valid() && repr == old(repr)
      ensures tx == WakeUp(old(tx))
    {
      var more := true;
      while more
        invariant Valid() && repr == old(repr)
        invariant WakeUp(tx) == WakeUp(old(tx))
        invariant !more ==> tx == WakeUp(old(tx))
        decreases more, Backlog(tx)
      {
        DequeueKeeps(tx);
        more := SendOne();
      }
    }

    /** h5_enqueue. */
    method EnqueuePkt(n: Node)
      requires Valid() && Loose(n)
      modifies repr
      ensures Valid() && repr == old(repr)
      ensures tx == Transport.Enqueue(old(tx), n.skb)
    {
      if |n.skb.data| > 0xfff {
        return;
      }
      if n.skb.ptype == ACL_PKT || n.skb.ptype == COMMAND_PKT {
        PushRel(n);
      } else if IsUnreliable(n.skb.ptype) {
        PushUnrel(n);
      }
    }

    /** skb_alloc_and_init, h5_enqueue and h5_wake_up, as all callers combine them. */
    method Submit(skb: Skb)
      requires Valid()
      modifies repr
      ensures Valid() && fresh(repr - old(repr))
      ensures tx == WakeUp(Transport.Enqueue(old(tx), skb))
    {
      var n := new Node(skb);
      repr := repr + {n};
      EnqueuePkt(n);
      WakeUpTx();
    }

    /** How far h5_remove_acked_pkt walks back from the next sequence number. */
    method CountAcked(outstanding: nat, ack: nat) returns (count: nat)
      requires msgqTxseq < 8 && ack < 8 && outstanding <= 7
      ensures var d := (msgqTxseq - ack) % 8;
        count == if d < outstanding then outstanding - d else 0
    {
      ghost var d := (msgqTxseq - ack) % 8;
      count := outstanding;
      var seqno: int := msgqTxseq;
      while count > 0
        invariant count <= outstanding && 0 <= seqno < 8
        invariant outstanding - count <= d
        invariant seqno == ack + d - (outstanding - count) || seqno == ack + d - (outstanding - count) - 8
      {
        if ack == seqno {
          break;
        }
        count := count - 1;
        seqno := (seqno - 1) % 8;
      }
    }

    /** h5_remove_acked_pkt. */
    method RemoveAckedPkt(ack: nat)
      requires Valid() && ack < 8
      modifies repr
      ensures Valid() && repr == old(repr)
      ensures tx == RemoveAcked(old(tx), ack)
    {
      var count := CountAcked(unack.queueLen, ack);
      PopUnackFront(count);
    }

    method StepBack()
      requires QueuesOk()
      modifies `msgqTxseq, `tx
      ensures QueuesOk() && tx == old(tx).(txseq := (old(tx).txseq - 1) % 8)
    {
      msgqTxseq := (msgqTxseq - 1) % 8;
      tx := TxAbs();
    }

    /** One round of the rewind loop: the last outstanding packet goes to the front of `rel`. */
    method RewindOne() returns (more: bool)
      requires Valid()
      modifies repr
      ensures Valid() && repr == old(repr)
      ensures more <==> old(tx).unack != []
      ensures tx == if more then RewoundOne(old(tx)) else old(tx)
    {
      var n := PopUnackTail();
      more := n != null;
      if more {
        StepBack();
        PushRelHead(n);
        RewoundOk(old(tx));
      }
    }

    /** The rewind in data_retransfer_thread. */
    method RewindTx()
      requires Valid()
      modifies repr
      ensures Valid() && repr == old(repr)
      ensures tx == Rewind(old(tx))
    {
      ghost var t := tx;
      var more := true;
      while more
        invariant Valid() && repr == old(repr)
        invariant Rewind(tx) == Rewind(t)
        invariant !more ==> tx.unack == []
        decreases more, |tx.unack|
      {
        RewindRound(tx);
        more := RewindOne();
      }
    }

    /** The rewind and the wake-up after it. */
    method Retransmit()
      requires Valid()
      modifies repr
      ensures Valid() && repr == old(repr)
      ensures tx == WakeUp(Rewind(old(tx)))
    {
      RewindTx();
      WakeUpTx();
    }

    /** A reliable packet was accepted: expect the next, and acknowledge at once. */
    method AcceptAndAck(seqno: nat)
      requires Valid() && seqno < 8
      modifies repr
      ensures Valid() && repr == old(repr)
      ensures tx == WakeUp(Accept(old(tx), seqno))
    {
      rxseqTxack := (seqno + 1) % 8;
      isTxackReq := true;
      tx := TxAbs();
      WakeUpTx();
    }

    /** An out-of-order packet was refused: acknowledge the expected number again. */
    method AckAgain()
      requires Valid()
      modifies repr
      ensures Valid() && repr == old(repr)
      ensures tx == WakeUp(old(tx).(ackReq := true))
    {
      isTxackReq := true;
      tx := TxAbs();
      WakeUpTx();
    }

    /** The settings of a config response. */
    method Configure(window: nat, oof: bool, dic: bool)
      requires Valid() && window < 8
      modifies this
      ensures Valid() && repr == old(repr)
      ensures tx == old(tx).(window := window, oof := oof, useCrc := old(tx).useCrc || dic)
    {
      slidingWindowSize := window;
      oofFlowControl := oof;
      if dic {
        useCrc := true;
      }
      tx := TxAbs();
    }
  }
}
