/** The receiving half of the H5 control block of hci_h5.c as an object: the frame being decoded,
    its buffer and its running check. Every method is proved to do to the abstract receiver what
    the functions of H5Model say. */
module H5Decoder {
  import opened Bytes
  import opened Slip
  import opened Frames
  import opened RtkBuffers
  import opened H5Model
  import H5Sender
  import Crc

  /** message_crc is the check of the header and payload received so far. */
  ghost predicate CrcTracks(rx: Rx, crc: Crc.word)
    requires RxOk(rx)
  {
    match rx.state
    case W4Hdr => crc == Running(rx.buf)
    case W4Data => crc == Running(rx.buf)
    case W4Crc => crc == Crc.Message(Crc.INIT, rx.buf[..4 + HdrLen(rx.buf[..4])])
    case _ => true
  }

  lemma StoreKeepsCheck(rx: Rx, b: byte)
    requires RxOk(rx) && rx.count > 0 && rx.state == W4Crc
    ensures var r := Store(rx, b);
      RxOk(r) && r.buf[..4 + HdrLen(r.buf[..4])] == rx.buf[..4 + HdrLen(rx.buf[..4])]
  {
    StoreOk(rx, b);
    assert (rx.buf + [b])[..4] == rx.buf[..4];
  }

  lemma StoreTracks(rx: Rx, crc: Crc.word, b: byte)
    requires RxOk(rx) && rx.count > 0 && CrcTracks(rx, crc)
    ensures var r := Store(rx, b);
      RxOk(r) && CrcTracks(r, if HdrCrc(r.buf[0]) && r.state != W4Crc then Crc.Update(crc, b) else crc)
  {
    StoreOk(rx, b);
    if rx.state == W4Crc {
      StoreKeepsCheck(rx, b);
    } else {
      RunningStep(rx.buf, b);
    }
  }

  lemma PayloadTracks(rx: Rx, crc: Crc.word)
    requires RxOk(rx) && rx.count == 0 && rx.state == W4Data && HdrCrc(rx.buf[0]) && CrcTracks(rx, crc)
    ensures var r := rx.(state := W4Crc, count := 2); RxOk(r) && CrcTracks(r, crc)
  {
    var n := 4 + HdrLen(rx.buf[..4]);
    assert rx.buf[..n] == rx.buf;
    assert Running(rx.buf) == Crc.Message(Crc.INIT, rx.buf);
  }

  lemma PayloadEnds(rx: Rx)
    requires RxOk(rx) && rx.count == 0 && rx.state == W4Crc
    ensures 4 + HdrLen(rx.buf[..4]) == |rx.buf| - 2
  {}

  /** When the check has arrived, everything before it is what it should cover. */
  lemma CheckCovers(rx: Rx, crc: Crc.word)
    requires RxOk(rx) && rx.count == 0 && rx.state == W4Crc && CrcTracks(rx, crc)
    ensures crc == Crc.Message(Crc.INIT, rx.buf[..|rx.buf| - 2])
  {
    PayloadEnds(rx);
  }

  lemma CheckMeans(d: seq<byte>, n: nat, crc: Crc.word, c: nat)
    requires n + 2 <= |d| && crc == Crc.Message(Crc.INIT, d[..n])
    requires c == d[n] as int * 256 + d[n + 1]
    ensures CheckOk(d, n) <==> Crc.BitRev16(crc) == c
  {
    Crc.BitRev16IsBitRev(crc);
  }

  lemma CheckDecided(rx: Rx, crc: Crc.word, c: nat)
    requires RxOk(rx) && rx.count == 0 && rx.state == W4Crc && CrcTracks(rx, crc)
    requires c == rx.buf[|rx.buf| - 2] as int * 256 + rx.buf[|rx.buf| - 1]
    ensures CheckOk(rx.buf, |rx.buf| - 2) <==> Crc.BitRev16(crc) == c
  {
    CheckCovers(rx, crc);
    CheckMeans(rx.buf, |rx.buf| - 2, crc, c);
  }

  /** A transition that consumes nothing: the frame in progress has all the bytes it waits for. */
  function Transition(rx: Rx, expected: nat): (s: Step)
    requires RxOk(rx) && rx.count == 0 && !Between(rx)
    ensures RxOk(s.rx) && EventOk(s.event)
  {
    match rx.state
    case W4Hdr => CheckHeader(rx, expected)
    case W4Data => PayloadDone(rx)
    case W4Crc => CheckCrc(rx)
  }

  /** The content of a buffer is a header and a payload. */
  ghost predicate Holds(skb: RtkBuffer, h: seq<byte>, data: seq<byte>)
    reads skb, skb.head
  {
    skb.Valid() && |h| == 4 <= |skb.Content()| && skb.Content()[..4] == h && skb.Content()[4..] == data
  }

  lemma Trimmed(buf: seq<byte>, trim: nat)
    requires 4 + trim <= |buf|
    ensures var rest := buf[..|buf| - trim];
      |rest| >= 4 && rest[..4] == buf[..4] && rest[4..] == buf[4..|buf| - trim]
  {}

  /** What a method reports is the event: a refusal, or the buffer of a completed packet. */
  ghost predicate Reports(refused: bool, skb: RtkBuffer?, e: Event)
    reads skb, if skb != null then {skb.head} else {}
  {
    match e
    case Nothing => !refused && skb == null
    case Refused => refused && skb == null
    case Completed(h, data) =>
      !refused && skb != null && Holds(skb, h, data)
  }

  class Decoder {
    var messageCrc: Crc.word
    var rxCount: nat
    var rxState: RxState
    var rxEscState: bool
    var rxSkb: RtkBuffer?

    /** The abstract receiver, and the objects that represent it. */
    ghost var rx: Rx
    ghost var repr: set<object>

    ghost predicate Owns()
      reads this, repr
    {
      && this in repr
      && (rxSkb != null ==>
            && rxSkb in repr && rxSkb.head in repr && rxSkb.Valid()
            && rxSkb.TailRoom() + |rxSkb.Content()| == RX_CAPACITY)
      && (rxSkb == null <==> rxState == W4Delimiter || rxState == W4Start)
      && rx == Rx(rxState, rxCount, rxEscState, if rxSkb == null then [] else rxSkb.Content())
    }

    ghost predicate Valid()
      reads this, repr
    {
      Owns() && RxOk(rx) && CrcTracks(rx, messageCrc)
    }

    /** hci_h5_int_init. */
    constructor ()
      ensures Valid() && fresh(repr) && rx == Rx(W4Delimiter, 0, false, [])
    {
      messageCrc, rxCount, rxState, rxEscState, rxSkb := 0, 0, W4Delimiter, false, null;
      rx, repr := Rx(W4Delimiter, 0, false, []), {this};
    }

    method PutByte(b: byte)
      requires Owns() && rxSkb != null && rx.count > 0 && |rx.buf| < RX_CAPACITY
      modifies repr
      ensures Owns() && repr == old(repr) && rx == Store(old(rx), b)
      ensures messageCrc == if HdrCrc(rx.buf[0]) && rx.state != W4Crc then Crc.Update(old(messageCrc), b)
                            else old(messageCrc)
    {
      rxSkb.Put(b);
      rx := Store(rx, b);
      var h0 := rxSkb.head[rxSkb.data];
      assert h0 == rx.buf[0];
      if HdrCrc(h0) && rxState != W4Crc {
        messageCrc := H5Sender.CrcUpdate(messageCrc, b);
      }
      rxEscState := false;
      rxCount := rxCount - 1;
    }

    /** The branches of h5_unslip_one_byte that store a byte. It always fits. */
    method StoreByte(b: byte)
      requires Valid() && rx.count > 0
      modifies repr
      ensures Valid() && repr == old(repr) && rx == Store(old(rx), b)
    {
      RxFits(rx);
      StoreTracks(rx, messageCrc, b);
      PutByte(b);
    }

    /** skb_free, and back to waiting. */
    method Drop(state: RxState)
      requires Valid() && (state == W4Delimiter || state == W4Start)
      modifies this
      ensures Valid() && repr == {this} && rx == Abandon(old(rx), state)
    {
      rxSkb, rxState, rxCount := null, state, 0;
      rx, repr := Abandon(rx, state), {this};
    }

    method UnslipEscaped(b: byte)
      requires Valid() && rx.count > 0 && rx.esc
      modifies repr
      ensures Valid() && repr <= old(repr) && rx == Unslip(old(rx), b)
    {
      match b {
        case 0xdc => StoreByte(DELIM);
        case 0xdd => StoreByte(ESC);
        case 0xde => StoreByte(XON);
        case 0xdf => StoreByte(XOFF);
        case _ => Drop(W4Delimiter);
      }
    }

    /** h5_unslip_one_byte. */
    method UnslipOneByte(b: byte)
      requires Valid() && rx.count > 0
      modifies repr
      ensures Valid() && repr <= old(repr) && rx == Unslip(old(rx), b)
    {
      if !rxEscState && b == ESC {
        rxEscState := true;
        rx := Unslip(rx, b);
      } else if !rxEscState {
        StoreByte(b);
      } else {
        UnslipEscaped(b);
      }
    }

    /** A first byte after the delimiter: a buffer for the largest frame. */
    method Begin()
      requires Valid() && rx.state == W4Start
      modifies this
      ensures Valid() && fresh(repr - old(repr)) && rx == Begun()
    {
      rxState, rxCount, rxEscState, messageCrc := W4Hdr, 4, false, Crc.INIT;
      rxSkb := new RtkBuffer(RX_CAPACITY, 0);
      rx, repr := Begun(), {this, rxSkb, rxSkb.head};
    }

    function HeaderBytes(): (h: seq<byte>)
      requires Valid() && |rx.buf| >= 4
      reads this, repr
      ensures h == rx.buf[..4]
    {
      rxSkb.head[rxSkb.data..rxSkb.data + 4]
    }

    method ExpectPayload(n: nat)
      requires Valid() && rx.state == W4Hdr && rx.count == 0
      requires ChecksumOk(rx.buf) && n == HdrLen(rx.buf)
      modifies this
      ensures Valid() && repr == old(repr) && rx == old(rx).(state := W4Data, count := n)
    {
      assert rx.buf[..4] == rx.buf;
      rxState, rxCount := W4Data, n;
      rx := rx.(state := W4Data, count := n);
    }

    method ExpectCrc()
      requires Valid() && rx.state == W4Data && rx.count == 0 && HdrCrc(rx.buf[0])
      modifies this
      ensures Valid() && repr == old(repr) && rx == old(rx).(state := W4Crc, count := 2)
    {
      PayloadTracks(rx, messageCrc);
      rxState, rxCount := W4Crc, 2;
      rx := rx.(state := W4Crc, count := 2);
    }

    /** h5_get_crc: the two bytes at the end of the buffer. */
    function GetCrc(): (c: nat)
      requires Valid() && |rx.buf| >= 2
      reads this, repr
      ensures c == rx.buf[|rx.buf| - 2] as int * 256 + rx.buf[|rx.buf| - 1]
    {
      var e := rxSkb.end;
      rxSkb.head[e - 2] as int * 256 + rxSkb.head[e - 1]
    }

    method CompareCrc() returns (ok: bool)
      requires Valid() && rx.state == W4Crc && rx.count == 0
      ensures ok <==> CheckOk(rx.buf, |rx.buf| - 2)
    {
      var c := GetCrc();
      CheckDecided(rx, messageCrc, c);
      ok := Crc.BitRev16(messageCrc) == c;
    }

    /** A whole frame is in the buffer: it leaves the receiver, without the last `trim` bytes. */
    method Detach(trim: nat) returns (skb: RtkBuffer)
      requires Valid() && 4 + trim <= |rx.buf|
      modifies repr
      ensures Valid() && repr == {this} && rx == Abandon(old(rx), W4Delimiter)
      ensures skb in old(repr) && skb.head in old(repr)
      ensures var buf := old(rx).buf; Holds(skb, buf[..4], buf[4..|buf| - trim])
    {
      Trimmed(rx.buf, trim);
      skb := rxSkb;
      Drop(W4Delimiter);
      var _ := skb.RemoveTail(trim);
    }

    // ----- the transitions of h5_recv that consume nothing

    method AdvanceHeader(expected: nat) returns (refused: bool)
      requires Valid() && rx.state == W4Hdr && rx.count == 0
      modifies this
      ensures Valid() && repr <= old(repr)
      ensures var s := CheckHeader(old(rx), expected);
        rx == s.rx && s.event == if refused then Refused else Nothing
    {
      var h := HeaderBytes();
      assert h == rx.buf;
      refused := false;
      if !ChecksumOk(h) {
        Drop(W4Delimiter);
      } else if HdrReliable(h) && HdrSeq(h) != expected {
        refused := true;
        Drop(W4Delimiter);
      } else {
        ExpectPayload(HdrLen(h));
      }
    }

    method AdvancePayload() returns (skb: RtkBuffer?)
      requires Valid() && rx.state == W4Data && rx.count == 0
      modifies repr
      ensures Valid() && repr <= old(repr)
      ensures var s := PayloadDone(old(rx)); rx == s.rx && Reports(false, skb, s.event)
      ensures skb != null ==> skb in old(repr) - repr && skb.head in old(repr) - repr
    {
      skb := null;
      if HdrCrc(rxSkb.head[rxSkb.data]) {
        ExpectCrc();
      } else {
        skb := Detach(0);
      }
    }

    /** A frame whose check has been compared. */
    method FinishCrc(ok: bool) returns (skb: RtkBuffer?)
      requires Valid() && rx.state == W4Crc && rx.count == 0
      modifies repr
      ensures Valid() && repr <= old(repr) && rx == Abandon(old(rx), W4Delimiter)
      ensures var buf := old(rx).buf;
        Reports(false, skb, if ok then Event.Completed(buf[..4], buf[4..|buf| - 2]) else Nothing)
      ensures skb != null ==> skb in old(repr) - repr && skb.head in old(repr) - repr
    {
      skb := null;
      if ok {
        skb := Detach(2);
      } else {
        Drop(W4Delimiter);
      }
    }

    method AdvanceCrc() returns (skb: RtkBuffer?)
      requires Valid() && rx.state == W4Crc && rx.count == 0
      modifies repr
      ensures Valid() && repr <= old(repr)
      ensures var s := CheckCrc(old(rx)); rx == s.rx && Reports(false, skb, s.event)
      ensures skb != null ==> skb in old(repr) - repr && skb.head in old(repr) - repr
    {
      var ok := CompareCrc();
      skb := FinishCrc(ok);
    }

    method Advance(expected: nat) returns (refused: bool, skb: RtkBuffer?)
      requires Valid() && rx.count == 0 && !Between(rx)
      modifies repr
      ensures Valid() && repr <= old(repr)
      ensures var s := Transition(old(rx), expected); rx == s.rx && Reports(refused, skb, s.event)
      ensures skb != null ==> skb in old(repr) - repr && skb.head in old(repr) - repr
    {
      refused, skb := false, null;
      match rxState {
        case W4Hdr => refused := AdvanceHeader(expected);
        case W4Data => skb := AdvancePayload();
        case W4Crc => skb := AdvanceCrc();
      }
    }
  }
}
