/** The packet header and the layout of a frame (Core Specification Vol 4 Part D sections 4
    and 5), with an independent whole-frame parser that says which byte strings are frames. */
module Frames {
  import opened Bytes
  import opened Slip
  import Crc

  const MAX_PAYLOAD: nat := 0xfff

  const ACK_PKT: byte := 0x00
  const COMMAND_PKT: byte := 0x01
  const ACL_PKT: byte := 0x02
  const SCO_PKT: byte := 0x03
  const EVENT_PKT: byte := 0x04
  const VENDOR_PKT: byte := 0x0e
  const LINK_CTL_PKT: byte := 0x0f

  predicate IsReliable(ptype: byte) {
    ptype == ACL_PKT || ptype == COMMAND_PKT || ptype == EVENT_PKT
  }

  predicate IsUnreliable(ptype: byte) {
    ptype == ACK_PKT || ptype == VENDOR_PKT || ptype == LINK_CTL_PKT || ptype == SCO_PKT
  }

  datatype Frame = Frame(rel: bool, seqno: nat, ack: nat, crc: bool, ptype: byte, data: seq<byte>)

  predicate Fits(f: Frame) {
    && f.seqno < 8 && f.ack < 8 && f.ptype < 16 && |f.data| <= MAX_PAYLOAD
    && (!f.rel ==> f.seqno == 0)
  }

  /** What an endpoint sends: a frame is reliable if and only if packets of its type are. */
  predicate Sendable(f: Frame) {
    Fits(f) && f.rel == IsReliable(f.ptype)
  }

  // ----- the header

  function Header(f: Frame): (h: seq<byte>)
    requires Fits(f)
    ensures |h| == 4
  {
    var h0 := f.ack * 8 + (if f.rel then 0x80 + f.seqno else 0) + (if f.crc then 0x40 else 0);
    var h1 := (|f.data| * 16) % 256 + f.ptype;
    var h2 := |f.data| / 16;
    [h0, h1, h2, 255 - (h0 + h1 + h2) % 256]
  }

  function HdrSeq(h: seq<byte>): nat requires |h| >= 4 { h[0] % 8 }
  function HdrAck(h: seq<byte>): nat requires |h| >= 4 { h[0] / 8 % 8 }
  predicate HdrCrc(h0: byte) { h0 / 64 % 2 == 1 }
  predicate HdrReliable(h: seq<byte>) requires |h| >= 4 { h[0] / 128 % 2 == 1 }
  function HdrType(h: seq<byte>): byte requires |h| >= 4 { h[1] % 16 }
  function HdrLen(h: seq<byte>): (n: nat) requires |h| >= 4 ensures n <= MAX_PAYLOAD { h[1] / 16 + h[2] as int * 16 }

  predicate ChecksumOk(h: seq<byte>)
    requires |h| >= 4
  {
    255 - (h[0] as int + h[1] as int + h[2] as int) % 256 == h[3]
  }

  lemma LengthFields(n: nat, ptype: nat)
    requires n <= MAX_PAYLOAD && ptype < 16
    ensures var h1 := (n * 16) % 256 + ptype;
      h1 / 16 == n % 16 && h1 % 16 == ptype && h1 / 16 + n / 16 * 16 == n
  {
    assert (n * 16) % 256 == n % 16 * 16;
  }

  lemma NumberFields(seqno: nat, ack: nat, crc: nat, rel: nat)
    requires seqno < 8 && ack < 8 && crc < 2 && rel < 2
    ensures var h0 := seqno + 8 * (ack + 8 * (crc + 2 * rel));
      h0 % 8 == seqno && h0 / 8 % 8 == ack && h0 / 64 % 2 == crc && h0 / 128 % 2 == rel
  {
    var a := ack + 8 * (crc + 2 * rel);
    var h0 := seqno + 8 * a;
    assert h0 / 8 == a;
    assert h0 / 64 == a / 8 == crc + 2 * rel;
    assert h0 / 128 == a / 16 == rel;
  }

  /** Every header field is read back as it was packed. */
  lemma HeaderFields(f: Frame)
    requires Fits(f)
    ensures var h := Header(f);
      && HdrSeq(h) == f.seqno && HdrAck(h) == f.ack && HdrType(h) == f.ptype
      && HdrCrc(h[0]) == f.crc && HdrReliable(h) == f.rel && HdrLen(h) == |f.data|
      && ChecksumOk(h)
  {
    LengthFields(|f.data|, f.ptype);
    NumberFields(f.seqno, f.ack, if f.crc then 1 else 0, if f.rel then 1 else 0);
  }

  // ----- the frame

  function CrcBytes(msg: seq<byte>): (s: seq<byte>)
    ensures |s| == 2
  {
    var c := Crc.Check(msg);
    [c / 256, c % 256]
  }

  /** The frame before stuffing. */
  function Plain(f: Frame): seq<byte>
    requires Fits(f)
  {
    var msg := Header(f) + f.data;
    msg + (if f.crc then CrcBytes(msg) else [])
  }

  /** What h5_prepare_pkt writes. */
  function Encode(oof: bool, f: Frame): seq<byte>
    requires Fits(f)
  {
    [DELIM] + SlipAll(oof, Plain(f)) + [DELIM]
  }

  /** The encoded frame has exactly two delimiters, no flow-control byte when those are escaped,
      and fits the buffer of (len + 6) * 2 + 2 bytes that is allocated for it. */
  lemma EncodeShape(oof: bool, f: Frame)
    requires Fits(f)
    ensures var e := Encode(oof, f);
      && |e| <= (|f.data| + 6) * 2 + 2
      && (forall i :: 0 <= i < |e| ==> (e[i] == DELIM <==> i == 0 || i == |e| - 1))
      && (oof ==> XON !in e && XOFF !in e)
  {
    var s := SlipAll(oof, Plain(f));
    SlipShape(oof, Plain(f));
    forall i | 0 < i <= |s|
      ensures Encode(oof, f)[i] != DELIM
    {
      assert Encode(oof, f)[i] == s[i - 1];
    }
  }

  // ----- an independent parser of unstuffed frames

  datatype Parsed = Malformed | Parsed(hdr: seq<byte>, data: seq<byte>)

  /** The two bytes after position `n` are the bit-reversed check of everything before. */
  predicate CheckOk(d: seq<byte>, n: nat)
    requires n + 2 <= |d|
  {
    d[n] as int * 256 + d[n + 1] == Crc.Check(d[..n])
  }

  /** Checksum, length and check, on the whole string at once; bytes after the frame are ignored,
      as they are on the wire until the next delimiter. */
  function Parse(d: seq<byte>): Parsed {
    if |d| < 4 then Malformed else ParseBody(d[..4], d)
  }

  function ParseBody(h: seq<byte>, d: seq<byte>): Parsed
    requires |h| == 4 <= |d|
  {
    if !ChecksumOk(h) then Malformed
    else
      var n := 4 + HdrLen(h);
      if HdrCrc(h[0]) then
        if n + 2 <= |d| && CheckOk(d, n) then Parsed(h, d[4..n]) else Malformed
      else
        if n <= |d| then Parsed(h, d[4..n]) else Malformed
  }

  /** The check a receiver keeps up as bytes arrive, if the first of them asks for one. */
  function Running(buf: seq<byte>): Crc.word {
    if buf != [] && HdrCrc(buf[0]) then Crc.Message(Crc.INIT, buf) else Crc.INIT
  }

  lemma RunningStep(buf: seq<byte>, b: byte)
    ensures Running(buf + [b])
         == if HdrCrc((buf + [b])[0]) then Crc.Update(Running(buf), b) else Running(buf)
  {
    Crc.MessageAppend(Crc.INIT, buf, b);
    assert Crc.Message(Crc.INIT, []) == Crc.INIT;
    if buf != [] {
      assert (buf + [b])[0] == buf[0];
    }
  }

  lemma CrcBytesCheck(msg: seq<byte>)
    ensures CheckOk(msg + CrcBytes(msg), |msg|)
  {
    assert (msg + CrcBytes(msg))[..|msg|] == msg;
  }

  lemma ParsePlain(f: Frame)
    requires Fits(f)
    ensures Parse(Plain(f)) == Parsed(Header(f), f.data)
  {
    HeaderFields(f);
    var d := Plain(f);
    var n := 4 + |f.data|;
    assert d[..4] == Header(f);
    assert d[4..n] == f.data;
    CrcBytesCheck(Header(f) + f.data);
  }

  lemma ChecksumCatches(h: seq<byte>, i: nat, b: byte)
    requires |h| >= 4 && ChecksumOk(h) && i < 4 && h[i] != b
    ensures !ChecksumOk(h[i := b])
  {}

  /** The check fails after any one-byte change, to the message or to the check itself. */
  lemma CheckCatches(d: seq<byte>, n: nat, i: nat, b: byte)
    requires n + 2 <= |d| && CheckOk(d, n) && i < n + 2 && d[i] != b
    ensures !CheckOk(d[i := b], n)
  {
    var d' := d[i := b];
    if i < n {
      assert d'[..n] == d[..n][i := b];
      Crc.OneByteChangesSentCheck(d[..n], i, b);
    } else {
      assert d'[..n] == d[..n];
    }
  }

  /** Any one-byte change to the header, payload or check of a frame that carries a check makes it
      malformed. */
  lemma OneByteErrorDetected(d: seq<byte>, i: nat, b: byte)
    requires Parse(d).Parsed? && HdrCrc(d[0])
    requires i < 4 + HdrLen(d[..4]) + 2 && d[i] != b
    ensures Parse(d[i := b]) == Malformed
  {
    var h, d' := d[..4], d[i := b];
    if i < 4 {
      ChecksumCatches(h, i, b);
      assert d'[..4] == h[i := b];
    } else {
      CheckCatches(d, 4 + HdrLen(h), i, b);
      assert d'[..4] == h;
    }
  }

  // ----- on the wire, in numbers

  /** Commands, ACL data and events go through the reliable service; acknowledgements, SCO data, vendor
      packets and link control do not. */
  lemma TypesByNumber(ptype: byte)
    ensures IsReliable(ptype) <==> ptype == 1 || ptype == 2 || ptype == 4
    ensures IsUnreliable(ptype) <==> ptype == 0 || ptype == 3 || ptype == 0x0e || ptype == 0x0f
  {}

  /** Where each field lies: the numbers and flags in the first byte, type and length in the next two,
      and the complement of their sum. */
  lemma HeaderLayout(f: Frame)
    requires Fits(f)
    ensures var h := Header(f);
      && h[0] as int == f.seqno + 8 * f.ack + (if f.crc then 64 else 0) + (if f.rel then 128 else 0)
      && h[1] as int == f.ptype as int + 16 * (|f.data| % 16) && h[2] as int == |f.data| / 16
      && (h[0] as int + h[1] as int + h[2] as int + h[3] as int) % 256 == 255
  {
    LengthFields(|f.data|, f.ptype);
  }

  /** The header of an ACL packet of four bytes, with a number, an acknowledgement and a check. */
  lemma KnownHeader(data: seq<byte>)
    requires |data| == 4
    ensures Header(Frame(true, 5, 3, true, 0x02, data)) == [0xdd, 0x42, 0x00, 0xe0]
  {}

  /** The whole frame of a sync request. */
  lemma KnownFrame(f: Frame)
    requires f == Frame(false, 0, 0, false, 0x0f, [0x01, 0x7e])
    ensures Encode(false, f) == [0xc0, 0x00, 0x2f, 0x00, 0xd0, 0x01, 0x7e, 0xc0]
  {
    KnownSlip([0x00, 0x2f, 0x00, 0xd0], [0x01, 0x7e]);
    assert Header(f) == [0x00, 0x2f, 0x00, 0xd0];
  }

  lemma KnownSlip(h: seq<byte>, data: seq<byte>)
    requires h == [0x00, 0x2f, 0x00, 0xd0] && data == [0x01, 0x7e]
    ensures SlipAll(false, h + data + []) == [0x00, 0x2f, 0x00, 0xd0, 0x01, 0x7e]
  {
    assert h + data + [] == h + data;
    SlipConcat(false, h, data);
    SlipFour(false, h[0], h[1], h[2], h[3]);
    SlipTwo(false, data[0], data[1]);
    assert [h[0], h[1], h[2], h[3]] == h && [data[0], data[1]] == data;
  }
}
