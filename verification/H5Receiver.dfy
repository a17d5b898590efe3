/** What the byte-driven receiver does with whole frames, in any chunks and after any garbage. */
module H5Receiver {
  import opened Bytes
  import opened Slip
  import opened Frames
  import Transport
  import opened H5Model

  // ----- chunks do not matter

  lemma {:induction false} RecvConcat(ep: Ep, a: seq<byte>, b: seq<byte>)
    requires EpOk(ep)
    ensures Recv(ep, a + b) == Recv(Recv(ep, a), b)
    decreases |b|
  {
    if b == [] {
      assert a + b == a;
    } else {
      var n := |b| - 1;
      assert (a + b)[..|a + b| - 1] == a + b[..n];
      RecvConcat(ep, a, b[..n]);
    }
  }

  /** One call of h5_recv per read from the UART. */
  function RecvReads(ep: Ep, chunks: seq<seq<byte>>): (r: Ep)
    requires EpOk(ep)
    ensures EpOk(r)
    decreases |chunks|
  {
    if chunks == [] then ep else RecvReads(Recv(ep, chunks[0]), chunks[1..])
  }

  /** How the stream is split into reads makes no difference. */
  lemma {:induction false} ReadsDoNotMatter(ep: Ep, chunks: seq<seq<byte>>)
    requires EpOk(ep)
    ensures RecvReads(ep, chunks) == Recv(ep, Flatten(chunks))
    decreases |chunks|
  {
    if chunks != [] {
      ReadsDoNotMatter(Recv(ep, chunks[0]), chunks[1..]);
      RecvConcat(ep, chunks[0], Flatten(chunks[1..]));
    }
  }

  // ----- the receiver by itself, while the expected number stays the same

  /** The receiver after `s`, and the first event on the way. */
  function Feed(rx: Rx, expected: nat, s: seq<byte>): (r: Step)
    requires RxOk(rx)
    ensures RxOk(r.rx) && EventOk(r.event)
    decreases |s|
  {
    if s == [] then Step(rx, Nothing)
    else
      var p := Feed(rx, expected, s[..|s| - 1]);
      var q := RxByte(p.rx, expected, s[|s| - 1]);
      Step(q.rx, First(p.event, q.event))
  }

  function First(a: Event, b: Event): Event {
    if a == Nothing then b else a
  }

  lemma {:induction false} FeedConcat(rx: Rx, expected: nat, a: seq<byte>, b: seq<byte>)
    requires RxOk(rx)
    ensures var p := Feed(rx, expected, a);
      var q := Feed(p.rx, expected, b);
      Feed(rx, expected, a + b) == Step(q.rx, First(p.event, q.event))
    decreases |b|
  {
    if b == [] {
      assert a + b == a;
    } else {
      var n := |b| - 1;
      assert (a + b)[..|a + b| - 1] == a + b[..n];
      FeedConcat(rx, expected, a, b[..n]);
    }
  }

  lemma FeedOne(rx: Rx, expected: nat, b: byte)
    requires RxOk(rx)
    ensures Feed(rx, expected, [b]) == RxByte(rx, expected, b)
  {
    assert [b][..0] == [];
    assert Feed(rx, expected, []) == Step(rx, Nothing);
  }

  lemma FeedFirst(rx: Rx, expected: nat, s: seq<byte>)
    requires RxOk(rx) && s != []
    ensures var p := RxByte(rx, expected, s[0]);
      var q := Feed(p.rx, expected, s[1..]);
      Feed(rx, expected, s) == Step(q.rx, First(p.event, q.event))
  {
    assert s == [s[0]] + s[1..];
    FeedConcat(rx, expected, [s[0]], s[1..]);
    FeedOne(rx, expected, s[0]);
  }

  lemma FeedLast(rx: Rx, expected: nat, s: seq<byte>, b: byte)
    requires RxOk(rx)
    ensures var p := Feed(rx, expected, s);
      var q := RxByte(p.rx, expected, b);
      Feed(rx, expected, s + [b]) == Step(q.rx, First(p.event, q.event))
  {
    assert (s + [b])[..|s|] == s;
  }

  // ----- pieces of a frame

  lemma FeedInside(rx: Rx, expected: nat, b: byte)
    requires RxOk(rx) && rx.count > 0 && b != DELIM
    ensures RxByte(rx, expected, b) == Step(Unslip(rx, b), Nothing)
  {}

  /** The decoder undoes each escape. */
  lemma UnslipUndoes(rx: Rx, oof: bool, b: byte)
    requires rx.count > 0 && !rx.esc
    ensures var s := SlipByte(oof, b);
      && DELIM !in s
      && (|s| == 1 ==> Unslip(rx, s[0]) == Store(rx, b))
      && (|s| == 2 ==> Unslip(rx, s[0]) == rx.(esc := true)
                       && Unslip(rx.(esc := true), s[1]) == Store(rx, b))
  {}

  /** One stuffed byte stores one byte. */
  lemma FeedSlipByte(rx: Rx, expected: nat, oof: bool, b: byte)
    requires RxOk(rx) && rx.count > 0 && !rx.esc
    ensures Feed(rx, expected, SlipByte(oof, b)) == Step(Store(rx, b), Nothing)
  {
    var s := SlipByte(oof, b);
    UnslipUndoes(rx, oof, b);
    assert s[0] in s;
    FeedInside(rx, expected, s[0]);
    if |s| == 1 {
      FeedOne(rx, expected, s[0]);
      assert s == [s[0]];
    } else {
      assert s[1] in s;
      var e := Unslip(rx, s[0]);
      FeedInside(e, expected, s[1]);
      FeedOne(e, expected, s[1]);
      FeedFirst(rx, expected, s);
      assert s[1..] == [s[1]];
    }
  }

  lemma AppendFirst(a: seq<byte>, s: seq<byte>)
    requires s != []
    ensures a + [s[0]] + s[1..] == a + s
  {}

  lemma FillFirst(rx: Rx, expected: nat, oof: bool, b: byte, t: seq<byte>)
    requires RxOk(rx) && rx.count > 0 && !rx.esc
    ensures RxOk(Store(rx, b))
    ensures Feed(rx, expected, SlipByte(oof, b) + t) == Feed(Store(rx, b), expected, t)
  {
    StoreOk(rx, b);
    FeedSlipByte(rx, expected, oof, b);
    FeedConcat(rx, expected, SlipByte(oof, b), t);
  }

  /** A stuffed string that fits in what is expected is stored byte for byte. */
  lemma {:induction false} Fill(rx: Rx, expected: nat, oof: bool, s: seq<byte>)
    requires RxOk(rx) && |s| <= rx.count && !rx.esc
    ensures Feed(rx, expected, SlipAll(oof, s))
         == Step(Rx(rx.state, rx.count - |s|, false, rx.buf + s), Nothing)
    decreases |s|
  {
    if s == [] {
      assert rx.buf + s == rx.buf;
    } else {
      var b, t := s[0], s[1..];
      SlipFirst(oof, s);
      FillFirst(rx, expected, oof, b, SlipAll(oof, t));
      AppendFirst(rx.buf, s);
      Fill(Store(rx, b), expected, oof, t);
    }
  }

  /** Outside a packet everything but a delimiter is ignored. */
  lemma {:induction false} Skip(rx: Rx, expected: nat, s: seq<byte>)
    requires RxOk(rx) && rx.state == W4Delimiter && DELIM !in s
    ensures Feed(rx, expected, s) == Step(rx, Nothing)
    decreases |s|
  {
    if s != [] {
      var n := |s| - 1;
      Skip(rx, expected, s[..n]);
      assert s[n] in s;
    }
  }

  predicate AtStart(rx: Rx) {
    rx.state == W4Start && rx.count == 0 && rx.buf == []
  }

  /** Self-synchronisation: whatever the receiver was doing, one delimiter puts it at the start of
      a packet. */
  lemma DelimiterSynchronises(rx: Rx, expected: nat)
    requires RxOk(rx)
    ensures AtStart(RxByte(rx, expected, DELIM).rx)
  {}

  /** `rest` and then a delimiter, as the receiver sees them. */
  function Tail(oof: bool, rest: seq<byte>): seq<byte> {
    SlipAll(oof, rest) + [DELIM]
  }

  lemma SkipToEnd(rx: Rx, expected: nat, oof: bool, rest: seq<byte>)
    requires RxOk(rx) && rx.state == W4Delimiter
    ensures var r := Feed(rx, expected, Tail(oof, rest)); AtStart(r.rx) && r.event == Nothing
  {
    SlipShape(oof, rest);
    Skip(rx, expected, SlipAll(oof, rest));
    FeedLast(rx, expected, SlipAll(oof, rest), DELIM);
  }

  /** The delimiter comes before the packet is complete. */
  lemma TooShort(rx: Rx, expected: nat, oof: bool, rest: seq<byte>)
    requires RxOk(rx) && |rest| < rx.count && !rx.esc
    ensures var r := Feed(rx, expected, Tail(oof, rest)); AtStart(r.rx) && r.event == Nothing
  {
    Fill(rx, expected, oof, rest);
    FeedLast(rx, expected, SlipAll(oof, rest), DELIM);
  }

  lemma TailSplit(oof: bool, rest: seq<byte>, n: nat)
    requires n <= |rest|
    ensures Tail(oof, rest) == SlipAll(oof, rest[..n]) + Tail(oof, rest[n..])
  {
    assert rest == rest[..n] + rest[n..];
    SlipConcat(oof, rest[..n], rest[n..]);
  }

  /** Transitions that consume nothing can be taken as soon as another byte is known to follow. */
  lemma SettleFirst(rx: Rx, expected: nat, s: seq<byte>)
    requires RxOk(rx) && s != []
    ensures var t := Settle(rx, expected);
      var r := Feed(t.rx, expected, s);
      Feed(rx, expected, s) == Step(r.rx, First(t.event, r.event))
  {
    FeedFirst(rx, expected, s);
    FeedFirst(Settle(rx, expected).rx, expected, s);
  }

  /** The next `count` bytes are there: take them, then the transitions that follow. */
  lemma Filled(rx: Rx, expected: nat, oof: bool, rest: seq<byte>)
    requires RxOk(rx) && rx.count <= |rest| && !rx.esc
    ensures var n := rx.count;
      var full := Rx(rx.state, 0, false, rx.buf + rest[..n]);
      && RxOk(full)
      && var t := Settle(full, expected);
         var r := Feed(t.rx, expected, Tail(oof, rest[n..]));
         Feed(rx, expected, Tail(oof, rest)) == Step(r.rx, First(t.event, r.event))
  {
    var n := rx.count;
    Fill(rx, expected, oof, rest[..n]);
    var full := Feed(rx, expected, SlipAll(oof, rest[..n])).rx;
    TailSplit(oof, rest, n);
    FeedConcat(rx, expected, SlipAll(oof, rest[..n]), Tail(oof, rest[n..]));
    SettleFirst(full, expected, Tail(oof, rest[n..]));
  }

  // ----- the fate of a frame

  /** What a string `d` between two delimiters means. */
  function Verdict(expected: nat, d: seq<byte>): (e: Event)
    ensures EventOk(e)
  {
    if |d| < 4 || !ChecksumOk(d[..4]) then Nothing
    else if OutOfOrder(d[..4], expected) then Refused
    else IfParsed(d)
  }

  function IfParsed(d: seq<byte>): (e: Event)
    ensures EventOk(e)
  {
    match Parse(d)
    case Malformed => Nothing
    case Parsed(h, data) => Completed(h, data)
  }

  // Each stage starts with the receiver in one state, `rest` still to come, and then a delimiter.

  lemma CheckPrefix(d: seq<byte>, n: nat)
    requires n + 2 <= |d|
    ensures CheckOk(d[..n + 2], n) == CheckOk(d, n)
  {
    assert d[..n + 2][..n] == d[..n];
  }

  lemma Prefixes(d: seq<byte>, n: nat, m: nat)
    requires 4 <= n <= m <= |d|
    ensures d[..m][..4] == d[..4] && d[..m][4..n] == d[4..n] && d[..m][4..] == d[4..m]
  {}

  lemma CheckDecides(rx: Rx, d: seq<byte>)
    requires RxOk(rx) && rx.state == W4Crc && rx.count == 0
    requires |rx.buf| <= |d| && rx.buf == d[..|rx.buf|]
    ensures CheckCrc(rx).event == IfParsed(d)
  {
    var n := |rx.buf| - 2;
    Prefixes(d, n, n + 2);
    CheckPrefix(d, n);
  }

  lemma TruncatedCheck(buf: seq<byte>, rest: seq<byte>)
    requires |buf| >= 4 && HdrCrc(buf[0]) && |buf| == 4 + HdrLen(buf[..4]) && |rest| < 2
    ensures Parse(buf + rest) == Malformed
  {
    assert (buf + rest)[..4] == buf[..4];
  }

  lemma CheckStage(rx: Rx, expected: nat, oof: bool, rest: seq<byte>)
    requires RxOk(rx) && rx.state == W4Crc && rx.count == 2 && !rx.esc
    ensures var r := Feed(rx, expected, Tail(oof, rest));
      AtStart(r.rx) && r.event == IfParsed(rx.buf + rest)
  {
    if |rest| < 2 {
      TooShort(rx, expected, oof, rest);
      TruncatedCheck(rx.buf, rest);
    } else {
      Filled(rx, expected, oof, rest);
      var full := Rx(W4Crc, 0, false, rx.buf + rest[..2]);
      assert full.buf == (rx.buf + rest)[..|full.buf|];
      CheckDecides(full, rx.buf + rest);
      SkipToEnd(CheckCrc(full).rx, expected, oof, rest[2..]);
    }
  }

  lemma TruncatedData(h: seq<byte>, rest: seq<byte>)
    requires |h| == 4 && |rest| < HdrLen(h)
    ensures Parse(h + rest) == Malformed
  {
    assert (h + rest)[..4] == h;
  }

  lemma DataDecides(rx: Rx, d: seq<byte>)
    requires RxOk(rx) && rx.state == W4Data && rx.count == 0 && !HdrCrc(rx.buf[0])
    requires |rx.buf| <= |d| && rx.buf == d[..|rx.buf|]
    ensures PayloadDone(rx).event == IfParsed(d)
  {
    var n := |rx.buf|;
    Prefixes(d, n, n);
  }

  /** The payload has just been filled. */
  lemma DataDone(rx: Rx, expected: nat, oof: bool, rest: seq<byte>)
    requires RxOk(rx) && rx.state == W4Data && rx.count == 0 && !rx.esc
    ensures var t := PayloadDone(rx);
      var r := Feed(t.rx, expected, Tail(oof, rest));
      AtStart(r.rx) && First(t.event, r.event) == IfParsed(rx.buf + rest)
  {
    if HdrCrc(rx.buf[0]) {
      CheckStage(PayloadDone(rx).rx, expected, oof, rest);
    } else {
      var d := rx.buf + rest;
      assert rx.buf == d[..|rx.buf|];
      DataDecides(rx, d);
      SkipToEnd(PayloadDone(rx).rx, expected, oof, rest);
    }
  }

  lemma Rejoin(buf: seq<byte>, rest: seq<byte>, n: nat)
    requires n <= |rest|
    ensures buf + rest[..n] + rest[n..] == buf + rest
  {}

  lemma DataStage(rx: Rx, expected: nat, oof: bool, rest: seq<byte>)
    requires RxOk(rx) && rx.state == W4Data && |rx.buf| == 4 && rx.count > 0 && !rx.esc
    ensures var r := Feed(rx, expected, Tail(oof, rest));
      AtStart(r.rx) && r.event == IfParsed(rx.buf + rest)
  {
    if |rest| < rx.count {
      assert rx.buf[..4] == rx.buf;
      TooShort(rx, expected, oof, rest);
      TruncatedData(rx.buf, rest);
    } else {
      Filled(rx, expected, oof, rest);
      var n := rx.count;
      var full := Rx(W4Data, 0, false, rx.buf + rest[..n]);
      Rejoin(rx.buf, rest, n);
      DataDone(full, expected, oof, rest[n..]);
    }
  }

  /** The header has just been filled. */
  lemma HeaderDone(rx: Rx, expected: nat, oof: bool, rest: seq<byte>)
    requires RxOk(rx) && rx.state == W4Hdr && rx.count == 0 && !rx.esc
    ensures var t := Settle(rx, expected);
      var r := Feed(t.rx, expected, Tail(oof, rest));
      AtStart(r.rx) && First(t.event, r.event) == Verdict(expected, rx.buf + rest)
  {
    var d := rx.buf + rest;
    assert d[..4] == rx.buf;
    var s := CheckHeader(rx, expected);
    if s.rx.state == W4Delimiter {
      SkipToEnd(s.rx, expected, oof, rest);
    } else if s.rx.count == 0 {
      DataDone(s.rx, expected, oof, rest);
    } else {
      DataStage(s.rx, expected, oof, rest);
    }
  }

  lemma FrameStage(expected: nat, oof: bool, d: seq<byte>)
    ensures var r := Feed(Begun(), expected, Tail(oof, d));
      AtStart(r.rx) && r.event == Verdict(expected, d)
  {
    if |d| < 4 {
      TooShort(Begun(), expected, oof, d);
    } else {
      Filled(Begun(), expected, oof, d);
      assert [] + d[..4] == d[..4];
      assert d[..4] + d[4..] == d;
      HeaderDone(Rx(W4Hdr, 0, false, d[..4]), expected, oof, d[4..]);
    }
  }

  /** From the start of a packet, a stuffed string and the closing delimiter. */
  lemma FromStart(rx: Rx, expected: nat, oof: bool, d: seq<byte>)
    requires RxOk(rx) && rx.state == W4Start
    ensures var r := Feed(rx, expected, Tail(oof, d));
      AtStart(r.rx) && r.event == Verdict(expected, d)
  {
    var s := Tail(oof, d);
    if d == [] {
      FeedOne(rx, expected, DELIM);
      assert s == [DELIM];
    } else {
      SlipShape(oof, d);
      assert s[0] == SlipAll(oof, d)[0];
      FeedFirst(rx, expected, s);
      FeedFirst(Begun(), expected, s);
      FrameStage(expected, oof, d);
    }
  }

  // ----- the whole endpoint

  lemma RecvLast(ep: Ep, s: seq<byte>, b: byte)
    requires EpOk(ep)
    ensures Recv(ep, s + [b]) == RecvByte(Recv(ep, s), b)
  {
    assert (s + [b])[..|s|] == s;
  }

  lemma EventEndsPacket(rx: Rx, expected: nat, b: byte)
    requires RxOk(rx) && b != DELIM
    ensures RxByte(rx, expected, b).event != Nothing ==> RxByte(rx, expected, b).rx.state == W4Delimiter
  {}

  /** Up to the next delimiter there is at most one event, and the expected number is not looked
      at after it. */
  lemma {:induction false} RecvIsFeed(ep: Ep, s: seq<byte>)
    requires EpOk(ep) && DELIM !in s
    ensures var f := Feed(ep.rx, ep.core.tx.expected, s);
      && Recv(ep, s) == Ep(f.rx, Apply(ep.core, f.event))
      && (f.event != Nothing ==> f.rx.state == W4Delimiter)
    decreases |s|
  {
    if s != [] {
      var n := |s| - 1;
      assert s[n] in s;
      RecvIsFeed(ep, s[..n]);
      EventEndsPacket(Feed(ep.rx, ep.core.tx.expected, s[..n]).rx, ep.core.tx.expected, s[n]);
    }
  }

  lemma RecvTail(ep: Ep, oof: bool, d: seq<byte>)
    requires EpOk(ep)
    ensures var f := Feed(ep.rx, ep.core.tx.expected, Tail(oof, d));
      Recv(ep, Tail(oof, d)) == Ep(f.rx, Apply(ep.core, f.event))
  {
    var s := SlipAll(oof, d);
    SlipShape(oof, d);
    RecvIsFeed(ep, s);
    RecvLast(ep, s, DELIM);
    FeedLast(ep.rx, ep.core.tx.expected, s, DELIM);
  }

  /** The opening delimiter: it ends whatever was going on. */
  function Open(ep: Ep): (c: Core)
    requires EpOk(ep)
    ensures CoreOk(c)
  {
    RecvByte(ep, DELIM).core
  }

  /** Between packets it changes nothing. */
  lemma OpenBetweenPackets(ep: Ep)
    requires EpOk(ep) && Between(ep.rx)
    ensures Open(ep) == ep.core
  {}

  /** A delimited string on the wire. */
  function Delimited(oof: bool, d: seq<byte>): seq<byte> {
    [DELIM] + SlipAll(oof, d) + [DELIM]
  }

  /** The fate of every string: after the opening delimiter, a stuffed string `d` and the closing
      delimiter do to the endpoint exactly what the whole-string parser says, once, and the
      receiver is ready for the next packet. */
  lemma FrameFate(ep: Ep, oof: bool, d: seq<byte>)
    requires EpOk(ep)
    ensures var r := Recv(ep, Delimited(oof, d));
      && AtStart(r.rx)
      && r.core == Apply(Open(ep), Verdict(Open(ep).tx.expected, d))
  {
    var e := RecvByte(ep, DELIM);
    DelimiterSynchronises(ep.rx, ep.core.tx.expected);
    assert Delimited(oof, d) == [DELIM] + Tail(oof, d);
    RecvConcat(ep, [DELIM], Tail(oof, d));
    assert Recv(ep, [DELIM]) == e by {
      assert [] + [DELIM] == [DELIM];
      assert Recv(ep, []) == ep;
      RecvLast(ep, [], DELIM);
    }
    RecvTail(e, oof, d);
    FromStart(e.rx, e.core.tx.expected, oof, d);
  }

  // ----- the result of h5_recv

  lemma {:induction false} CompletesConcat(ep: Ep, a: seq<byte>, b: seq<byte>)
    requires EpOk(ep)
    ensures CompletesIn(ep, a + b) <==> CompletesIn(ep, a) || CompletesIn(Recv(ep, a), b)
    decreases |b|
  {
    if b == [] {
      assert a + b == a;
    } else {
      var n := |b| - 1;
      assert (a + b)[..|a + b| - 1] == a + b[..n];
      CompletesConcat(ep, a, b[..n]);
      RecvConcat(ep, a, b[..n]);
    }
  }

  lemma CompletesOne(ep: Ep, b: byte)
    requires EpOk(ep)
    ensures CompletesIn(ep, [b]) <==> Completing(ep, b)
    ensures Recv(ep, [b]) == RecvByte(ep, b)
  {
    assert [b][..0] == [];
    assert Recv(ep, []) == ep && !CompletesIn(ep, []);
  }

  lemma {:induction false} CompletesIsFeed(ep: Ep, s: seq<byte>)
    requires EpOk(ep) && DELIM !in s
    ensures CompletesIn(ep, s) <==> Feed(ep.rx, ep.core.tx.expected, s).event.Completed?
    decreases |s|
  {
    if s != [] {
      CompletesIsFeed(ep, s[..|s| - 1]);
      RecvIsFeed(ep, s[..|s| - 1]);
    }
  }

  lemma CompletesTail(ep: Ep, oof: bool, d: seq<byte>)
    requires EpOk(ep)
    ensures CompletesIn(ep, Tail(oof, d)) <==>
              Feed(ep.rx, ep.core.tx.expected, Tail(oof, d)).event.Completed?
  {
    var s := SlipAll(oof, d);
    SlipShape(oof, d);
    CompletesIsFeed(ep, s);
    RecvIsFeed(ep, s);
    CompletesConcat(ep, s, [DELIM]);
    CompletesOne(Recv(ep, s), DELIM);
    FeedLast(ep.rx, ep.core.tx.expected, s, DELIM);
  }

  /** For one delimited string the result of h5_recv is whether the whole-string parser takes it,
      or the opening delimiter ended a packet that was complete already. */
  lemma ResultIsVerdict(ep: Ep, oof: bool, d: seq<byte>)
    requires EpOk(ep)
    ensures CompletesIn(ep, Delimited(oof, d)) <==>
              Completing(ep, DELIM) || Verdict(Open(ep).tx.expected, d).Completed?
  {
    var e := RecvByte(ep, DELIM);
    DelimiterSynchronises(ep.rx, ep.core.tx.expected);
    assert Delimited(oof, d) == [DELIM] + Tail(oof, d);
    CompletesConcat(ep, [DELIM], Tail(oof, d));
    CompletesOne(ep, DELIM);
    CompletesTail(e, oof, d);
    FromStart(e.rx, e.core.tx.expected, oof, d);
  }

  lemma FrameVerdict(expected: nat, f: Frame)
    requires Fits(f)
    ensures Verdict(expected, Plain(f)) ==
      if f.rel && f.seqno != expected then Refused else Completed(Header(f), f.data)
  {
    ParsePlain(f);
    HeaderFields(f);
    assert Plain(f)[..4] == Header(f);
  }

  /** Round trip. From any state of the receiver - between packets or in the middle of anything -
      a frame written by the encoder, in whatever reads it arrives, is completed exactly once with
      its own header and payload, provided its number is the expected one. */
  lemma FrameRoundTrip(ep: Ep, oof: bool, f: Frame, chunks: seq<seq<byte>>)
    requires EpOk(ep) && Fits(f) && Flatten(chunks) == Encode(oof, f)
    requires f.rel ==> f.seqno == Open(ep).tx.expected
    ensures var r := RecvReads(ep, chunks);
      AtStart(r.rx) && r.core == Complete(Open(ep), Header(f), f.data)
  {
    ReadsDoNotMatter(ep, chunks);
    FrameFate(ep, oof, Plain(f));
    FrameVerdict(Open(ep).tx.expected, f);
  }

  /** A reliable frame with any other number is refused, from any state of the receiver: nothing is
      delivered for it and its acknowledgement is not looked at, but the expected number is acknowledged
      again, in at least one frame. */
  lemma OutOfOrderRefused(ep: Ep, oof: bool, f: Frame)
    requires EpOk(ep) && Fits(f) && f.rel && f.seqno != Open(ep).tx.expected
    ensures AtStart(Recv(ep, Encode(oof, f)).rx)
    ensures var c, d := Open(ep), Recv(ep, Encode(oof, f)).core;
      && d == Refuse(c) == c.(tx := d.tx) && d.tx.expected == c.tx.expected
      && c.tx.log < d.tx.log && forall k :: |c.tx.log| <= k < |d.tx.log| ==> d.tx.log[k].frame.ack == c.tx.expected
  {
    FrameFate(ep, oof, Plain(f));
    FrameVerdict(Open(ep).tx.expected, f);
    RefusedAgain(Open(ep));
  }

  lemma RefusedAgain(c: Core)
    requires CoreOk(c)
    ensures var d := Refuse(c);
      && d == c.(tx := d.tx) && d.tx.expected == c.tx.expected
      && c.tx.log < d.tx.log && forall k :: |c.tx.log| <= k < |d.tx.log| ==> d.tx.log[k].frame.ack == c.tx.expected
  {
    Transport.WakeUpAnswers(c.tx.(ackReq := true));
  }

  /** A frame that carries a check and has one byte changed before stuffing is never completed:
      the endpoint stays as it was, or does what it does for an out-of-order packet. */
  lemma CorruptFrameNotCompleted(ep: Ep, oof: bool, f: Frame, i: nat, b: byte)
    requires EpOk(ep) && Fits(f) && f.crc && i < |Plain(f)| && Plain(f)[i] != b
    ensures var r := Recv(ep, Delimited(oof, Plain(f)[i := b]));
      AtStart(r.rx) && (r.core == Open(ep) || r.core == Refuse(Open(ep)))
  {
    FrameFate(ep, oof, Plain(f)[i := b]);
    ParsePlain(f);
    HeaderFields(f);
    assert Plain(f)[..4] == Header(f);
    OneByteErrorDetected(Plain(f), i, b);
  }

  /** Self-synchronisation: an intact frame after any garbage whatever is completed just as on an
      idle line, in the state the garbage left the rest of the endpoint in. */
  lemma GarbageIsForgotten(ep: Ep, garbage: seq<byte>, oof: bool, f: Frame)
    requires EpOk(ep) && Fits(f)
    requires f.rel ==> f.seqno == Open(Recv(ep, garbage)).tx.expected
    ensures var r := Recv(ep, garbage + Encode(oof, f));
      AtStart(r.rx) && r.core == Complete(Open(Recv(ep, garbage)), Header(f), f.data)
  {
    RecvConcat(ep, garbage, Encode(oof, f));
    FrameFate(Recv(ep, garbage), oof, Plain(f));
    FrameVerdict(Open(Recv(ep, garbage)).tx.expected, f);
  }
}
