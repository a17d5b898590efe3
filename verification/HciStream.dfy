/** What reassembling an HCI byte stream means, one byte at a time: which packets it completes and
    which single bytes it rewrites (Core Specification Vol 4 Part E sections 5.4, 7.7.14 and
    7.7.15). */
module HciStream {
  import opened Bytes

  const ACL: byte := 2
  const SCO: byte := 3
  const EVENT: byte := 4
  const COMMAND_COMPLETE: byte := 0x0e
  const COMMAND_STATUS: byte := 0x0f

  datatype Phase = Idle | Header | Content

  datatype Packet = Packet(ptype: byte, bytes: seq<byte>)

  /** `held` is the packet so far, `need` what its current part still lacks, `done` the packets
      completed. */
  datatype Parser = Parser(phase: Phase, need: nat, ptype: byte, held: seq<byte>, done: seq<Packet>)

  predicate ValidType(b: byte) {
    ACL <= b <= EVENT
  }

  function Preamble(ptype: byte): (n: nat)
    requires ValidType(ptype)
    ensures 2 <= n <= 4
  {
    if ptype == ACL then 4 else if ptype == SCO then 3 else 2
  }

  function BodyLength(ptype: byte, held: seq<byte>): nat
    requires ValidType(ptype) && |held| >= Preamble(ptype)
  {
    if ptype == ACL then held[2] as int + 256 * held[3] as int
    else if ptype == EVENT then held[1] as int
    else held[2] as int
  }

  predicate Ok(p: Parser) {
    match p.phase
    case Idle => p.need == 0 && p.ptype == 0 && p.held == []
    case Header => ValidType(p.ptype) && p.need > 0 && |p.held| + p.need == Preamble(p.ptype)
    case Content => ValidType(p.ptype) && |p.held| >= Preamble(p.ptype)
  }

  function Waiting(done: seq<Packet>): Parser {
    Parser(Idle, 0, 0, [], done)
  }

  /** Num_HCI_Command_Packets is next: byte 2 of a Command Complete, byte 3 of a Command Status. */
  predicate CreditNext(p: Parser)
    requires Ok(p)
  {
    && p.phase == Content && p.ptype == EVENT
    && (|| (p.held[0] == COMMAND_COMPLETE && |p.held| == 2)
        || (p.held[0] == COMMAND_STATUS && |p.held| == 3))
  }

  function Out(p: Parser, b: byte): byte
    requires Ok(p)
  {
    if CreditNext(p) then 1 else b
  }

  function Begun(p: Parser, ptype: byte): Parser
    requires ValidType(ptype)
  {
    Parser(Header, Preamble(ptype), ptype, [], p.done)
  }

  /** `s` more bytes of header. */
  function Headed(p: Parser, s: seq<byte>): (q: Parser)
    requires Ok(p) && p.phase == Header && |s| <= p.need
    ensures Ok(q)
  {
    var held := p.held + s;
    if |s| < p.need then p.(held := held, need := p.need - |s|)
    else p.(phase := Content, held := held, need := BodyLength(p.ptype, held))
  }

  /** `s` more bytes of content. */
  function Filled(p: Parser, s: seq<byte>): (q: Parser)
    requires Ok(p) && p.phase == Content && |s| <= p.need
    ensures Ok(q)
  {
    p.(held := p.held + s, need := p.need - |s|)
  }

  function Finish(p: Parser): (q: Parser)
    requires Ok(p)
    ensures Ok(q)
  {
    if p.phase == Content && p.need == 0 then Waiting(p.done + [Packet(p.ptype, p.held)]) else p
  }

  predicate Settled(p: Parser) {
    Ok(p) && (p.phase == Content ==> p.need > 0)
  }

  /** One byte, before noticing that the packet may be complete. */
  function Raw(p: Parser, b: byte): (q: Parser)
    requires Settled(p)
    ensures Ok(q)
  {
    match p.phase
    case Idle => if ValidType(b) then Begun(p, b) else p
    case Header => Headed(p, [b])
    case Content => Filled(p, [Out(p, b)])
  }

  function Feed(p: Parser, b: byte): (q: Parser)
    requires Settled(p)
    ensures Settled(q)
  {
    Finish(Raw(p, b))
  }

  datatype Ran = Ran(p: Parser, out: seq<byte>)

  function Then(out: seq<byte>, r: Ran): Ran {
    Ran(r.p, out + r.out)
  }

  /** A whole stream, with the bytes that are forwarded. */
  function Run(p: Parser, s: seq<byte>): (r: Ran)
    requires Settled(p)
    ensures Settled(r.p) && |r.out| == |s|
    decreases |s|
  {
    if s == [] then Ran(p, []) else Then([Out(p, s[0])], Run(Feed(p, s[0]), s[1..]))
  }

  lemma ThenThen(a: seq<byte>, b: seq<byte>, r: Ran)
    ensures Then(a, Then(b, r)) == Then(a + b, r)
  {
    assert a + (b + r.out) == a + b + r.out;
  }

  lemma {:induction false} RunConcat(p: Parser, s: seq<byte>, t: seq<byte>)
    requires Settled(p)
    ensures Run(p, s + t) == Then(Run(p, s).out, Run(Run(p, s).p, t))
    decreases |s|
  {
    if s == [] {
      assert s + t == t && [] + Run(p, t).out == Run(p, t).out;
    } else {
      assert (s + t)[0] == s[0] && (s + t)[1..] == s[1..] + t;
      RunConcat(Feed(p, s[0]), s[1..], t);
      ThenThen([Out(p, s[0])], Run(Feed(p, s[0]), s[1..]).out, Run(Run(p, s).p, t));
    }
  }

  /** Only Num_HCI_Command_Packets bytes change, and they become 1. */
  lemma {:induction false} RunChangesOnlyCredits(p: Parser, s: seq<byte>, i: nat)
    requires Settled(p) && i < |s|
    ensures Run(p, s).out[i] == if CreditNext(Run(p, s[..i]).p) then 1 else s[i]
    decreases |s|
  {
    if i > 0 {
      assert s[..i][0] == s[0] && s[..i][1..] == s[1..][..i - 1];
      RunChangesOnlyCredits(Feed(p, s[0]), s[1..], i - 1);
    }
  }

  // ----- runs inside one header or one body

  lemma {:induction false} RunHeader(p: Parser, s: seq<byte>)
    requires Ok(p) && p.phase == Header && |s| <= p.need
    ensures Run(p, s) == Ran(Finish(Headed(p, s)), s)
    decreases |s|
  {
    if s == [] {
      assert p.held + [] == p.held;
    } else if |s| == 1 {
      assert s == [s[0]] && s[1..] == [];
    } else {
      var q := Headed(p, [s[0]]);
      assert Headed(q, s[1..]) == Headed(p, s) by {
        assert p.held + [s[0]] + s[1..] == p.held + s;
      }
      RunHeader(q, s[1..]);
      assert [s[0]] + s[1..] == s;
    }
  }

  /** Where Num_HCI_Command_Packets lies in what is still to come, if it does. */
  function CreditAt(p: Parser): (k: int)
    requires Ok(p)
    ensures k >= -1
  {
    if p.phase != Content || p.ptype != EVENT then -1
    else if p.held[0] == COMMAND_COMPLETE && |p.held| == 2 then 0
    else if p.held[0] == COMMAND_STATUS && |p.held| < 4 then 3 - |p.held|
    else -1
  }

  function Credited(p: Parser, s: seq<byte>): (t: seq<byte>)
    requires Ok(p)
    ensures |t| == |s|
  {
    if 0 <= CreditAt(p) < |s| then s[CreditAt(p) := 1] else s
  }

  lemma CreditedFirst(p: Parser, s: seq<byte>)
    requires Settled(p) && p.phase == Content && s != [] && p.need > 1
    ensures [Out(p, s[0])] + Credited(Filled(p, [Out(p, s[0])]), s[1..]) == Credited(p, s)
  {}

  lemma FilledTwice(p: Parser, s: seq<byte>, t: seq<byte>)
    requires Ok(p) && p.phase == Content && |s| + |t| <= p.need
    ensures Filled(Filled(p, s), t) == Filled(p, s + t)
  {
    assert p.held + s + t == p.held + (s + t);
  }

  lemma {:induction false} RunContent(p: Parser, s: seq<byte>)
    requires Settled(p) && p.phase == Content && |s| <= p.need
    ensures Run(p, s) == Ran(Finish(Filled(p, Credited(p, s))), Credited(p, s))
    decreases |s|
  {
    if s == [] {
      assert p.held + [] == p.held;
    } else if |s| == 1 {
      assert s[1..] == [] && Credited(p, s) == [Out(p, s[0])];
    } else {
      var q := Filled(p, [Out(p, s[0])]);
      CreditedFirst(p, s);
      FilledTwice(p, [Out(p, s[0])], Credited(q, s[1..]));
      RunContent(q, s[1..]);
    }
  }

  // ----- the stream as a list of packets

  /** A packet whose header announces exactly the bytes that follow it. */
  predicate Whole(k: Packet) {
    && ValidType(k.ptype) && |k.bytes| >= Preamble(k.ptype)
    && |k.bytes| == Preamble(k.ptype) + BodyLength(k.ptype, k.bytes)
  }

  /** What a packet is, on its bytes: an ACL packet has two bytes of handle and two of length, low byte
      first; a SCO packet two of handle and one of length; an event one of code and one of length. */
  lemma WholeByBytes(k: Packet)
    ensures Whole(k) <==>
      || (k.ptype == 2 && |k.bytes| >= 4 && |k.bytes| == 4 + k.bytes[2] as int + 256 * k.bytes[3] as int)
      || (k.ptype == 3 && |k.bytes| >= 3 && |k.bytes| == 3 + k.bytes[2] as int)
      || (k.ptype == 4 && |k.bytes| >= 2 && |k.bytes| == 2 + k.bytes[1] as int)
  {}

  predicate AllWhole(ks: seq<Packet>) {
    forall i :: 0 <= i < |ks| ==> Whole(ks[i])
  }

  function Serialize(ks: seq<Packet>): seq<byte> {
    if ks == [] then [] else [ks[0].ptype] + ks[0].bytes + Serialize(ks[1..])
  }

  /** The packet with its Num_HCI_Command_Packets, if it has one, set to 1. */
  function Granted(k: Packet): Packet {
    if k.ptype == EVENT && |k.bytes| > 2 && k.bytes[0] == COMMAND_COMPLETE then k.(bytes := k.bytes[2 := 1])
    else if k.ptype == EVENT && |k.bytes| > 3 && k.bytes[0] == COMMAND_STATUS then k.(bytes := k.bytes[3 := 1])
    else k
  }

  /** Byte 2 of a Command Complete, byte 3 of a Command Status, and nothing else. */
  lemma GrantedByBytes(k: Packet, i: nat)
    requires i < |k.bytes|
    ensures var g := Granted(k);
      && g.ptype == k.ptype && |g.bytes| == |k.bytes|
      && g.bytes[i] == if k.ptype == 4 && ((k.bytes[0] == 0x0e && i == 2) || (k.bytes[0] == 0x0f && i == 3))
                       then 1 else k.bytes[i]
  {}

  /** Between packets a byte that is no packet type is forwarded and forgotten; the others start one. */
  lemma TypeByte(done: seq<Packet>, b: byte)
    ensures Out(Waiting(done), b) == b
    ensures Feed(Waiting(done), b) == Waiting(done) <==> b != 2 && b != 3 && b != 4
  {}

  function AllGranted(ks: seq<Packet>): (r: seq<Packet>)
    ensures |r| == |ks|
  {
    if ks == [] then [] else [Granted(ks[0])] + AllGranted(ks[1..])
  }

  lemma RunBody(done: seq<Packet>, k: Packet, h: seq<byte>, d: seq<byte>)
    requires Whole(k) && k.bytes == h + d && |h| == Preamble(k.ptype)
    ensures var q := Headed(Begun(Waiting(done), k.ptype), h);
      h + Run(Finish(q), d).out == Granted(k).bytes && Run(Finish(q), d).p == Waiting(done + [Granted(k)])
  {
    var q := Headed(Begun(Waiting(done), k.ptype), h);
    assert [] + h == h && BodyLength(k.ptype, h) == BodyLength(k.ptype, k.bytes);
    assert h + Credited(q, d) == Granted(k).bytes;
    if d == [] {
      assert h == k.bytes;
    } else {
      RunContent(q, d);
    }
  }

  lemma RunPacket(done: seq<Packet>, k: Packet)
    requires Whole(k)
    ensures Run(Waiting(done), [k.ptype] + k.bytes)
         == Ran(Waiting(done + [Granted(k)]), [k.ptype] + Granted(k).bytes)
  {
    var n := Preamble(k.ptype);
    var h, d := k.bytes[..n], k.bytes[n..];
    var p := Begun(Waiting(done), k.ptype);
    assert k.bytes == h + d;
    RunHeader(p, h);
    RunConcat(p, h, d);
    RunBody(done, k, h, d);
    assert ([k.ptype] + k.bytes)[1..] == k.bytes;
  }

  lemma AppendFirst(done: seq<Packet>, k: Packet, ks: seq<Packet>)
    ensures done + [k] + ks == done + ([k] + ks)
    ensures ([k] + ks)[1..] == ks
  {}

  /** A stream of packets is taken apart into exactly those packets, and forwarded unchanged but
      for their Num_HCI_Command_Packets bytes. */
  lemma {:induction false} RunPackets(done: seq<Packet>, ks: seq<Packet>)
    requires AllWhole(ks)
    ensures Run(Waiting(done), Serialize(ks))
         == Ran(Waiting(done + AllGranted(ks)), Serialize(AllGranted(ks)))
    decreases |ks|
  {
    if ks == [] {
      assert done + [] == done;
    } else {
      var k := ks[0];
      var g := Granted(k);
      RunPacket(done, k);
      RunPackets(done + [g], ks[1..]);
      RunConcat(Waiting(done), [k.ptype] + k.bytes, Serialize(ks[1..]));
      AppendFirst(done, g, AllGranted(ks[1..]));
      assert Serialize(AllGranted(ks)) == [k.ptype] + g.bytes + Serialize(AllGranted(ks[1..]));
    }
  }
}
