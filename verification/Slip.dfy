/** The SLIP layer (Core Specification Vol 4 Part D section 3): byte stuffing with the two
    standard escapes and the two that out-of-frame software flow control adds. */
module Slip {
  import opened Bytes

  const DELIM: byte := 0xc0
  const ESC: byte := 0xdb
  const XON: byte := 0x11
  const XOFF: byte := 0x13

  /** What h5_slip_one_byte writes for one byte. */
  function SlipByte(oof: bool, b: byte): (s: seq<byte>)
    ensures 1 <= |s| <= 2
  {
    if b == DELIM then [ESC, 0xdc]
    else if b == ESC then [ESC, 0xdd]
    else if b == XON && oof then [ESC, 0xde]
    else if b == XOFF && oof then [ESC, 0xdf]
    else [b]
  }

  function SlipAll(oof: bool, s: seq<byte>): seq<byte> {
    if s == [] then [] else SlipAll(oof, s[..|s| - 1]) + SlipByte(oof, s[|s| - 1])
  }

  lemma {:induction false} SlipConcat(oof: bool, s: seq<byte>, t: seq<byte>)
    ensures SlipAll(oof, s + t) == SlipAll(oof, s) + SlipAll(oof, t)
  {
    if t == [] {
      assert s + t == s;
    } else {
      var n := |t| - 1;
      assert (s + t)[..|s + t| - 1] == s + t[..n];
      SlipConcat(oof, s, t[..n]);
    }
  }

  lemma {:induction false} SlipFirst(oof: bool, s: seq<byte>)
    requires s != []
    ensures SlipAll(oof, s) == SlipByte(oof, s[0]) + SlipAll(oof, s[1..])
  {
    assert s == s[..1] + s[1..];
    SlipConcat(oof, s[..1], s[1..]);
    assert s[..1][..0] == [];
    assert SlipAll(oof, s[..1]) == SlipByte(oof, s[0]);
  }

  /** No delimiter survives stuffing, nor, under flow control, does XON or XOFF; each byte takes
      one or two. */
  lemma {:induction false} SlipShape(oof: bool, s: seq<byte>)
    ensures DELIM !in SlipAll(oof, s)
    ensures oof ==> XON !in SlipAll(oof, s) && XOFF !in SlipAll(oof, s)
    ensures |s| <= |SlipAll(oof, s)| <= 2 * |s|
  {
    if s != [] {
      SlipShape(oof, s[..|s| - 1]);
    }
  }

  lemma SlipTwo(oof: bool, a: byte, b: byte)
    ensures SlipAll(oof, [a, b]) == SlipByte(oof, a) + SlipByte(oof, b)
  {
    assert [a, b][..1] == [a] && [a][..0] == [];
    assert SlipAll(oof, [a]) == [] + SlipByte(oof, a);
  }

  lemma SlipFour(oof: bool, a: byte, b: byte, c: byte, d: byte)
    ensures SlipAll(oof, [a, b, c, d])
         == SlipByte(oof, a) + SlipByte(oof, b) + SlipByte(oof, c) + SlipByte(oof, d)
  {
    assert [a, b, c, d] == [a, b] + [c, d];
    SlipConcat(oof, [a, b], [c, d]);
    SlipTwo(oof, a, b);
    SlipTwo(oof, c, d);
  }

  /** The escapes: of the delimiter and of the escape byte itself, and of XON and XOFF under flow
      control. */
  lemma KnownEscapes(b: byte)
    ensures SlipByte(false, b)
         == if b == 0xc0 then [0xdb, 0xdc] else if b == 0xdb then [0xdb, 0xdd] else [b]
    ensures SlipByte(true, b)
         == if b == 0x11 then [0xdb, 0xde] else if b == 0x13 then [0xdb, 0xdf] else SlipByte(false, b)
  {}
}
