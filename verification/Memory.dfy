/** Copying into a buffer. */
module Memory {
  import opened Bytes

  /** memcpy. */
  method CopyInto(dst: array<byte>, at: nat, src: seq<byte>)
    requires at + |src| <= dst.Length
    modifies dst
    ensures dst[..] == old(dst[..at]) + src + old(dst[at + |src|..])
  {
    for i := 0 to |src|
      invariant dst[..at] == old(dst[..at]) && dst[at..at + i] == src[..i]
      invariant dst[at + i..] == old(dst[at + i..])
    {
      dst[at + i] := src[i];
      assert dst[at + i + 1..] == old(dst[at + i + 1..]) by {
        assert old(dst[at + i..])[1..] == old(dst[at + i + 1..]);
      }
      assert dst[at..at + i + 1] == src[..i] + [src[i]];
    }
    assert dst[..] == dst[..at] + dst[at..at + |src|] + dst[at + |src|..];
  }
}
