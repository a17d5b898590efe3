/** rtk_update_altsettings of hardware_uart.c: the configuration image is walked and rewritten in
    place, and what it lacks is appended behind it. Proved against ConfigImage.Merged. */
module ConfigUpdate {
  import opened Bytes
  import opened Memory
  import opened ConfigImage

  function Le16(n: nat): (s: seq<byte>)
    requires n < 65536
    ensures |s| == 2
  {
    [n % 256, n / 256]
  }

  /** The offsets the code looks for: the MAC offset first, then those of the table. */
  function Sought(extras: seq<Entry>, mac: nat): (s: seq<nat>)
    ensures |s| == |extras| + 1 && s[0] == mac
    ensures forall j :: 0 < j < |s| ==> s[j] == extras[j - 1].offset
  {
    [mac] + seq(|extras|, j requires 0 <= j < |extras| => extras[j].offset)
  }

  /** A slot is cleared once the image turned out to have its setting. */
  ghost function Slot(extras: seq<Entry>, mac: nat, es: seq<Entry>, o: nat): nat {
    if Settled(extras, mac, es, o) then 0 else o
  }

  lemma SettledAppend(extras: seq<Entry>, mac: nat, es: seq<Entry>, e: Entry, o: nat)
    ensures Settled(extras, mac, es + [e], o) <==> Settled(extras, mac, es, o) || Settles(extras, mac, e, o)
  {
    var all := es + [e];
    if Settled(extras, mac, es, o) {
      var i :| 0 <= i < |es| && Settles(extras, mac, es[i], o);
      assert all[i] == es[i];
    }
    if Settles(extras, mac, e, o) {
      assert all[|es|] == e;
    }
  }

  // ----- the loops over the table

  /** getAltSettingVal. */
  method GetAltSettingVal(extras: seq<Entry>, mac: nat, o: nat) returns (val: seq<byte>)
    ensures val == Value(extras, mac, o)
  {
    val := [];
    var k := 0;
    while k < |extras|
      invariant k <= |extras| && val == []
      invariant Value(extras, mac, o) == Value(extras[k..], mac, o)
    {
      if extras[k].offset == o {
        if o != mac {
          val := extras[k].data;
        }
        return;
      }
      k := k + 1;
    }
  }

  /** The inner loop of rtk_update_altsettings: is there a setting for `o`, of this length? */
  method SameLength(extras: seq<Entry>, ghost mac: nat, o: nat, len: nat) returns (same: bool)
    requires ExtrasOk(extras) && o != mac
    ensures same <==> Value(extras, mac, o) != [] && |Value(extras, mac, o)| == len
  {
    same := false;
    var k := 0;
    while k < |extras|
      invariant k <= |extras| && !same
      invariant Value(extras, mac, o) == Value(extras[k..], mac, o)
    {
      if extras[k].offset == o {
        same := |extras[k].data| == len;
        return;
      }
      k := k + 1;
    }
  }

  /** One entry clears the slots it settles. */
  method ClearSlots(slots: array<nat>, count: nat, extras: seq<Entry>, mac: nat, offset: nat, len: nat, ghost e: Entry)
    requires ExtrasOk(extras) && count <= slots.Length && e.offset == offset && |e.data| == len
    requires forall j :: 0 <= j < count ==>
      slots[j] == 0 || slots[j] == mac || Value(extras, mac, slots[j]) != []
    modifies slots
    ensures forall j :: 0 <= j < count ==>
      slots[j] == if Settles(extras, mac, e, old(slots[j])) then 0 else old(slots[j])
  {
    for j := 0 to count
      invariant forall i :: j <= i < count ==> slots[i] == old(slots[i])
      invariant forall i :: 0 <= i < j ==>
        slots[i] == if Settles(extras, mac, e, old(slots[i])) then 0 else old(slots[i])
    {
      if offset == slots[j] {
        if slots[j] == mac {
          slots[j] := 0;
        } else {
          var same := SameLength(extras, mac, offset, len);
          if same {
            slots[j] := 0;
          }
        }
      }
    }
  }

  // ----- one entry in the buffer

  lemma EntryAt(w: seq<byte>, a: seq<byte>, e: Entry, b: seq<byte>)
    requires EntryOk(e) && w == a + EntryBytes(e) + b
    ensures |a| + ENTRY_SIZE + |e.data| <= |w|
    ensures w[|a|] as int + 256 * w[|a| + 1] as int == e.offset && w[|a| + 2] as int == |e.data|
  {
    assert forall i :: 0 <= i < 3 ==> w[|a| + i] == EntryBytes(e)[i];
  }

  lemma Spliced(w: seq<byte>, a: seq<byte>, e: Entry, r: Entry, b: seq<byte>)
    requires EntryOk(e) && EntryOk(r) && w == a + EntryBytes(e) + b
    requires r.offset == e.offset && |r.data| == |e.data|
    ensures w[..|a| + ENTRY_SIZE] + r.data + w[|a| + ENTRY_SIZE + |r.data|..] == a + EntryBytes(r) + b
  {
    var at := |a| + ENTRY_SIZE;
    assert w[..at] == a + EntryBytes(e)[..ENTRY_SIZE];
    assert w[at + |r.data|..] == b;
    assert EntryBytes(r) == EntryBytes(e)[..ENTRY_SIZE] + r.data;
  }

  /** The replacement of one entry's value. */
  method ReplaceEntry(buf: array<byte>, at: nat, extras: seq<Entry>, mac: nat,
                      ghost a: seq<byte>, ghost e: Entry, ghost b: seq<byte>)
      returns (offset: nat, len: nat)
    requires EntryOk(e) && |a| == at && buf[..] == a + EntryBytes(e) + b && EntriesOk(extras)
    modifies buf
    ensures offset == e.offset && len == |e.data|
    ensures buf[..] == a + EntryBytes(Replaced(extras, mac, e)) + b
  {
    ghost var w, r := buf[..], Replaced(extras, mac, e);
    EntryAt(w, a, e, b);
    offset := buf[at] as int + 256 * buf[at + 1] as int;
    len := buf[at + 2];
    var val := GetAltSettingVal(extras, mac, offset);
    if |val| == len {
      Spliced(w, a, e, r, b);
      CopyInto(buf, at + ENTRY_SIZE, val);
    }
  }

  // ----- the walk over the image

  /** The image with its first `k` entries rewritten. */
  ghost function Partly(extras: seq<Entry>, mac: nat, es: seq<Entry>, k: nat): seq<byte>
    requires EntriesOk(extras) && EntriesOk(es) && k <= |es|
  {
    Serialize(AllReplaced(extras, mac, es[..k])) + Serialize(es[k..])
  }

  lemma {:induction false} AllReplacedAppend(extras: seq<Entry>, mac: nat, es: seq<Entry>, e: Entry)
    ensures AllReplaced(extras, mac, es + [e]) == AllReplaced(extras, mac, es) + [Replaced(extras, mac, e)]
  {
    var r := AllReplaced(extras, mac, es + [e]);
    assert forall i :: 0 <= i < |es| ==> r[i] == Replaced(extras, mac, (es + [e])[i]) == Replaced(extras, mac, es[i]);
  }

  lemma Single(e: Entry)
    requires EntryOk(e)
    ensures Serialize([e]) == EntryBytes(e)
  {
    assert [e][1..] == [];
    assert EntryBytes(e) + [] == EntryBytes(e);
  }

  /** What lies before and behind entry `k`. */
  lemma PartlyAround(extras: seq<Entry>, mac: nat, es: seq<Entry>, k: nat, pre: seq<byte>, tail: seq<byte>)
    requires EntriesOk(extras) && EntriesOk(es) && k < |es|
    ensures var a := pre + Serialize(AllReplaced(extras, mac, es[..k]));
      var b := Serialize(es[k + 1..]) + tail;
      && pre + Partly(extras, mac, es, k) + tail == a + EntryBytes(es[k]) + b
      && pre + Partly(extras, mac, es, k + 1) + tail == a + EntryBytes(Replaced(extras, mac, es[k])) + b
      && |a| == |pre| + Size(es[..k])
      && Size(es[..k + 1]) == Size(es[..k]) + ENTRY_SIZE + |es[k].data|
  {
    var e, r := es[k], Replaced(extras, mac, es[k]);
    var done := AllReplaced(extras, mac, es[..k]);
    assert es[k..] == [e] + es[k + 1..] && es[..k + 1] == es[..k] + [e];
    AllReplacedAppend(extras, mac, es[..k], e);
    SerializeConcat(done, [r]);
    Single(r);
    SizeConcat(es[..k], [e]);
    Reassociate(pre, Serialize(done), EntryBytes(e), Serialize(es[k + 1..]), tail);
    Reassociate(pre, Serialize(done), EntryBytes(r), Serialize(es[k + 1..]), tail);
  }

  lemma Reassociate(p: seq<byte>, d: seq<byte>, e: seq<byte>, r: seq<byte>, t: seq<byte>)
    ensures p + (d + (e + r)) + t == p + d + e + (r + t)
    ensures p + (d + e + r) + t == p + d + e + (r + t)
  {}

  ghost predicate SlotsAre(slots: array<nat>, extras: seq<Entry>, mac: nat, es: seq<Entry>)
    reads slots
  {
    var s := Sought(extras, mac);
    |s| <= slots.Length && forall j :: 0 <= j < |s| ==> slots[j] == Slot(extras, mac, es, s[j])
  }

  method ClearSought(slots: array<nat>, extras: seq<Entry>, mac: nat, offset: nat, len: nat,
                     ghost es: seq<Entry>, ghost e: Entry)
    requires ExtrasOk(extras) && e.offset == offset && |e.data| == len && SlotsAre(slots, extras, mac, es)
    modifies slots
    ensures SlotsAre(slots, extras, mac, es + [e])
  {
    ghost var s := Sought(extras, mac);
    forall j | 0 <= j < |s|
      ensures s[j] == mac || Value(extras, mac, s[j]) != []
      ensures Slot(extras, mac, es + [e], s[j])
           == if Settled(extras, mac, es, s[j]) || Settles(extras, mac, e, s[j]) then 0 else s[j]
    {
      SettledAppend(extras, mac, es, e, s[j]);
      if s[j] != mac {
        ValueOf(extras, mac, j - 1);
      }
    }
    ClearSlots(slots, |extras| + 1, extras, mac, offset, len, e);
  }

  /** One round of the first loop, for entry `k` of the image. */
  method RewriteRound(buf: array<byte>, i: nat, slots: array<nat>, extras: seq<Entry>, mac: nat,
                      ghost es: seq<Entry>, ghost k: nat, ghost pre: seq<byte>, ghost tail: seq<byte>)
      returns (next: nat)
    requires ExtrasOk(extras) && EntriesOk(es) && k < |es| && i == Size(es[..k])
    requires |pre| == HEADER_SIZE && buf[..] == pre + Partly(extras, mac, es, k) + tail
    requires SlotsAre(slots, extras, mac, es[..k])
    modifies buf, slots
    ensures next == Size(es[..k + 1]) > i
    ensures buf[..] == pre + Partly(extras, mac, es, k + 1) + tail
    ensures SlotsAre(slots, extras, mac, es[..k + 1])
  {
    ghost var a := pre + Serialize(AllReplaced(extras, mac, es[..k]));
    ghost var b := Serialize(es[k + 1..]) + tail;
    PartlyAround(extras, mac, es, k, pre, tail);
    var offset, len := ReplaceEntry(buf, HEADER_SIZE + i, extras, mac, a, es[k], b);
    assert es[..k + 1] == es[..k] + [es[k]];
    ClearSought(slots, extras, mac, offset, len, es[..k], es[k]);
    next := i + ENTRY_SIZE + len;
  }

  /** The first loop: every entry is looked at, and rewritten if it has a new value of its length. */
  method RewriteEntries(buf: array<byte>, dataLen: nat, slots: array<nat>, extras: seq<Entry>, mac: nat,
                        ghost es: seq<Entry>, ghost pre: seq<byte>, ghost tail: seq<byte>)
      returns (i: nat)
    requires ExtrasOk(extras) && EntriesOk(es) && dataLen == Size(es)
    requires |pre| == HEADER_SIZE && buf[..] == pre + Serialize(es) + tail
    requires SlotsAre(slots, extras, mac, [])
    modifies buf, slots
    ensures i == dataLen && SlotsAre(slots, extras, mac, es)
    ensures buf[..] == pre + Serialize(AllReplaced(extras, mac, es)) + tail
  {
    i := 0;
    ghost var k := 0;
    PartlyEnds(extras, mac, es);
    while i < dataLen
      invariant k <= |es| && i == Size(es[..k])
      invariant buf[..] == pre + Partly(extras, mac, es, k) + tail
      invariant SlotsAre(slots, extras, mac, es[..k])
      decreases dataLen - i
    {
      assert es[..|es|] == es;
      i := RewriteRound(buf, i, slots, extras, mac, es, k, pre, tail);
      k := k + 1;
    }
    WholeImage(es, k);
  }

  lemma PartlyEnds(extras: seq<Entry>, mac: nat, es: seq<Entry>)
    requires EntriesOk(extras) && EntriesOk(es)
    ensures es[..0] == [] && Partly(extras, mac, es, 0) == Serialize(es)
    ensures Partly(extras, mac, es, |es|) == Serialize(AllReplaced(extras, mac, es))
  {
    assert es[0..] == es && es[..|es|] == es && es[|es|..] == [];
    assert [] + Serialize(es) == Serialize(es);
    var r := Serialize(AllReplaced(extras, mac, es));
    assert r + [] == r;
  }

  /** Entries are never empty, so the walk ends with the last one. */
  lemma WholeImage(es: seq<Entry>, k: nat)
    requires k <= |es| && Size(es[..k]) >= Size(es)
    ensures k == |es| && es[..k] == es && es[k..] == []
  {
    assert es == es[..k] + es[k..];
    SizeConcat(es[..k], es[k..]);
  }

  // ----- the entries that are missing

  /** One new entry behind the image. */
  method AppendEntry(buf: array<byte>, at: nat, offset: nat, val: seq<byte>)
    requires offset < 65536 && 0 < |val| < 256 && at + ENTRY_SIZE + |val| <= buf.Length
    modifies buf
    ensures buf[..at] == old(buf[..at])
    ensures buf[..at + ENTRY_SIZE + |val|] == old(buf[..at]) + EntryBytes(Entry(offset, val))
  {
    buf[at + 2] := |val|;
    buf[at] := offset % 256;
    buf[at + 1] := offset / 256;
    ghost var w := buf[..];
    assert w[..at + ENTRY_SIZE] == old(buf[..at]) + [offset % 256, offset / 256, |val|];
    CopyInto(buf, at + ENTRY_SIZE, val);
    assert buf[..at + ENTRY_SIZE + |val|] == w[..at + ENTRY_SIZE] + val;
  }

  lemma MissingStep(extras: seq<Entry>, mac: nat, es: seq<Entry>, j: nat)
    requires EntriesOk(extras) && j < |extras|
    ensures var m, n := Missing(extras, mac, es, j), Missing(extras, mac, es, j + 1);
      if extras[j].offset == mac || Settled(extras, mac, es, extras[j].offset) then n == m
      else
        Serialize(n) == Serialize(m) + EntryBytes(extras[j])
        && Size(n) == Size(m) + ENTRY_SIZE + |extras[j].data|
  {
    var m, e := Missing(extras, mac, es, j), extras[j];
    if e.offset == mac || Settled(extras, mac, es, e.offset) {
      assert m + [] == m;
    } else {
      SerializeConcat(m, [e]);
      SizeConcat(m, [e]);
      Single(e);
    }
  }

  /** Entry `j` of the table still fits. */
  lemma RoomFor(extras: seq<Entry>, mac: nat, es: seq<Entry>, j: nat)
    requires j < |extras|
    ensures Size(Missing(extras, mac, es, j)) + ENTRY_SIZE + |extras[j].data| <= Size(extras)
  {
    MissingFits(extras, mac, es, j);
    SizeTake(extras, j);
  }

  /** One round of the second loop, for entry `j` of the table. */
  method AppendIfMissing(buf: array<byte>, i: nat, slot: nat, extras: seq<Entry>, mac: nat, ghost j: nat,
                         ghost es: seq<Entry>)
      returns (next: nat)
    requires ExtrasOk(extras) && j < |extras| && slot == Slot(extras, mac, es, extras[j].offset)
    requires HEADER_SIZE + i + ENTRY_SIZE + |extras[j].data| <= buf.Length
    modifies buf
    ensures buf[..HEADER_SIZE + i] == old(buf[..HEADER_SIZE + i])
    ensures if extras[j].offset == mac || Settled(extras, mac, es, extras[j].offset) then next == i
            else
              && next == i + ENTRY_SIZE + |extras[j].data| && HEADER_SIZE + next <= buf.Length
              && buf[..HEADER_SIZE + next] == old(buf[..HEADER_SIZE + i]) + EntryBytes(extras[j])
  {
    next := i;
    if slot == 0 {
      return;
    }
    var val := GetAltSettingVal(extras, mac, slot);
    if |val| <= 0 {
      NothingIsMac(extras, mac, j);
      buf[HEADER_SIZE + i + 2] := 0;
      return;
    }
    if slot == mac {
      NoValueForMac(extras, mac);
    }
    ValueOf(extras, mac, j);
    AppendEntry(buf, HEADER_SIZE + i, slot, val);
    next := i + ENTRY_SIZE + |val|;
  }

  lemma NothingIsMac(extras: seq<Entry>, mac: nat, j: nat)
    requires ExtrasOk(extras) && j < |extras|
    ensures Value(extras, mac, extras[j].offset) == [] <==> extras[j].offset == mac
  {
    if extras[j].offset != mac {
      ValueOf(extras, mac, j);
    }
  }

  /** The same, on the image so far. */
  method AppendRound(buf: array<byte>, start: nat, i: nat, slot: nat, extras: seq<Entry>, mac: nat, ghost j: nat,
                     ghost es: seq<Entry>, ghost front: seq<byte>)
      returns (next: nat)
    requires ExtrasOk(extras) && j < |extras| && slot == Slot(extras, mac, es, extras[j].offset)
    requires HEADER_SIZE + start + MAX_ALT_CONFIG_SIZE <= buf.Length
    requires i == start + Size(Missing(extras, mac, es, j)) && HEADER_SIZE + i <= buf.Length
    requires buf[..HEADER_SIZE + i] == front + Serialize(Missing(extras, mac, es, j))
    modifies buf
    ensures next == start + Size(Missing(extras, mac, es, j + 1)) && HEADER_SIZE + next <= buf.Length
    ensures buf[..HEADER_SIZE + next] == front + Serialize(Missing(extras, mac, es, j + 1))
  {
    RoomFor(extras, mac, es, j);
    MissingStep(extras, mac, es, j);
    ghost var m := Serialize(Missing(extras, mac, es, j));
    next := AppendIfMissing(buf, i, slot, extras, mac, j, es);
    Associate(front, m, EntryBytes(extras[j]));
  }

  /** The slot of the MAC offset, for which there is no value. */
  method SkipMac(buf: array<byte>, i: nat, slot: nat, extras: seq<Entry>, mac: nat)
    requires slot == mac || slot == 0
    requires HEADER_SIZE + i + ENTRY_SIZE <= buf.Length
    modifies buf
    ensures buf[..HEADER_SIZE + i] == old(buf[..HEADER_SIZE + i])
  {
    if slot != 0 {
      var val := GetAltSettingVal(extras, mac, slot);
      NoValueForMac(extras, mac);
      buf[HEADER_SIZE + i + 2] := |val|;
    }
  }

  /** The second loop. */
  method AppendMissing(buf: array<byte>, start: nat, slots: array<nat>, extras: seq<Entry>, mac: nat,
                       ghost es: seq<Entry>, ghost front: seq<byte>)
      returns (i: nat)
    requires ExtrasOk(extras) && SlotsAre(slots, extras, mac, es)
    requires HEADER_SIZE + start + MAX_ALT_CONFIG_SIZE <= buf.Length && buf[..HEADER_SIZE + start] == front
    modifies buf
    ensures i == start + Size(Missing(extras, mac, es, |extras|)) && HEADER_SIZE + i <= buf.Length
    ensures buf[..HEADER_SIZE + i] == front + Serialize(Missing(extras, mac, es, |extras|))
  {
    i := start;
    SkipMac(buf, i, slots[0], extras, mac);
    assert front == front + [];
    for j := 0 to |extras|
      invariant i == start + Size(Missing(extras, mac, es, j)) && HEADER_SIZE + i <= buf.Length
      invariant buf[..HEADER_SIZE + i] == front + Serialize(Missing(extras, mac, es, j))
    {
      assert slots[j + 1] == Slot(extras, mac, es, Sought(extras, mac)[j + 1]);
      i := AppendRound(buf, start, i, slots[j + 1], extras, mac, j, es, front);
    }
  }

  // ----- the whole function

  lemma {:induction false} TableSmall(extras: seq<Entry>)
    requires forall i :: 0 <= i < |extras| ==> extras[i].data != []
    ensures 4 * |extras| <= Size(extras)
  {
    if extras != [] {
      TableSmall(extras[1..]);
    }
  }

  method MakeSlots(extras: seq<Entry>, mac: nat) returns (slots: array<nat>)
    requires ExtrasOk(extras)
    ensures fresh(slots) && SlotsAre(slots, extras, mac, [])
  {
    TableSmall(extras);
    slots := new nat[256];
    slots[0] := mac;
    for j := 0 to |extras|
      invariant slots[0] == mac && forall k :: 0 < k <= j ==> slots[k] == extras[k - 1].offset
    {
      slots[j + 1] := extras[j].offset;
    }
  }

  lemma HeaderAndImage(w: seq<byte>, n: nat, image: seq<byte>)
    requires HEADER_SIZE + n <= |w| && w[HEADER_SIZE..HEADER_SIZE + n] == image
    ensures w == w[..HEADER_SIZE] + image + w[HEADER_SIZE + n..]
  {}

  /** The two loops and the new length. */
  method MergeInPlace(buf: array<byte>, dataLen: nat, slots: array<nat>, extras: seq<Entry>, mac: nat,
                      ghost es: seq<Entry>, ghost pre: seq<byte>, ghost tail: seq<byte>)
      returns (i: nat)
    requires buf.Length == MAX_ORG_CONFIG_SIZE + MAX_ALT_CONFIG_SIZE
    requires HEADER_SIZE + dataLen <= MAX_ORG_CONFIG_SIZE
    requires ExtrasOk(extras) && EntriesOk(es) && dataLen == Size(es) && SlotsAre(slots, extras, mac, [])
    requires |pre| == HEADER_SIZE && buf[..] == pre + Serialize(es) + tail
    modifies buf, slots
    ensures i == Size(Merged(extras, mac, es)) < 65536 && HEADER_SIZE + i <= buf.Length
    ensures buf[..HEADER_SIZE + i] == pre[..4] + Le16(i) + Serialize(Merged(extras, mac, es))
  {
    i := RewriteEntries(buf, dataLen, slots, extras, mac, es, pre, tail);
    ghost var front := pre + Serialize(AllReplaced(extras, mac, es));
    Front(buf[..], front, tail);
    i := AppendMissing(buf, i, slots, extras, mac, es, front);
    MergedFits(extras, mac, es);
    MergedBytes(extras, mac, es, pre);
    SetLength(buf, i, pre, Serialize(Merged(extras, mac, es)));
  }

  /** rtk_update_altsettings. When the length field is right, the image becomes the merged one, the
      length field its size, and the signature stays; otherwise nothing changes. */
  method UpdateAltSettings(buf: array<byte>, configLen: nat, extras: seq<Entry>, mac: nat, ghost es: seq<Entry>)
      returns (newLen: nat)
    requires buf.Length == MAX_ORG_CONFIG_SIZE + MAX_ALT_CONFIG_SIZE && configLen <= MAX_ORG_CONFIG_SIZE
    requires ExtrasOk(extras) && EntriesOk(es)
    requires buf[4] as int + 256 * buf[5] as int == configLen as int - HEADER_SIZE ==>
      buf[HEADER_SIZE..configLen] == Serialize(es)
    modifies buf
    ensures old(buf[4] as int + 256 * buf[5] as int) != configLen as int - HEADER_SIZE ==>
      newLen == configLen && buf[..] == old(buf[..])
    ensures old(buf[4] as int + 256 * buf[5] as int) == configLen as int - HEADER_SIZE ==>
      var r := Merged(extras, mac, es);
      && newLen == HEADER_SIZE + Size(r) <= buf.Length && Size(r) < 65536
      && buf[..newLen] == old(buf[..4]) + Le16(Size(r)) + Serialize(r)
      && buf[4] as int + 256 * buf[5] as int == newLen as int - 6
  {
    newLen := configLen;
    var dataLen := buf[4] as int + 256 * buf[5] as int;
    var slots := MakeSlots(extras, mac);
    if dataLen != configLen as int - HEADER_SIZE {
      return;
    }
    ghost var w := buf[..];
    HeaderAndImage(w, dataLen, Serialize(es));
    assert w[..HEADER_SIZE][..4] == w[..4];
    var i := MergeInPlace(buf, dataLen, slots, extras, mac, es, w[..HEADER_SIZE], w[configLen..]);
    newLen := i + HEADER_SIZE;
    LengthField(buf[..newLen], w[..HEADER_SIZE][..4], i, Serialize(Merged(extras, mac, es)));
    assert buf[4] == buf[..newLen][4] && buf[5] == buf[..newLen][5];
  }

  /** The length field, low byte first. */
  lemma LengthField(w: seq<byte>, signature: seq<byte>, n: nat, image: seq<byte>)
    requires n < 65536 && |signature| == 4 && w == signature + Le16(n) + image
    ensures w[4] as int + 256 * w[5] as int == n
  {
    assert w[4] == Le16(n)[0] && w[5] == Le16(n)[1];
  }

  lemma Front(w: seq<byte>, a: seq<byte>, b: seq<byte>)
    requires w == a + b
    ensures w[..|a|] == a
  {}

  lemma MergedBytes(extras: seq<Entry>, mac: nat, es: seq<Entry>, pre: seq<byte>)
    requires EntriesOk(extras) && EntriesOk(es)
    ensures var a, m := AllReplaced(extras, mac, es), Missing(extras, mac, es, |extras|);
      pre + Serialize(a) + Serialize(m) == pre + Serialize(Merged(extras, mac, es))
      && Size(Merged(extras, mac, es)) == Size(es) + Size(m)
  {
    var a, m := AllReplaced(extras, mac, es), Missing(extras, mac, es, |extras|);
    SerializeConcat(a, m);
    SizeConcat(a, m);
    Associate(pre, Serialize(a), Serialize(m));
  }

  lemma Associate(p: seq<byte>, a: seq<byte>, b: seq<byte>)
    ensures p + a + b == p + (a + b)
  {}

  method SetLength(buf: array<byte>, i: nat, ghost pre: seq<byte>, ghost image: seq<byte>)
    requires i < 65536 && |pre| == HEADER_SIZE && HEADER_SIZE + i <= buf.Length
    requires buf[..HEADER_SIZE + i] == pre + image
    modifies buf
    ensures buf[..HEADER_SIZE + i] == pre[..4] + Le16(i) + image
  {
    buf[4], buf[5] := i % 256, i / 256;
  }
}
