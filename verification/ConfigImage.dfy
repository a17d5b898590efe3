/** The configuration image of hardware_uart.c as a list of entries, and what merging the extra
    settings into it means. */
module ConfigImage {
  import opened Bytes
  import opened Option

  const HEADER_SIZE: nat := 6
  const ENTRY_SIZE: nat := 3
  const MAX_ORG_CONFIG_SIZE: nat := 0x100 * 14
  const MAX_ALT_CONFIG_SIZE: nat := 0x100 * 2

  datatype Entry = Entry(offset: nat, data: seq<byte>)

  predicate EntryOk(e: Entry) {
    e.offset < 65536 && |e.data| < 256
  }

  predicate EntriesOk(es: seq<Entry>) {
    forall i :: 0 <= i < |es| ==> EntryOk(es[i])
  }

  // ----- the image as bytes

  function EntryBytes(e: Entry): (s: seq<byte>)
    requires EntryOk(e)
    ensures |s| == ENTRY_SIZE + |e.data|
  {
    [e.offset % 256, e.offset / 256, |e.data|] + e.data
  }

  function Serialize(es: seq<Entry>): (s: seq<byte>)
    requires EntriesOk(es)
    ensures |s| == Size(es)
  {
    if es == [] then [] else EntryBytes(es[0]) + Serialize(es[1..])
  }

  function Size(es: seq<Entry>): nat {
    if es == [] then 0 else ENTRY_SIZE + |es[0].data| + Size(es[1..])
  }

  lemma {:induction false} SizeConcat(a: seq<Entry>, b: seq<Entry>)
    ensures Size(a + b) == Size(a) + Size(b)
  {
    if a == [] {
      assert a + b == b;
    } else {
      assert (a + b)[0] == a[0] && (a + b)[1..] == a[1..] + b;
      SizeConcat(a[1..], b);
    }
  }

  lemma {:induction false} SerializeConcat(a: seq<Entry>, b: seq<Entry>)
    requires EntriesOk(a) && EntriesOk(b)
    ensures Serialize(a + b) == Serialize(a) + Serialize(b)
  {
    if a == [] {
      assert a + b == b;
      assert [] + Serialize(b) == Serialize(b);
    } else {
      assert (a + b)[0] == a[0] && (a + b)[1..] == a[1..] + b;
      SerializeConcat(a[1..], b);
    }
  }

  function Parse(s: seq<byte>): Option<seq<Entry>>
    decreases |s|
  {
    if s == [] then Some([])
    else if |s| < ENTRY_SIZE || |s| < ENTRY_SIZE + s[2] as int then None
    else
      var n := ENTRY_SIZE + s[2] as int;
      match Parse(s[n..])
      case None => None
      case Some(es) => Some([Entry(s[0] as int + 256 * s[1] as int, s[ENTRY_SIZE..n])] + es)
  }

  /** The bytes of a list of entries can be read back in only one way. */
  lemma {:induction false} ParseSerialize(es: seq<Entry>)
    requires EntriesOk(es)
    ensures Parse(Serialize(es)) == Some(es)
  {
    if es != [] {
      var e, s := es[0], Serialize(es);
      var n := ENTRY_SIZE + |e.data|;
      assert s == EntryBytes(e) + Serialize(es[1..]);
      assert s[n..] == Serialize(es[1..]) && s[ENTRY_SIZE..n] == e.data;
      ParseSerialize(es[1..]);
      assert es == [e] + es[1..];
    }
  }

  /** The first entry byte by byte: its offset, low byte first, its length, its data, and then the
      others. */
  lemma EntryLayout(es: seq<Entry>)
    requires EntriesOk(es) && es != []
    ensures var e, s := es[0], Serialize(es); var n := |e.data|;
      && |s| >= 3 + n && s[0] as int + 256 * s[1] as int == e.offset && s[2] as int == n
      && s[3..3 + n] == e.data && s[3 + n..] == Serialize(es[1..])
  {
    var e, s := es[0], Serialize(es);
    EntryFields(e);
    assert s == EntryBytes(e) + Serialize(es[1..]);
    assert s[..3 + |e.data|] == EntryBytes(e);
    assert s[3..3 + |e.data|] == EntryBytes(e)[3..];
  }

  lemma EntryFields(e: Entry)
    requires EntryOk(e)
    ensures var s := EntryBytes(e);
      && |s| == 3 + |e.data| && s[0] as int + 256 * s[1] as int == e.offset && s[2] as int == |e.data|
      && s[3..] == e.data
  {}

  // ----- what merging means

  predicate Distinct(extras: seq<Entry>) {
    forall i, j :: 0 <= i < j < |extras| ==> extras[i].offset != extras[j].offset
  }

  /** The table of extra settings: distinct offsets, none of them zero, and no more bytes than the
      buffer for it holds. */
  predicate ExtrasOk(extras: seq<Entry>) {
    && EntriesOk(extras) && Distinct(extras) && Size(extras) <= MAX_ALT_CONFIG_SIZE
    && forall i :: 0 <= i < |extras| ==> extras[i].offset != 0 && extras[i].data != []
  }

  /** The value an offset is to have: that of its extra setting. The MAC offset takes its value from
      elsewhere, and there is none. */
  function Value(extras: seq<Entry>, mac: nat, o: nat): seq<byte> {
    if extras == [] || o == mac then []
    else if extras[0].offset == o then extras[0].data
    else Value(extras[1..], mac, o)
  }

  function Replaced(extras: seq<Entry>, mac: nat, e: Entry): (r: Entry)
    ensures r.offset == e.offset && |r.data| == |e.data|
  {
    var v := Value(extras, mac, e.offset);
    if |v| == |e.data| then Entry(e.offset, v) else e
  }

  function AllReplaced(extras: seq<Entry>, mac: nat, es: seq<Entry>): (r: seq<Entry>)
    ensures |r| == |es|
    ensures forall i :: 0 <= i < |es| ==> r[i] == Replaced(extras, mac, es[i])
    ensures Size(r) == Size(es)
    ensures EntriesOk(es) ==> EntriesOk(r)
  {
    if es == [] then [] else [Replaced(extras, mac, es[0])] + AllReplaced(extras, mac, es[1..])
  }

  /** The setting for `o` is in the image already: it is the MAC offset, or has the same length. */
  predicate Settles(extras: seq<Entry>, mac: nat, e: Entry, o: nat) {
    e.offset == o && (o == mac || |Value(extras, mac, o)| == |e.data|)
  }

  predicate Settled(extras: seq<Entry>, mac: nat, es: seq<Entry>, o: nat) {
    exists i :: 0 <= i < |es| && Settles(extras, mac, es[i], o)
  }

  /** Of the first `n` extra settings, those the image lacks. */
  function Missing(extras: seq<Entry>, mac: nat, es: seq<Entry>, n: nat): (r: seq<Entry>)
    requires n <= |extras|
    ensures EntriesOk(extras) ==> EntriesOk(r)
    ensures forall i :: 0 <= i < |r| ==> r[i] in extras
  {
    if n == 0 then []
    else
      var e := extras[n - 1];
      Missing(extras, mac, es, n - 1)
      + (if e.offset == mac || Settled(extras, mac, es, e.offset) then [] else [e])
  }

  function Merged(extras: seq<Entry>, mac: nat, es: seq<Entry>): (r: seq<Entry>)
    ensures EntriesOk(extras) && EntriesOk(es) ==> EntriesOk(r)
  {
    AllReplaced(extras, mac, es) + Missing(extras, mac, es, |extras|)
  }

  lemma {:induction false} SizeTake(extras: seq<Entry>, n: nat)
    requires n < |extras|
    ensures Size(extras[..n + 1]) == Size(extras[..n]) + ENTRY_SIZE + |extras[n].data|
    ensures Size(extras[..n + 1]) <= Size(extras)
  {
    assert extras[..n + 1] == extras[..n] + [extras[n]];
    SizeConcat(extras[..n], [extras[n]]);
    assert extras == extras[..n + 1] + extras[n + 1..];
    SizeConcat(extras[..n + 1], extras[n + 1..]);
  }

  lemma {:induction false} MissingFits(extras: seq<Entry>, mac: nat, es: seq<Entry>, n: nat)
    requires n <= |extras|
    ensures Size(Missing(extras, mac, es, n)) <= Size(extras[..n])
  {
    if n > 0 {
      MissingFits(extras, mac, es, n - 1);
      SizeTake(extras, n - 1);
      SizeConcat(Missing(extras, mac, es, n - 1), [extras[n - 1]]);
      assert Missing(extras, mac, es, n - 1) + [] == Missing(extras, mac, es, n - 1);
    } else {
      assert extras[..0] == [];
    }
  }

  /** The merged image fits the buffer, and its size the sixteen bits of the length field. */
  lemma MergedFits(extras: seq<Entry>, mac: nat, es: seq<Entry>)
    requires ExtrasOk(extras) && HEADER_SIZE + Size(es) <= MAX_ORG_CONFIG_SIZE
    ensures HEADER_SIZE + Size(Merged(extras, mac, es)) <= MAX_ORG_CONFIG_SIZE + MAX_ALT_CONFIG_SIZE < 65536
  {
    MissingFits(extras, mac, es, |extras|);
    assert extras[..|extras|] == extras;
    SizeConcat(AllReplaced(extras, mac, es), Missing(extras, mac, es, |extras|));
  }

  // ----- what the merged image is good for

  lemma {:induction false} ValueOf(extras: seq<Entry>, mac: nat, k: nat)
    requires Distinct(extras) && k < |extras| && extras[k].offset != mac
    ensures Value(extras, mac, extras[k].offset) == extras[k].data
  {
    if k > 0 {
      ValueOf(extras[1..], mac, k - 1);
    }
  }

  lemma {:induction false} MissingHas(extras: seq<Entry>, mac: nat, es: seq<Entry>, n: nat, k: nat)
    requires k < n <= |extras|
    requires extras[k].offset != mac && !Settled(extras, mac, es, extras[k].offset)
    ensures extras[k] in Missing(extras, mac, es, n)
  {
    if k < n - 1 {
      MissingHas(extras, mac, es, n - 1, k);
    }
  }

  /** Every extra setting but one for the MAC offset is in the merged image, with its value. */
  lemma ExtraPresent(extras: seq<Entry>, mac: nat, es: seq<Entry>, k: nat)
    requires ExtrasOk(extras) && k < |extras| && extras[k].offset != mac
    ensures extras[k] in Merged(extras, mac, es)
  {
    var o := extras[k].offset;
    ValueOf(extras, mac, k);
    if Settled(extras, mac, es, o) {
      var i :| 0 <= i < |es| && Settles(extras, mac, es[i], o);
      assert AllReplaced(extras, mac, es)[i] == Replaced(extras, mac, es[i]) == extras[k];
      assert Merged(extras, mac, es)[i] == extras[k];
    } else {
      MissingHas(extras, mac, es, |extras|, k);
    }
  }

  lemma {:induction false} ValueIsExtra(extras: seq<Entry>, mac: nat, o: nat)
    ensures Value(extras, mac, o) == [] || Entry(o, Value(extras, mac, o)) in extras
  {
    if extras != [] && o != mac && extras[0].offset != o {
      ValueIsExtra(extras[1..], mac, o);
    }
  }

  lemma NoValueForMac(extras: seq<Entry>, mac: nat)
    ensures Value(extras, mac, mac) == []
  {}

  /** An extra setting that gives an entry its value: same offset, same length, not the MAC's. */
  predicate Fitting(extra: Entry, mac: nat, e: Entry) {
    extra.offset == e.offset != mac && |extra.data| == |e.data|
  }

  lemma ReplacedExactly(extras: seq<Entry>, mac: nat, e: Entry)
    requires ExtrasOk(extras)
    ensures forall k :: 0 <= k < |extras| && Fitting(extras[k], mac, e) ==> Replaced(extras, mac, e) == extras[k]
    ensures (forall k :: 0 <= k < |extras| ==> !Fitting(extras[k], mac, e)) ==> Replaced(extras, mac, e) == e
  {
    forall k | 0 <= k < |extras| && Fitting(extras[k], mac, e)
      ensures Replaced(extras, mac, e) == extras[k]
    {
      ValueOf(extras, mac, k);
    }
    ValueIsExtra(extras, mac, e.offset);
  }

  /** The original entries keep their places, offsets and lengths. Each becomes the extra setting that
      fits it, if there is one, and stays as it is if there is none. */
  lemma OriginalsKept(extras: seq<Entry>, mac: nat, es: seq<Entry>, i: nat)
    requires ExtrasOk(extras) && i < |es|
    ensures var r := Merged(extras, mac, es);
      && i < |r| && r[i].offset == es[i].offset && |r[i].data| == |es[i].data|
      && (forall k :: 0 <= k < |extras| && Fitting(extras[k], mac, es[i]) ==> r[i] == extras[k])
      && ((forall k :: 0 <= k < |extras| ==> !Fitting(extras[k], mac, es[i])) ==> r[i] == es[i])
  {
    assert Merged(extras, mac, es)[i] == Replaced(extras, mac, es[i]);
    ReplacedExactly(extras, mac, es[i]);
  }

  /** The extra settings that fit no entry of the image, in the order of the table. */
  ghost function Lacking(extras: seq<Entry>, mac: nat, es: seq<Entry>): seq<Entry> {
    if extras == [] then []
    else
      var e := extras[|extras| - 1];
      Lacking(extras[..|extras| - 1], mac, es)
      + (if e.offset == mac || exists i :: 0 <= i < |es| && Fitting(e, mac, es[i]) then [] else [e])
  }

  lemma SettledIsFitted(extras: seq<Entry>, mac: nat, es: seq<Entry>, k: nat)
    requires ExtrasOk(extras) && k < |extras| && extras[k].offset != mac
    ensures Settled(extras, mac, es, extras[k].offset)
       <==> exists i :: 0 <= i < |es| && Fitting(extras[k], mac, es[i])
  {
    var e := extras[k];
    ValueOf(extras, mac, k);
    assert forall i :: 0 <= i < |es| ==> (Settles(extras, mac, es[i], e.offset) <==> Fitting(e, mac, es[i]));
  }

  lemma {:induction false} MissingIsLacking(extras: seq<Entry>, mac: nat, es: seq<Entry>, n: nat)
    requires ExtrasOk(extras) && n <= |extras|
    ensures Missing(extras, mac, es, n) == Lacking(extras[..n], mac, es)
  {
    if n > 0 {
      MissingIsLacking(extras, mac, es, n - 1);
      assert extras[..n][..n - 1] == extras[..n - 1];
      if extras[n - 1].offset != mac {
        SettledIsFitted(extras, mac, es, n - 1);
      }
    }
  }

  /** Behind the original entries come exactly the extra settings that fit none of them, each once
      and in the order of the table. */
  lemma AppendedExactly(extras: seq<Entry>, mac: nat, es: seq<Entry>)
    requires ExtrasOk(extras)
    ensures Merged(extras, mac, es)[|es|..] == Lacking(extras, mac, es)
  {
    MissingIsLacking(extras, mac, es, |extras|);
    assert extras[..|extras|] == extras;
  }

  lemma {:induction false} MissingNothing(extras: seq<Entry>, mac: nat, es: seq<Entry>, n: nat)
    requires n <= |extras|
    requires forall k :: 0 <= k < |extras| ==> extras[k].offset == mac || Settled(extras, mac, es, extras[k].offset)
    ensures Missing(extras, mac, es, n) == []
  {
    if n > 0 {
      MissingNothing(extras, mac, es, n - 1);
    }
  }

  lemma ReplacedTwice(extras: seq<Entry>, mac: nat, es: seq<Entry>)
    requires ExtrasOk(extras)
    ensures var r := Merged(extras, mac, es);
      forall i :: 0 <= i < |r| ==> Replaced(extras, mac, r[i]) == r[i]
  {
    var r := Merged(extras, mac, es);
    var m := Missing(extras, mac, es, |extras|);
    forall i | 0 <= i < |r|
      ensures Replaced(extras, mac, r[i]) == r[i]
    {
      if i >= |es| {
        var e := m[i - |es|];
        var k :| 0 <= k < |extras| && extras[k] == e;
        if e.offset == mac {
          NoValueForMac(extras, mac);
        } else {
          ValueOf(extras, mac, k);
        }
      }
    }
  }

  /** Merging the same settings again changes nothing. */
  lemma MergedTwice(extras: seq<Entry>, mac: nat, es: seq<Entry>)
    requires ExtrasOk(extras)
    ensures Merged(extras, mac, Merged(extras, mac, es)) == Merged(extras, mac, es)
  {
    var r := Merged(extras, mac, es);
    ReplacedTwice(extras, mac, es);
    assert AllReplaced(extras, mac, r) == r;
    forall k | 0 <= k < |extras| && extras[k].offset != mac
      ensures Settled(extras, mac, r, extras[k].offset)
    {
      ExtraPresent(extras, mac, es, k);
      ValueOf(extras, mac, k);
      var i :| 0 <= i < |r| && r[i] == extras[k];
      assert Settles(extras, mac, r[i], extras[k].offset);
    }
    MissingNothing(extras, mac, r, |extras|);
  }
}
