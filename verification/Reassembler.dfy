/** The reassembler of userial_vendor.c, which works on whole reads and pokes the byte it rewrites
    ahead of consuming it, and when that is the same as working byte by byte. */
module Reassembler {
  import opened Bytes
  import opened HciStream

  // ----- what the code does to a read

  /** userial_handle_recv_data applied until the read is used up. In the content state the byte to
      rewrite is poked wherever it lies in the read, even beyond the end of the packet. */
  function Process(p: Parser, s: seq<byte>): (r: Ran)
    requires Ok(p)
    ensures Settled(r.p) && |r.out| == |s|
    decreases |s|, if p.phase == Content then 1 else 0
  {
    match p.phase
    case Idle =>
      if s == [] then Ran(p, [])
      else Then([s[0]], Process(if ValidType(s[0]) then Begun(p, s[0]) else p, s[1..]))
    case Header =>
      if |s| < p.need then Ran(Headed(p, s), s)
      else Then(s[..p.need], Process(Headed(p, s[..p.need]), s[p.need..]))
    case Content =>
      var t := Credited(p, s);
      if |s| < p.need then Ran(Filled(p, t), t)
      else Then(t[..p.need], Process(Finish(Filled(p, t[..p.need])), t[p.need..]))
  }

  /** A byte is lost only where it becomes 1. */
  lemma {:induction false} ProcessKeepsOnes(p: Parser, s: seq<byte>, i: nat)
    requires Ok(p) && i < |s|
    ensures Process(p, s).out[i] == s[i] || Process(p, s).out[i] == 1
    decreases |s|, if p.phase == Content then 1 else 0, 1
  {
    match p.phase
    case Idle =>
      ThenAt([s[0]], Process(if ValidType(s[0]) then Begun(p, s[0]) else p, s[1..]), i);
      if i > 0 {
        ProcessKeepsOnes(if ValidType(s[0]) then Begun(p, s[0]) else p, s[1..], i - 1);
      }
    case Header =>
      if |s| >= p.need {
        ThenAt(s[..p.need], Process(Headed(p, s[..p.need]), s[p.need..]), i);
        if i >= p.need {
          ProcessKeepsOnes(Headed(p, s[..p.need]), s[p.need..], i - p.need);
        }
      }
    case Content => ContentKeepsOnes(p, s, i);
  }

  lemma ThenAt(front: seq<byte>, r: Ran, i: nat)
    requires i < |front| + |r.out|
    ensures Then(front, r).out[i] == if i < |front| then front[i] else r.out[i - |front|]
  {}

  lemma CreditedAt(p: Parser, s: seq<byte>, i: nat)
    requires Ok(p) && i < |s|
    ensures |Credited(p, s)| == |s| && (Credited(p, s)[i] == s[i] || Credited(p, s)[i] == 1)
  {}

  lemma {:induction false} ContentKeepsOnes(p: Parser, s: seq<byte>, i: nat)
    requires Ok(p) && i < |s| && p.phase == Content
    ensures Process(p, s).out[i] == s[i] || Process(p, s).out[i] == 1
    decreases |s|, if p.phase == Content then 1 else 0, 0
  {
    var t := Credited(p, s);
    CreditedAt(p, s, i);
    if |s| >= p.need {
      ThenAt(t[..p.need], Process(Finish(Filled(p, t[..p.need])), t[p.need..]), i);
      if i >= p.need {
        ProcessKeepsOnes(Finish(Filled(p, t[..p.need])), t[p.need..], i - p.need);
      }
    }
  }

  // ----- exactly when it agrees with the byte-by-byte meaning

  /** The poke falls beyond the packet, inside the read, and on a byte that it changes. */
  predicate Overruns(p: Parser, s: seq<byte>)
    requires Ok(p)
  {
    var k := CreditAt(p);
    p.phase == Content && p.need <= k < |s| && s[k] != 1
  }

  /** No packet of the read overruns. */
  predicate Clean(p: Parser, s: seq<byte>)
    requires Ok(p)
    decreases |s|, if p.phase == Content then 1 else 0
  {
    match p.phase
    case Idle => s == [] || Clean(if ValidType(s[0]) then Begun(p, s[0]) else p, s[1..])
    case Header => |s| < p.need || Clean(Headed(p, s[..p.need]), s[p.need..])
    case Content =>
      && !Overruns(p, s)
      && (|s| < p.need || Clean(Finish(Filled(p, Credited(p, s[..p.need]))), s[p.need..]))
  }

  lemma SplitAt(s: seq<byte>, n: nat)
    requires n <= |s|
    ensures s == s[..n] + s[n..]
  {}

  lemma RunContentThen(p: Parser, s: seq<byte>)
    requires Ok(p) && p.phase == Content && |s| >= p.need
    ensures var t := Credited(p, s[..p.need]);
      Run(Finish(p), s) == Then(t, Run(Finish(Filled(p, t)), s[p.need..]))
  {
    if p.need == 0 {
      NothingFilled(p);
      assert s[..0] == [] && s[0..] == s;
      assert [] + Run(Finish(p), s).out == Run(Finish(p), s).out;
    } else {
      SplitAt(s, p.need);
      RunContent(p, s[..p.need]);
      RunConcat(p, s[..p.need], s[p.need..]);
    }
  }

  lemma NothingFilled(p: Parser)
    requires Ok(p) && p.phase == Content
    ensures Filled(p, []) == p
  {
    assert p.held + [] == p.held;
  }

  lemma RunHeaderThen(p: Parser, s: seq<byte>)
    requires Ok(p) && p.phase == Header && |s| >= p.need
    ensures Run(p, s) == Then(s[..p.need], Run(Finish(Headed(p, s[..p.need])), s[p.need..]))
  {
    SplitAt(s, p.need);
    RunHeader(p, s[..p.need]);
    RunConcat(p, s[..p.need], s[p.need..]);
  }

  /** Inside the packet the poke is what the byte-by-byte meaning does. */
  lemma CreditedInside(p: Parser, s: seq<byte>)
    requires Ok(p) && p.phase == Content && |s| >= p.need && !Overruns(p, s)
    ensures var t := Credited(p, s);
      t[..p.need] == Credited(p, s[..p.need]) && t[p.need..] == s[p.need..]
  {}

  lemma {:induction false} ProcessIsRun(p: Parser, s: seq<byte>)
    requires Ok(p) && Clean(p, s)
    ensures Process(p, s) == Run(Finish(p), s)
    decreases |s|, if p.phase == Content then 1 else 0
  {
    match p.phase
    case Idle =>
      if s != [] {
        ProcessIsRun(if ValidType(s[0]) then Begun(p, s[0]) else p, s[1..]);
      }
    case Header =>
      if |s| < p.need {
        RunHeader(p, s);
      } else {
        RunHeaderThen(p, s);
        ProcessIsRun(Headed(p, s[..p.need]), s[p.need..]);
      }
    case Content =>
      if |s| < p.need {
        RunContent(p, s);
      } else {
        RunContentThen(p, s);
        CreditedInside(p, s);
        ProcessIsRun(Finish(Filled(p, Credited(p, s[..p.need]))), s[p.need..]);
      }
  }

  /** The first two bytes after a packet are never rewritten by the byte-by-byte meaning. */
  lemma RunStartsPlain(p: Parser, s: seq<byte>, i: nat)
    requires Ok(p) && p.phase == Idle && i < 2 && i < |s|
    ensures Run(p, s).out[i] == s[i]
  {
    if i == 1 {
      assert Feed(p, s[0]).phase != Content;
    }
  }

  lemma OverrunShows(p: Parser, s: seq<byte>)
    requires Ok(p) && Overruns(p, s)
    ensures Process(p, s).out[CreditAt(p)] != Run(Finish(p), s).out[CreditAt(p)]
  {
    var k := CreditAt(p);
    var t := Credited(p, s);
    var q := Finish(Filled(p, t[..p.need]));
    ProcessKeepsOnes(q, t[p.need..], k - p.need);
    assert Process(p, s).out[k] == 1;
    RunContentThen(p, s);
    RunStartsPlain(Finish(Filled(p, Credited(p, s[..p.need]))), s[p.need..], k - p.need);
  }

  lemma StillDiffer(a: seq<byte>, x: seq<byte>, y: seq<byte>)
    requires x != y
    ensures a + x != a + y
  {
    assert (a + x)[|a|..] == x && (a + y)[|a|..] == y;
  }

  lemma {:induction false} UncleanShows(p: Parser, s: seq<byte>)
    requires Ok(p) && !Clean(p, s)
    ensures Process(p, s).out != Run(Finish(p), s).out
    decreases |s|, if p.phase == Content then 1 else 0
  {
    match p.phase
    case Idle =>
      var q := if ValidType(s[0]) then Begun(p, s[0]) else p;
      UncleanShows(q, s[1..]);
      StillDiffer([s[0]], Process(q, s[1..]).out, Run(q, s[1..]).out);
    case Header =>
      var q := Headed(p, s[..p.need]);
      RunHeaderThen(p, s);
      UncleanShows(q, s[p.need..]);
      StillDiffer(s[..p.need], Process(q, s[p.need..]).out, Run(Finish(q), s[p.need..]).out);
    case Content =>
      if Overruns(p, s) {
        OverrunShows(p, s);
      } else {
        RunContentThen(p, s);
        CreditedInside(p, s);
        var t := Credited(p, s[..p.need]);
        var q := Finish(Filled(p, t));
        UncleanShows(q, s[p.need..]);
        StillDiffer(t, Process(q, s[p.need..]).out, Run(q, s[p.need..]).out);
      }
  }

  /** A read is handled as its bytes one after the other exactly when no packet of it overruns. */
  lemma ProcessExact(p: Parser, s: seq<byte>)
    requires Ok(p)
    ensures Process(p, s) == Run(Finish(p), s) <==> Clean(p, s)
    ensures Process(p, s).out == Run(Finish(p), s).out <==> Clean(p, s)
  {
    if Clean(p, s) {
      ProcessIsRun(p, s);
    } else {
      UncleanShows(p, s);
    }
  }

  // ----- streams whose events have the parameters they should

  /** A Command Complete has at least one parameter byte and a Command Status at least two. */
  predicate LongEnough(p: Parser)
    requires Ok(p)
  {
    p.phase == Content && p.ptype == EVENT ==>
      && (p.held[0] == COMMAND_COMPLETE ==> |p.held| + p.need >= 3)
      && (p.held[0] == COMMAND_STATUS ==> |p.held| + p.need >= 4)
  }

  predicate Sound(p: Parser, s: seq<byte>)
    requires Settled(p)
    decreases |s|
  {
    LongEnough(p) && (s != [] ==> LongEnough(Raw(p, s[0])) && Sound(Feed(p, s[0]), s[1..]))
  }

  lemma {:induction false} SoundSplit(p: Parser, s: seq<byte>, t: seq<byte>)
    requires Settled(p) && Sound(p, s + t)
    ensures Sound(p, s) && Sound(Run(p, s).p, t)
    decreases |s|
  {
    if s == [] {
      assert s + t == t;
    } else {
      assert (s + t)[0] == s[0] && (s + t)[1..] == s[1..] + t;
      SoundSplit(Feed(p, s[0]), s[1..], t);
    }
  }

  lemma HeadedFirst(p: Parser, h: seq<byte>)
    requires Ok(p) && p.phase == Header && |h| == p.need > 1
    ensures Headed(p, h) == Headed(Headed(p, [h[0]]), h[1..])
  {
    assert p.held + [h[0]] + h[1..] == p.held + h;
  }

  /** The header of a sound stream is followed by a long enough packet. */
  lemma {:induction false} SoundHeader(p: Parser, s: seq<byte>)
    requires Ok(p) && p.phase == Header && |s| >= p.need && Sound(p, s)
    ensures var q := Headed(p, s[..p.need]); LongEnough(q) && Sound(Finish(q), s[p.need..])
    decreases |s|
  {
    if p.need == 1 {
      assert s[..1] == [s[0]];
    } else {
      assert Feed(p, s[0]) == Raw(p, s[0]) == Headed(p, [s[0]]);
      SoundHeader(Headed(p, [s[0]]), s[1..]);
      HeadedFirst(p, s[..p.need]);
      assert s[..p.need][1..] == s[1..][..p.need - 1];
      assert s[1..][p.need - 1..] == s[p.need..];
    }
  }

  lemma SoundContent(p: Parser, s: seq<byte>)
    requires Ok(p) && p.phase == Content && |s| >= p.need && Sound(Finish(p), s)
    ensures Sound(Finish(Filled(p, Credited(p, s[..p.need]))), s[p.need..])
  {
    if p.need == 0 {
      NothingFilled(p);
      assert s[..0] == [] && s[0..] == s;
    } else {
      SplitAt(s, p.need);
      SoundSplit(p, s[..p.need], s[p.need..]);
      RunContent(p, s[..p.need]);
    }
  }

  lemma {:induction false} SoundIsClean(p: Parser, s: seq<byte>)
    requires Ok(p) && LongEnough(p) && Sound(Finish(p), s)
    ensures Clean(p, s)
    decreases |s|, if p.phase == Content then 1 else 0
  {
    match p.phase
    case Idle =>
      if s != [] {
        SoundIsClean(if ValidType(s[0]) then Begun(p, s[0]) else p, s[1..]);
      }
    case Header =>
      if |s| >= p.need {
        SoundHeader(p, s);
        SoundIsClean(Headed(p, s[..p.need]), s[p.need..]);
      }
    case Content =>
      if |s| >= p.need {
        SoundContent(p, s);
        SoundIsClean(Finish(Filled(p, Credited(p, s[..p.need]))), s[p.need..]);
      }
  }

  /** Reads one after the other. */
  function ProcessReads(p: Parser, chunks: seq<seq<byte>>): (r: Ran)
    requires Settled(p)
    ensures Settled(r.p)
    decreases |chunks|
  {
    if chunks == [] then Ran(p, [])
    else
      var r := Process(p, chunks[0]);
      Then(r.out, ProcessReads(r.p, chunks[1..]))
  }

  // A clean stream is clean in every read of every split.

  lemma CutInSecond(s: seq<byte>, t: seq<byte>, n: nat)
    requires n <= |t|
    ensures (s + t)[..|s| + n] == s + t[..n] && (s + t)[|s| + n..] == t[n..]
  {}

  lemma HeadedTwice(p: Parser, s: seq<byte>, t: seq<byte>)
    requires Ok(p) && p.phase == Header && |s| < p.need && |s| + |t| <= p.need
    ensures Headed(Headed(p, s), t) == Headed(p, s + t)
  {
    assert p.held + s + t == p.held + (s + t);
  }

  lemma CleanSplitHeader(p: Parser, s: seq<byte>, t: seq<byte>)
    requires Ok(p) && p.phase == Header && |s| < p.need && Clean(p, s + t)
    ensures Clean(p, s) && Clean(Headed(p, s), t)
  {
    var n := p.need - |s|;
    if |t| >= n {
      HeadedTwice(p, s, t[..n]);
      CutInSecond(s, t, n);
    }
  }

  lemma CreditedTwice(p: Parser, s: seq<byte>, t: seq<byte>)
    requires Ok(p) && p.phase == Content && |s| < p.need
    ensures var q := Filled(p, Credited(p, s));
      && Credited(p, s + t) == Credited(p, s) + Credited(q, t)
      && (Overruns(q, t) ==> Overruns(p, s + t))
  {}

  lemma CleanSplitContent(p: Parser, s: seq<byte>, t: seq<byte>)
    requires Ok(p) && p.phase == Content && |s| < p.need && Clean(p, s + t)
    ensures Clean(p, s) && Clean(Filled(p, Credited(p, s)), t)
  {
    var q, n := Filled(p, Credited(p, s)), p.need - |s|;
    CreditedTwice(p, s, t);
    if |t| >= n {
      CreditedTwice(p, s, t[..n]);
      FilledTwice(p, Credited(p, s), Credited(q, t[..n]));
      CutInSecond(s, t, n);
    }
  }

  /** Both parts of a clean stream are clean, the second after the first. */
  lemma {:induction false} CleanSplit(p: Parser, s: seq<byte>, t: seq<byte>)
    requires Ok(p) && Clean(p, s + t)
    ensures Clean(p, s) && Clean(Process(p, s).p, t)
    decreases |s|, if p.phase == Content then 1 else 0
  {
    match p.phase
    case Idle =>
      if s == [] {
        assert s + t == t;
      } else {
        assert (s + t)[0] == s[0] && (s + t)[1..] == s[1..] + t;
        CleanSplit(if ValidType(s[0]) then Begun(p, s[0]) else p, s[1..], t);
      }
    case Header =>
      if |s| < p.need {
        CleanSplitHeader(p, s, t);
      } else {
        assert (s + t)[..p.need] == s[..p.need] && (s + t)[p.need..] == s[p.need..] + t;
        CleanSplit(Headed(p, s[..p.need]), s[p.need..], t);
      }
    case Content =>
      if |s| < p.need {
        CleanSplitContent(p, s, t);
      } else {
        assert (s + t)[..p.need] == s[..p.need] && (s + t)[p.need..] == s[p.need..] + t;
        assert !Overruns(p, s);
        CreditedInside(p, s);
        CleanSplit(Finish(Filled(p, Credited(p, s[..p.need]))), s[p.need..], t);
      }
  }

  lemma {:induction false} CleanReads(p: Parser, chunks: seq<seq<byte>>)
    requires Settled(p) && Clean(p, Flatten(chunks))
    ensures ProcessReads(p, chunks) == Run(p, Flatten(chunks))
    decreases |chunks|
  {
    if chunks != [] {
      var s := chunks[0];
      CleanSplit(p, s, Flatten(chunks[1..]));
      ProcessIsRun(p, s);
      CleanReads(Run(p, s).p, chunks[1..]);
      RunConcat(p, s, Flatten(chunks[1..]));
    }
  }

  lemma OneRead(p: Parser, s: seq<byte>)
    requires Settled(p)
    ensures Flatten([s]) == s && ProcessReads(p, [s]) == Process(p, s)
  {
    assert [s][1..] == [];
    assert s + [] == s && Process(p, s).out + [] == Process(p, s).out;
  }

  /** The split of a stream into reads does not matter - every split gives what its bytes one after
      the other give - if and only if the stream is clean: no poke escapes from its packet inside
      the stream, onto a byte that it changes. */
  lemma ReadsDoNotMatter(p: Parser, s: seq<byte>)
    requires Settled(p)
    ensures Clean(p, s)
       <==> forall chunks :: Flatten(chunks) == s ==> ProcessReads(p, chunks) == Run(p, s)
  {
    if Clean(p, s) {
      forall chunks | Flatten(chunks) == s
        ensures ProcessReads(p, chunks) == Run(p, s)
      {
        CleanReads(p, chunks);
      }
    } else {
      OneRead(p, s);
      ProcessExact(p, s);
    }
  }

  /** In particular it does not for a stream whose events have the parameters they should. */
  lemma SoundReads(p: Parser, chunks: seq<seq<byte>>)
    requires Settled(p) && Sound(p, Flatten(chunks))
    ensures ProcessReads(p, chunks) == Run(p, Flatten(chunks))
  {
    SoundIsClean(p, Flatten(chunks));
    CleanReads(p, chunks);
  }

  /** The parameters that an event lacks are exactly what lets the poke escape from it. */
  lemma LongEnoughExact(p: Parser)
    requires Ok(p) && p.phase == Content
    ensures LongEnough(p) <==> forall s: seq<byte> :: !Overruns(p, s)
  {
    if !LongEnough(p) {
      assert Overruns(p, seq(CreditAt(p) + 1, _ => 0));
    }
  }

  /** For instance, after a Command Complete without parameters the
      type of the next packet is overwritten if it is in the same read, and is not if it comes
      later. */
  lemma ReadsMatterAfterShortEvent()
    ensures var p := Waiting([]);
      && ProcessReads(p, [[EVENT, COMMAND_COMPLETE, 0, ACL]]).out == [EVENT, COMMAND_COMPLETE, 0, 1]
      && ProcessReads(p, [[EVENT, COMMAND_COMPLETE, 0], [ACL]]).out == [EVENT, COMMAND_COMPLETE, 0, ACL]
  {
    var p := Waiting([]);
    var q := Begun(p, EVENT);
    var c := Headed(q, [COMMAND_COMPLETE, 0]);
    var d := Finish(Filled(c, []));
    NothingFilled(c);
    assert Process(d, [1]) == Then([1], Process(d, []));
    assert Process(c, [ACL]).out == [1];
    var s := [EVENT, COMMAND_COMPLETE, 0, ACL];
    assert s[1..] == [COMMAND_COMPLETE, 0, ACL];
    assert s[1..][..2] == [COMMAND_COMPLETE, 0] && s[1..][2..] == [ACL];
    assert Process(q, s[1..]).out == [COMMAND_COMPLETE, 0, 1];
    assert Process(p, s).out == s[..3] + [1];
    var t := [EVENT, COMMAND_COMPLETE, 0];
    assert t[1..] == [COMMAND_COMPLETE, 0] && t[1..][..2] == t[1..] && t[1..][2..] == [];
    assert Process(c, []) == Then([], Process(d, []));
    assert Process(p, t) == Ran(d, t);
    assert [ACL][1..] == [];
    assert Process(d, [ACL]) == Then([ACL], Process(Begun(d, ACL), []));
    assert ProcessReads(p, [s]).out == Process(p, s).out + [];
    assert [t, [ACL]][1..] == [[ACL]] && [[ACL]][1..] == [];
    assert ProcessReads(d, [[ACL]]).out == [ACL] + [];
  }

  /** The other direction of CleanSplit fails for the same stream: both parts are clean, the whole is
      not. */
  lemma CleanPartsNotWhole()
    ensures var p, s, t := Waiting([]), [EVENT, COMMAND_COMPLETE, 0], [ACL];
      Clean(p, s) && Clean(Process(p, s).p, t) && !Clean(p, s + t)
  {
    var p, s, t := Waiting([]), [EVENT, COMMAND_COMPLETE, 0], [ACL];
    var q := Begun(p, EVENT);
    var c := Headed(q, [COMMAND_COMPLETE, 0]);
    var d := Finish(Filled(c, []));
    NothingFilled(c);
    assert s[1..] == [COMMAND_COMPLETE, 0] && s[1..][..2] == s[1..] && s[1..][2..] == [];
    assert Process(c, []) == Then([], Process(d, [])) && Process(p, s).p == d;
    assert Clean(c, []) && Clean(q, s[1..]);
    assert t[1..] == [] && Clean(Begun(d, ACL), []);
    var all := s + t;
    assert all[1..][..2] == [COMMAND_COMPLETE, 0] && all[1..][2..] == [ACL];
    assert Overruns(c, [ACL]);
    assert !Clean(q, all[1..]);
  }

  // ----- the parser as an object

  lemma ProcessNothing(p: Parser)
    requires Settled(p)
    ensures Process(p, []) == Ran(p, [])
  {
    assert p.held + [] == p.held;
  }

  /** Part of a read was used up, and what is left of it is still to be processed. */
  ghost predicate Advanced(p: Parser, s: seq<byte>, used: seq<byte>, q: Parser, rest: seq<byte>) {
    Ok(p) && Ok(q) && Process(p, s) == Then(used, Process(q, rest))
  }

  lemma Slices(w: seq<byte>, from: nat, at: nat, pos: nat)
    requires from <= at <= pos <= |w|
    ensures w[from..at] + w[at..pos] == w[from..pos] && w[..at] + w[at..pos] == w[..pos]
    ensures w[from..][..pos - from] == w[from..pos] && w[from..][pos - from..] == w[pos..]
    ensures w[..at][..from] == w[..from] && w[..at][from..] == w[from..at]
    ensures w[from..|w|] == w[from..] && w[|w|..] == []
  {}

  lemma Stay(p: Parser, s: seq<byte>)
    requires Ok(p)
    ensures Advanced(p, s, [], p, s)
  {
    assert [] + Process(p, s).out == Process(p, s).out;
  }

  /** When nothing is left the read has been processed. */
  lemma ReadDone(p: Parser, s: seq<byte>, out: seq<byte>, q: Parser)
    requires Settled(q) && Advanced(p, s, out, q, [])
    ensures Ran(q, out) == Process(p, s)
    ensures Ran(q, out) == Run(Finish(p), s) <==> Clean(p, s)
  {
    ProcessNothing(q);
    assert out + [] == out;
    ProcessExact(p, s);
  }

  lemma AdvancedTwice(p: Parser, s: seq<byte>, u: seq<byte>, q: Parser, t: seq<byte>, v: seq<byte>,
                      r: Parser, w: seq<byte>)
    requires Advanced(p, s, u, q, t) && Advanced(q, t, v, r, w)
    ensures Advanced(p, s, u + v, r, w)
  {
    ThenThen(u, v, Process(r, w));
  }

  lemma {:induction false} Skip(p: Parser, s: seq<byte>, n: nat)
    requires Ok(p) && p.phase == Idle && n <= |s|
    requires forall i :: 0 <= i < n ==> !ValidType(s[i])
    ensures Advanced(p, s, s[..n], p, s[n..])
    decreases n
  {
    if n == 0 {
      Stay(p, s);
      assert s[0..] == s;
    } else {
      Skip(p, s[1..], n - 1);
      assert s[1..][n - 1..] == s[n..] && s[..n] == [s[0]] + s[1..][..n - 1];
      ThenThen([s[0]], s[1..][..n - 1], Process(p, s[n..]));
    }
  }

  lemma TypeHere(p: Parser, s: seq<byte>)
    requires Ok(p) && p.phase == Idle && s != []
    ensures Advanced(p, s, [s[0]], if ValidType(s[0]) then Begun(p, s[0]) else p, s[1..])
  {}

  lemma TypeStep(p: Parser, w: seq<byte>, from: nat, pos: nat)
    requires Ok(p) && p.phase == Idle && from < pos <= |w|
    requires forall i :: from <= i < pos - 1 ==> !ValidType(w[i])
    ensures Advanced(p, w[from..], w[from..pos], if ValidType(w[pos - 1]) then Begun(p, w[pos - 1]) else p, w[pos..])
  {
    var n, t := pos - 1, w[pos - 1];
    var q := if ValidType(t) then Begun(p, t) else p;
    assert w[n..][0] == t && w[n..][1..] == w[pos..] && w[from..n] + [t] == w[from..pos];
    assert w[from..][..n - from] == w[from..n] && w[from..][n - from..] == w[n..];
    Skip(p, w[from..], n - from);
    TypeHere(p, w[n..]);
    AdvancedTwice(p, w[from..], w[from..n], p, w[n..], [t], q, w[pos..]);
  }

  /** How far a part of a packet that needs `need` bytes reaches in a read. */
  function Reach(need: nat, from: nat, length: nat): (pos: nat)
    requires from <= length
    ensures from <= pos <= length
  {
    if length - from < need then length else from + need
  }

  lemma ReachSlices(w: seq<byte>, from: nat, need: nat)
    requires from <= |w|
    ensures var pos, s := Reach(need, from, |w|), w[from..];
      if |s| < need then w[from..pos] == s && w[pos..] == []
      else w[from..pos] == s[..need] && w[pos..] == s[need..]
  {}

  lemma HeaderStep(p: Parser, w: seq<byte>, from: nat)
    requires Ok(p) && p.phase == Header && from <= |w|
    ensures var pos := Reach(p.need, from, |w|);
      Advanced(p, w[from..], w[from..pos], Headed(p, w[from..pos]), w[pos..])
  {
    ReachSlices(w, from, p.need);
    if |w| - from < p.need {
      HeaderShort(p, w[from..]);
    } else {
      HeaderLong(p, w[from..]);
    }
  }

  lemma HeaderShort(p: Parser, s: seq<byte>)
    requires Ok(p) && p.phase == Header && |s| < p.need
    ensures Advanced(p, s, s, Headed(p, s), [])
  {
    ProcessNothing(Headed(p, s));
    assert s + [] == s;
  }

  lemma HeaderLong(p: Parser, s: seq<byte>)
    requires Ok(p) && p.phase == Header && |s| >= p.need
    ensures Advanced(p, s, s[..p.need], Headed(p, s[..p.need]), s[p.need..])
  {}

  lemma ContentStep(p: Parser, w: seq<byte>, v: seq<byte>, from: nat)
    requires Ok(p) && p.phase == Content && from <= |w| == |v| && v[from..] == Credited(p, w[from..])
    ensures var pos := Reach(p.need, from, |w|);
      Advanced(p, w[from..], v[from..pos], Finish(Filled(p, v[from..pos])), v[pos..])
  {
    var t := v[from..];
    ReachSlices(v, from, p.need);
    if |t| < p.need {
      ProcessNothing(Filled(p, t));
      assert t + [] == t;
    }
  }

  class StreamParser {
    /** received_packet_state; the type and end states do not outlast a call. */
    var state: Phase
    var bytesNeed: nat
    var currentType: byte
    /** received_resvered_header, as far as it is filled. */
    var header: seq<byte>
    var completed: seq<Packet>

    function Abs(): Parser
      reads this
    {
      if state == Idle then Waiting(completed) else Parser(state, bytesNeed, currentType, header, completed)
    }

    constructor ()
      ensures Settled(Abs()) && Abs() == Waiting([])
    {
      state, bytesNeed, currentType, header, completed := Idle, 0, 0, [], [];
    }

    /** The idle and type states: bytes that are no packet type are passed over. */
    method TakeType(a: array<byte>, from: nat) returns (pos: nat)
      requires state == Idle && from < a.Length
      modifies this
      ensures from < pos <= a.Length && Settled(Abs())
      ensures forall i :: from <= i < pos - 1 ==> !ValidType(a[i])
      ensures if ValidType(a[pos - 1]) then Abs() == Begun(old(Abs()), a[pos - 1])
              else pos == a.Length && unchanged(this)
    {
      pos := from;
      while pos < a.Length
        invariant from <= pos <= a.Length
        invariant forall i :: from <= i < pos ==> !ValidType(a[i])
      {
        var t := a[pos];
        pos := pos + 1;
        if ValidType(t) {
          state, bytesNeed, currentType, header := Header, Preamble(t), t, [];
          return;
        }
      }
    }

    /** The header state. */
    method TakeHeader(a: array<byte>, from: nat) returns (pos: nat)
      requires state == Header && Settled(Abs()) && from <= a.Length
      modifies this
      ensures pos == Reach(old(bytesNeed), from, a.Length) && old(bytesNeed) > 0
      ensures state == Content || (state == Header && pos == a.Length)
      ensures Ok(Abs()) && Abs() == Headed(old(Abs()), a[from..pos])
    {
      if a.Length - from >= bytesNeed {
        pos := from + bytesNeed;
        header := header + a[from..pos];
        state, bytesNeed := Content, BodyLength(currentType, header);
      } else {
        pos := a.Length;
        header := header + a[from..pos];
        bytesNeed := bytesNeed - (a.Length - from);
      }
    }

    /** The rewriting at the head of the content state. */
    method PokeCredit(a: array<byte>, from: nat)
      requires state == Content && Ok(Abs()) && from <= a.Length
      modifies a
      ensures a[..from] == old(a[..from]) && a[from..] == Credited(Abs(), old(a[from..]))
    {
      var length := a.Length - from;
      if currentType == EVENT {
        var event := header[0];
        if event == COMMAND_COMPLETE {
          if |header| == 2 {
            if length >= 1 {
              a[from] := 1;
            }
          }
        } else if event == COMMAND_STATUS {
          if |header| < 4 {
            var act := 4 - |header|;
            if length >= act {
              a[from + act - 1] := 1;
            }
          }
        }
      }
    }

    /** The content and end states. */
    method TakeContent(a: array<byte>, from: nat) returns (pos: nat)
      requires state == Content && Ok(Abs()) && from <= a.Length
      modifies this, a
      ensures pos == Reach(old(bytesNeed), from, a.Length)
      ensures a[..from] == old(a[..from]) && a[from..] == Credited(old(Abs()), old(a[from..]))
      ensures Settled(Abs()) && Abs() == Finish(Filled(old(Abs()), a[from..pos]))
    {
      PokeCredit(a, from);
      if a.Length - from >= bytesNeed {
        pos := from + bytesNeed;
        header := header + a[from..pos];
        completed := completed + [Packet(currentType, header)];
        state, bytesNeed, currentType, header := Idle, 0, 0, [];
      } else {
        pos := a.Length;
        header := header + a[from..pos];
        bytesNeed := bytesNeed - (a.Length - from);
      }
    }

    // The same two, in a call that began at `from` with the read `s`.

    method TakeHeaderAfter(a: array<byte>, from: nat, at: nat, ghost p: Parser, ghost s: seq<byte>)
        returns (pos: nat)
      requires state == Header && Settled(Abs()) && from <= at <= a.Length
      requires Advanced(p, s, a[from..at], Abs(), a[at..])
      modifies this
      ensures at <= pos <= a.Length && Ok(Abs()) && (at < a.Length ==> at < pos)
      ensures state == Content || (state == Header && pos == a.Length)
      ensures Advanced(p, s, a[from..pos], Abs(), a[pos..])
    {
      ghost var q := Abs();
      HeaderStep(q, a[..], at);
      pos := TakeHeader(a, at);
      AdvancedTwice(p, s, a[from..at], q, a[at..], a[at..pos], Abs(), a[pos..]);
      Slices(a[..], from, at, pos);
    }

    method TakeContentAfter(a: array<byte>, from: nat, at: nat, ghost p: Parser, ghost s: seq<byte>)
        returns (pos: nat)
      requires state == Content && Ok(Abs()) && from <= at <= a.Length
      requires Advanced(p, s, a[from..at], Abs(), a[at..])
      modifies this, a
      ensures at <= pos <= a.Length && Settled(Abs())
      ensures at < a.Length && old(bytesNeed) > 0 ==> at < pos
      ensures a[..from] == old(a[..from])
      ensures Advanced(p, s, a[from..pos], Abs(), a[pos..])
    {
      ghost var q, u, t := Abs(), a[from..at], a[at..];
      Slices(a[..], from, at, at);
      ghost var w := a[..];
      pos := TakeContent(a, at);
      ContentStep(q, w, a[..], at);
      AdvancedTwice(p, s, u, q, t, a[at..pos], Abs(), a[pos..]);
      Slices(a[..], from, at, pos);
    }

    /** The states before the content. */
    method TakeToContent(a: array<byte>, from: nat) returns (pos: nat)
      requires Settled(Abs()) && from < a.Length
      modifies this
      ensures from <= pos <= a.Length && Ok(Abs())
      ensures if state == Content then from < pos || (unchanged(this) && from == pos)
              else from < pos == a.Length && Settled(Abs())
      ensures Advanced(old(Abs()), a[from..], a[from..pos], Abs(), a[pos..])
    {
      ghost var p, s := Abs(), a[from..];
      pos := from;
      Stay(p, s);
      assert a[from..from] == [];
      if state == Idle {
        pos := TakeType(a, from);
        TypeStep(p, a[..], from, pos);
      }
      if state == Header {
        pos := TakeHeaderAfter(a, from, pos, p, s);
      }
    }

    /** userial_handle_recv_data: at most one packet is completed. */
    method HandleRecvData(a: array<byte>, from: nat) returns (pos: nat)
      requires Settled(Abs()) && from < a.Length
      modifies this, a
      ensures from < pos <= a.Length && Settled(Abs())
      ensures a[..from] == old(a[..from])
      ensures Advanced(old(Abs()), old(a[from..]), a[from..pos], Abs(), a[pos..])
    {
      ghost var p, s := Abs(), a[from..];
      pos := TakeToContent(a, from);
      if state == Content {
        pos := TakeContentAfter(a, from, pos, p, s);
      }
    }

    /** The loop of userial_recv_uart_rawdata over one read. */
    method ReceiveRead(a: array<byte>)
      requires Settled(Abs())
      modifies this, a
      ensures Settled(Abs()) && Ran(Abs(), a[..]) == Process(old(Abs()), old(a[..]))
      ensures Ran(Abs(), a[..]) == Run(old(Abs()), old(a[..])) <==> Clean(old(Abs()), old(a[..]))
    {
      ghost var p, s := Abs(), a[..];
      var pos := 0;
      Stay(p, s);
      assert a[0..] == a[..] && a[..0] == [];
      while pos < a.Length
        invariant pos <= a.Length && Settled(Abs())
        invariant Advanced(p, s, a[..pos], Abs(), a[pos..])
      {
        ghost var u, q, t, mid := a[..pos], Abs(), a[pos..], pos;
        pos := HandleRecvData(a, pos);
        AdvancedTwice(p, s, u, q, t, a[mid..pos], Abs(), a[pos..]);
        Slices(a[..], 0, mid, pos);
      }
      Slices(a[..], 0, 0, pos);
      assert a[..pos] == a[..];
      ReadDone(p, s, a[..], Abs());
    }
  }
}
