/** Firmware download of hardware_uart.c: the image put together from patch and configuration, and
    its transfer in numbered fragments, each sent when the controller has answered the one before. */
module FirmwareDownload {
  import opened Bytes
  import opened Memory

  const PATCH_DATA_FIELD_MAX_SIZE: nat := 252
  /** The larger of the two max_patch_size values in the patch table. */
  const MAX_PATCH_SIZE: nat := 40 * 1024

  // ----- the image

  /** The patch with its last four bytes replaced by the firmware version, then the configuration. */
  function Image(patch: seq<byte>, fwVersion: seq<byte>, config: seq<byte>): seq<byte>
    requires |patch| >= 4 && |fwVersion| == 4
  {
    patch[..|patch| - 4] + fwVersion + config
  }

  /** The layout in rtk_get_bt_final_patch. */
  method BuildImage(fw: seq<byte>, patchOffset: nat, patchLength: nat, fwVersion: seq<byte>, config: seq<byte>)
      returns (total: array<byte>)
    requires patchOffset + patchLength <= |fw| && patchLength >= 4 && |fwVersion| == 4
    ensures fresh(total)
    ensures total[..] == Image(fw[patchOffset..patchOffset + patchLength], fwVersion, config)
    ensures total.Length == patchLength + |config|
    ensures forall i :: 0 <= i < total.Length ==>
      total[i] == if i < patchLength - 4 then fw[patchOffset + i]
                  else if i < patchLength then fwVersion[i - (patchLength - 4)]
                  else config[i - patchLength]
  {
    var patch := fw[patchOffset..patchOffset + patchLength];
    total := new byte[patchLength + |config|];
    CopyInto(total, 0, patch);
    ghost var t1 := total[..];
    assert t1[..patchLength] == patch;
    CopyInto(total, patchLength - 4, fwVersion);
    ghost var t2 := total[..];
    assert t2[..patchLength] == patch[..patchLength - 4] + fwVersion by {
      assert t1[..patchLength - 4] == patch[..patchLength - 4];
    }
    CopyInto(total, patchLength, config);
    assert total[..] == t2[..patchLength] + config;
    ImageBytes(fw, patchOffset, patchLength, fwVersion, config);
  }

  /** The image byte by byte. */
  lemma ImageBytes(fw: seq<byte>, at: nat, n: nat, fwVersion: seq<byte>, config: seq<byte>)
    requires at + n <= |fw| && n >= 4 && |fwVersion| == 4
    ensures var image := Image(fw[at..at + n], fwVersion, config);
      && |image| == n + |config|
      && forall i :: 0 <= i < |image| ==>
           image[i] == if i < n - 4 then fw[at + i]
                       else if i < n then fwVersion[i - (n - 4)] else config[i - n]
  {}

  // ----- what should be sent

  function FragCount(n: nat): nat {
    (n + PATCH_DATA_FIELD_MAX_SIZE - 1) / PATCH_DATA_FIELD_MAX_SIZE
  }

  /** Fragment 0 has index 0; then 1 to 127 over and over; the last has the top bit. */
  function FragIndex(k: nat, count: nat): byte {
    (if k == 0 then 0 else (k - 1) % 127 + 1) + (if k + 1 == count then 128 else 0)
  }

  function FragData(image: seq<byte>, k: nat): (d: seq<byte>)
    requires k < FragCount(|image|)
    ensures 0 < |d| <= PATCH_DATA_FIELD_MAX_SIZE
    ensures k + 1 < FragCount(|image|) ==> |d| == PATCH_DATA_FIELD_MAX_SIZE
  {
    var from := k * PATCH_DATA_FIELD_MAX_SIZE;
    image[from..if k + 1 < FragCount(|image|) then from + PATCH_DATA_FIELD_MAX_SIZE else |image|]
  }

  /** The download command: opcode 0xfc20, parameter length, index, data. */
  function Command(index: byte, data: seq<byte>): seq<byte>
    requires |data| <= PATCH_DATA_FIELD_MAX_SIZE
  {
    [0x20, 0xfc, 1 + |data|, index] + data
  }

  /** The first `n` commands. */
  function Commands(image: seq<byte>, n: nat): (s: seq<seq<byte>>)
    requires n <= FragCount(|image|)
    ensures |s| == n
  {
    seq(n, k requires 0 <= k < n => Command(FragIndex(k, FragCount(|image|)), FragData(image, k)))
  }

  /** The commands byte by byte: opcode 0xfc20, low byte first, the number of bytes that follow, the
      index, and the next 252 bytes of the image or what is left of it. */
  lemma CommandBytes(image: seq<byte>, k: nat)
    requires k < FragCount(|image|)
    ensures var c, from := Commands(image, FragCount(|image|))[k], 252 * k;
      var to := if |image| <= from + 252 then |image| else from + 252;
      var last := |image| <= from + 252;
      && from < to && |c| == 4 + (to - from)
      && c[0] == 0x20 && c[1] == 0xfc && c[2] as int == 1 + (to - from)
      && c[3] as int == (if k == 0 then 0 else (k - 1) % 127 + 1) + (if last then 0x80 else 0)
      && c[4..] == image[from..to]
  {}

  function Joined(image: seq<byte>, n: nat): seq<byte>
    requires n <= FragCount(|image|)
  {
    if n == 0 then [] else Joined(image, n - 1) + FragData(image, n - 1)
  }

  lemma {:induction false} JoinedIsPrefix(image: seq<byte>, n: nat)
    requires n < FragCount(|image|)
    ensures n * PATCH_DATA_FIELD_MAX_SIZE <= |image|
    ensures Joined(image, n) == image[..n * PATCH_DATA_FIELD_MAX_SIZE]
  {
    if n > 0 {
      JoinedIsPrefix(image, n - 1);
      var a := (n - 1) * PATCH_DATA_FIELD_MAX_SIZE;
      assert image[..a] + image[a..a + PATCH_DATA_FIELD_MAX_SIZE] == image[..a + PATCH_DATA_FIELD_MAX_SIZE];
    }
  }

  lemma LastData(image: seq<byte>, n: nat)
    requires n + 1 == FragCount(|image|)
    ensures n * PATCH_DATA_FIELD_MAX_SIZE <= |image|
    ensures FragData(image, n) == image[n * PATCH_DATA_FIELD_MAX_SIZE..|image|]
  {}

  /** The data of all fragments, one after the other, is the image. */
  lemma FragmentsJoin(image: seq<byte>, count: nat)
    requires count == FragCount(|image|)
    ensures Joined(image, count) == image
  {
    if count == 0 {
      assert image == [];
    } else {
      var n := count - 1;
      var front, back := Joined(image, n), FragData(image, n);
      JoinedIsPrefix(image, n);
      LastData(image, n);
      Rejoin(image, n * PATCH_DATA_FIELD_MAX_SIZE, front, back);
    }
  }

  lemma Rejoin(image: seq<byte>, a: nat, front: seq<byte>, back: seq<byte>)
    requires a <= |image| && front == image[..a] && back == image[a..|image|]
    ensures front + back == image
  {}

  /** Only the last index has the top bit, and below it neighbouring fragments differ. */
  lemma IndexShape(k: nat, count: nat)
    requires k < count
    ensures FragIndex(k, count) >= 128 <==> k + 1 == count
    ensures FragIndex(k, count) % 128 == if k == 0 then 0 else (k - 1) % 127 + 1
    ensures k + 1 < count ==> FragIndex(k, count) % 128 != FragIndex(k + 1, count) % 128
  {}

  // ----- the callbacks

  datatype Reply = Reply(status: byte, index: byte)

  datatype Outcome = Waiting | Completed | Aborted | Overread

  /** The reply that ends the exchange: a failure, or an index with the top bit. */
  predicate Ends(r: Reply) {
    r.status != 0 || r.index >= 128
  }

  /** The position of the first such reply, or the number of replies if there is none. */
  function FirstEnd(replies: seq<Reply>): (n: nat)
    ensures n <= |replies|
    ensures forall i :: 0 <= i < n ==> !Ends(replies[i])
    ensures n < |replies| ==> Ends(replies[n])
  {
    if replies == [] then 0
    else if Ends(replies[0]) then 0
    else 1 + FirstEnd(replies[1..])
  }

  /** A controller that answers every fragment with success and the index it carried. */
  function Echo(count: nat): seq<Reply> {
    seq(count, k requires 0 <= k < count => Reply(0, FragIndex(k, count)))
  }

  lemma EchoEnds(count: nat)
    requires count > 0
    ensures FirstEnd(Echo(count)) == count - 1
  {
    var n := FirstEnd(Echo(count));
    if n < count - 1 {
      IndexShape(n, count);
    }
    IndexShape(count - 1, count);
    assert Ends(Echo(count)[count - 1]);
  }

  class Download {
    const totalBuf: array<byte>
    var totalLen: nat
    var patchFragCnt: byte
    var patchFragIdx: byte
    var patchFragLen: byte
    var patchFragTail: byte
    var outcome: Outcome

    /** The commands handed to the transmit callback. */
    var sent: seq<seq<byte>>

    ghost predicate Sized()
      reads this, totalBuf
    {
      && 0 < totalBuf.Length <= MAX_PATCH_SIZE
      && patchFragCnt as int == FragCount(totalBuf.Length)
      && (patchFragCnt as int - 1) * PATCH_DATA_FIELD_MAX_SIZE + patchFragTail == totalBuf.Length
      && 0 < patchFragTail <= PATCH_DATA_FIELD_MAX_SIZE
      && |sent| <= patchFragCnt && sent == Commands(totalBuf[..], |sent|)
    }

    /** A fragment is on its way, and nothing has ended the exchange. */
    ghost predicate InFlight()
      reads this, totalBuf
    {
      && Sized() && outcome == Waiting && patchFragIdx < patchFragCnt && |sent| == patchFragIdx as int + 1
      && (patchFragIdx as int + 1 == patchFragCnt as int ==> patchFragLen == patchFragTail)
    }

    constructor (total: array<byte>)
      ensures totalBuf == total && sent == [] && outcome == Waiting && totalLen == total.Length && patchFragIdx == 0
    {
      totalBuf, totalLen := total, total.Length;
      patchFragCnt, patchFragIdx, patchFragLen, patchFragTail := 0, 0, 0, 0;
      outcome, sent := Waiting, [];
    }

    /** The sizes in HW_CFG_START. A count of fragments in one byte is enough for every image that
        passes the size check. */
    method Prepare(maxPatchSize: nat) returns (proceeding: bool)
      requires totalLen == totalBuf.Length && sent == [] && outcome == Waiting && patchFragIdx == 0
      requires maxPatchSize <= MAX_PATCH_SIZE
      modifies this
      ensures proceeding <==> 0 < totalBuf.Length <= maxPatchSize
      ensures proceeding ==> Sized() && outcome == Waiting
      ensures !proceeding ==> outcome == Aborted
      ensures sent == [] && patchFragIdx == 0
    {
      if totalLen > maxPatchSize || totalLen == 0 {
        outcome := Aborted;
        return false;
      }
      var cnt := totalLen / PATCH_DATA_FIELD_MAX_SIZE % 256;
      patchFragTail := totalLen % PATCH_DATA_FIELD_MAX_SIZE;
      if patchFragTail != 0 {
        cnt := (cnt + 1) % 256;
      } else {
        patchFragTail := PATCH_DATA_FIELD_MAX_SIZE;
      }
      patchFragCnt := cnt;
      return true;
    }

    /** hci_download_patch_h4. A fragment that starts at the end of the buffer has no bytes to read. */
    method SendFragment(index: byte)
      requires Sized() && patchFragLen <= PATCH_DATA_FIELD_MAX_SIZE && outcome == Waiting
      modifies this`sent, this`outcome
      ensures var at, n := patchFragIdx as int * PATCH_DATA_FIELD_MAX_SIZE, patchFragLen as int;
        if at + n <= totalBuf.Length
        then
          && outcome == Waiting && sent == old(sent) + [Command(index, totalBuf[at..at + n])]
          && sent == old(sent) + [[0x20, 0xfc, (1 + n) as byte, index] + totalBuf[at..at + n]]
        else outcome == Overread && sent == old(sent)
    {
      var at := patchFragIdx as int * PATCH_DATA_FIELD_MAX_SIZE;
      var n: nat := patchFragLen;
      if at + n <= totalBuf.Length {
        var len: byte := 1 + n;
        sent := sent + [[0x20, 0xfc, len, index] + totalBuf[at..at + n]];
      } else {
        outcome := Overread;
      }
    }

    /** The state HW_CFG_DL_FW_PATCH after the reply has been looked at. */
    method SendNext(reply: byte)
      requires Sized() && outcome == Waiting && |sent| == patchFragIdx as int <= patchFragCnt as int
      requires patchFragIdx == patchFragCnt ==> patchFragLen == patchFragTail
      modifies this
      ensures patchFragIdx == old(patchFragIdx) && patchFragCnt == old(patchFragCnt)
      ensures old(patchFragIdx < patchFragCnt) ==> InFlight()
      ensures old(patchFragIdx == patchFragCnt) ==> Sized() && outcome == Overread && sent == old(sent)
    {
      var index := reply;
      ghost var k, count := patchFragIdx as int, patchFragCnt as int;
      if patchFragIdx < patchFragCnt {
        index := if patchFragIdx != 0 then (patchFragIdx - 1) % 0x7f + 1 else 0;
        if patchFragIdx == patchFragCnt - 1 {
          index := index + 0x80;
          patchFragLen := patchFragTail;
        } else {
          patchFragLen := PATCH_DATA_FIELD_MAX_SIZE;
        }
        assert index == FragIndex(k, count);
        SendFragment(index);
      } else {
        SendFragment(index);
      }
    }

    /** The first pass through HW_CFG_DL_FW_PATCH. */
    method Start()
      requires Sized() && outcome == Waiting && sent == [] && patchFragIdx == 0
      modifies this
      ensures InFlight() && patchFragIdx == 0
    {
      SendNext(0);
    }

    /** hw_config_cback on the Command Complete for a download command. */
    method OnReply(r: Reply)
      requires InFlight()
      modifies this
      ensures Sized()
      ensures r.status != 0 ==> outcome == Aborted && sent == old(sent)
      ensures r.status == 0 && r.index >= 128 ==> outcome == Completed && sent == old(sent)
      ensures !Ends(r) && old(|sent|) < FragCount(totalBuf.Length) ==> InFlight() && |sent| == old(|sent|) + 1
      ensures !Ends(r) && old(|sent|) == FragCount(totalBuf.Length) ==> outcome == Overread && sent == old(sent)
    {
      if r.status != 0 {
        outcome := Aborted;
        return;
      }
      patchFragIdx := (patchFragIdx + 1) % 256;
      if r.index >= 0x80 {
        totalLen := 0;
        outcome := Completed;
        return;
      }
      SendNext(r.index);
    }

    /** The exchange with a controller that sends `replies`. */
    method Exchange(replies: seq<Reply>) returns (used: nat)
      requires Sized() && outcome == Waiting && sent == [] && patchFragIdx == 0
      modifies this
      ensures Sized()
      ensures var end, count := FirstEnd(replies), FragCount(totalBuf.Length);
        if end < count && end < |replies| then
          |sent| == end + 1 && outcome == if replies[end].status != 0 then Aborted else Completed
        else if count <= |replies| then |sent| == count && outcome == Overread
        else |sent| == |replies| + 1 && outcome == Waiting
    {
      Start();
      used := 0;
      while used < |replies| && outcome == Waiting
        invariant used <= |replies| && Sized()
        invariant outcome == Waiting ==> InFlight() && |sent| == used + 1 && used <= FirstEnd(replies)
        invariant outcome == Overread ==>
          used == |sent| == FragCount(totalBuf.Length) && used <= FirstEnd(replies)
        invariant outcome == Aborted || outcome == Completed ==>
          used == |sent| == FirstEnd(replies) + 1
          && outcome == if replies[used - 1].status != 0 then Aborted else Completed
      {
        OnReply(replies[used]);
        used := used + 1;
      }
    }

    /** With a controller that echoes the index, every fragment of the image is sent once, in order,
        and then the exchange is over. */
    method RunWithEcho(maxPatchSize: nat) returns (ok: bool)
      requires totalLen == totalBuf.Length && sent == [] && outcome == Waiting && patchFragIdx == 0
      requires maxPatchSize <= MAX_PATCH_SIZE
      modifies this
      ensures ok <==> 0 < totalBuf.Length <= maxPatchSize
      ensures ok ==> outcome == Completed && sent == Commands(totalBuf[..], FragCount(totalBuf.Length))
      ensures !ok ==> outcome == Aborted && sent == []
    {
      ok := Prepare(maxPatchSize);
      if ok {
        EchoEnds(FragCount(totalBuf.Length));
        var _ := Exchange(Echo(FragCount(totalBuf.Length)));
      }
    }
  }
}
