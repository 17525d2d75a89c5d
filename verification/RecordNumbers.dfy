/**
 * Outgoing DTLS record numbers: a 16-bit epoch and a 48-bit big-endian counter
 * per epoch, of which the current and the previous epoch stay writable.
 */
module RecordNumbers {
  import opened Bytes

  /** DTLS1_RT_HEADER_LENGTH */
  const RT_HEADER_LENGTH: nat := 13

  datatype RecordNumber = RecordNumber(epoch: uint16, num: nat)

  /** Adding one with carry from the right, dropping a carry out of the left end. */
  function Increment(s: seq<byte>): (r: seq<byte>)
    ensures |r| == |s|
  {
    if s == [] then []
    else
      var init, last := s[..|s| - 1], s[|s| - 1];
      if last == 0xff then Increment(init) + [0] else init + [last + 1]
  }

  lemma {:induction false} IncrementAddsOne(s: seq<byte>)
    ensures BigEndian(Increment(s)) == if BigEndian(s) + 1 == Pow256(|s|) then 0 else BigEndian(s) + 1
  {
    if s != [] {
      var init, last := s[..|s| - 1], s[|s| - 1];
      IncrementAddsOne(init);
      BigEndianBound(init);
      assert Increment(s)[..|s| - 1] == if last == 0xff then Increment(init) else init;
    }
  }

  lemma {:induction false} ZeroIffAllZero(s: seq<byte>)
    ensures BigEndian(s) == 0 <==> forall i | 0 <= i < |s| :: s[i] == 0
  {
    if s != [] {
      ZeroIffAllZero(s[..|s| - 1]);
    }
  }

  /** ssl_record_sequence_update on the last six of the eight bytes; false reports a wrap. */
  method SequenceUpdate(s: array<byte>) returns (ok: bool)
    requires s.Length == 8
    modifies s
    ensures s[..2] == old(s[..2])
    ensures s[2..] == Increment(old(s[2..]))
    ensures ok <==> exists i | 2 <= i < 8 :: s[i] != 0
  {
    ghost var before := s[..];
    var i := 7;
    assert before[2..8] == before[2..];
    while i >= 2
      invariant 1 <= i <= 7
      invariant s[..i + 1] == before[..i + 1]
      invariant forall j | i < j < 8 :: s[j] == 0
      invariant Increment(before[2..]) == Increment(before[2..i + 1]) + s[i + 1..]
    {
      assert before[2..i + 1] == before[2..i] + [before[i]];
      assert before[2..i + 1][..i - 2] == before[2..i];
      var bumped: int := s[i];
      bumped := bumped + 1;
      s[i] := bumped % 0x100;
      assert s[2..i] == before[2..i];
      if s[i] != 0 {
        assert s[2..] == s[2..i] + [s[i]] + s[i + 1..];
        return true;
      }
      i := i - 1;
    }
    return false;
  }

  /** What the update means for the counter. */
  lemma IncrementCounts(before: seq<byte>, after: seq<byte>)
    requires |before| == 6 && after == Increment(before)
    ensures (exists i | 0 <= i < 6 :: after[i] != 0) <==> BigEndian(before) + 1 != Pow256(6)
    ensures BigEndian(before) + 1 != Pow256(6) ==> BigEndian(after) == BigEndian(before) + 1
  {
    IncrementAddsOne(before);
    ZeroIffAllZero(after);
  }

  ghost predicate Distinct(s: seq<RecordNumber>) {
    forall i, j | 0 <= i < j < |s| :: s[i] != s[j]
  }

  /** The write half of the DTLS record layer's epoch and sequence state. */
  class RecordWriter {
    var wEpoch: uint16
    const writeSequence: array<byte>
    const lastWriteSequence: array<byte>
    /** numbers of all records reported as sealed, in order */
    ghost var used: seq<RecordNumber>
    /** no counter has wrapped so far */
    ghost var intact: bool

    ghost predicate Valid()
      reads this, writeSequence, lastWriteSequence
    {
      && writeSequence.Length == lastWriteSequence.Length == 8 && writeSequence != lastWriteSequence
      && (intact ==>
            && Distinct(used)
            && forall k | 0 <= k < |used| ::
                 || used[k].epoch + 1 < wEpoch
                 || (used[k].epoch + 1 == wEpoch && used[k].num < BigEndian(lastWriteSequence[2..]))
                 || (used[k].epoch == wEpoch && used[k].num < BigEndian(writeSequence[2..])))
    }

    constructor ()
      ensures Valid() && intact && used == [] && wEpoch == 0 && Number(writeSequence) == 0
      ensures fresh(writeSequence) && fresh(lastWriteSequence)
    {
      wEpoch, used, intact := 0, [], true;
      writeSequence := new byte[8](_ => 0);
      lastWriteSequence := new byte[8](_ => 0);
      new;
      ZeroIffAllZero(writeSequence[2..]);
    }

    /**
     * dtls_seal_record. The AEAD's success and ciphertext length come from
     * outside. While no counter has wrapped, a number is never handed out twice.
     */
    method Seal(usePrevious: bool, aeadOk: bool, ciphertextLen: nat) returns (r: Option<RecordNumber>)
      requires Valid()
      requires usePrevious ==> wEpoch >= 1
      modifies this`used, this`intact, writeSequence, lastWriteSequence
      ensures Valid() && wEpoch == old(wEpoch)
      ensures var next := old(Number(if usePrevious then lastWriteSequence else writeSequence));
              && (r.Some? <==> aeadOk && next + 1 != Pow256(6) && ciphertextLen < 0x1_0000)
              && (intact <==> old(intact) && !(aeadOk && next + 1 == Pow256(6)))
              && (r.Some? ==> r.value == RecordNumber(if usePrevious then wEpoch - 1 else wEpoch, next))
      ensures used == if r.Some? then old(used) + [r.value] else old(used)
      ensures r.Some? && old(intact) ==> r.value !in old(used)
    {
      var epoch := if usePrevious then wEpoch - 1 else wEpoch;
      var sequence := if usePrevious then lastWriteSequence else writeSequence;
      ghost var num := BigEndian(sequence[2..]);
      ghost var cur, last := BigEndian(writeSequence[2..]), BigEndian(lastWriteSequence[2..]);
      if !aeadOk {
        return None;
      }
      var number := RecordNumber(epoch, Number(sequence));
      ghost var before := sequence[2..];
      var moved := SequenceUpdate(sequence);
      IncrementCounts(before, sequence[2..]);
      assert forall i | 0 <= i < 6 :: sequence[2..][i] == sequence[i + 2];
      if !moved {
        intact := false;
        return None;
      }
      assert BigEndian(writeSequence[2..]) == if usePrevious then cur else cur + 1;
      assert BigEndian(lastWriteSequence[2..]) == if usePrevious then last + 1 else last;
      if ciphertextLen >= 0x1_0000 {
        return None;
      }
      assert intact ==> number !in used;
      used := used + [number];
      return Some(number);
    }

    function Number(s: array<byte>): nat
      requires s.Length == 8
      reads s
    {
      BigEndian(s[2..])
    }

    /** dtls1_set_write_state: the counters shift down one epoch. */
    method SetWriteState()
      requires Valid()
      modifies this, writeSequence, lastWriteSequence
      ensures Valid() && used == old(used)
      ensures wEpoch == (old(wEpoch) + 1) % 0x1_0000
      ensures intact == (old(intact) && wEpoch != 0)
    {
      ghost var cur := writeSequence[2..];
      intact := intact && wEpoch != 0xffff;
      wEpoch := (wEpoch + 1) % 0x1_0000;
      forall i | 0 <= i < 8 {
        lastWriteSequence[i] := writeSequence[i];
      }
      forall i | 0 <= i < 8 {
        writeSequence[i] := 0;
      }
      assert lastWriteSequence[2..] == cur;
    }
  }
}
