/**
 * Reassembly of one handshake message from fragments that may overlap, repeat
 * and arrive in any order. The bitmask over bytes refines a partial map from
 * offsets to bytes.
 */
module Reassembly {
  import opened Bytes
  import opened BitMask
  import opened HandshakeHeader

  /** A message in assembly: the bytes received so far, by offset in the body. */
  datatype Partial = Partial(msgType: byte, seqNo: uint16, msgLen: uint24, got: map<nat, byte>)

  ghost predicate Complete(p: Partial) {
    forall i: nat | i < p.msgLen :: i in p.got
  }

  predicate Within(off: nat, len: nat, i: nat) {
    off <= i < off + len
  }

  ghost function Slice(off: nat, body: seq<byte>): (m: map<nat, byte>)
    ensures forall i: nat :: i in m <==> off <= i < off + |body|
    ensures forall i: nat | i in m :: m[i] == body[i - off]
  {
    map i: nat | off <= i < off + |body| && Within(off, |body|, i) :: body[i - off]
  }

  lemma MergeIsUnion(before: map<nat, byte>, after: map<nat, byte>, off: nat, body: seq<byte>)
    requires forall i: nat :: i in after <==> i in before || off <= i < off + |body|
    requires forall i: nat | i in after :: after[i] == if off <= i < off + |body| then body[i - off] else before[i]
    ensures after == before + Slice(off, body)
  {
  }

  /** A complete message ignores further fragments; otherwise the newest bytes win. */
  ghost function AddSlice(p: Partial, off: nat, body: seq<byte>): Partial {
    if Complete(p) then p else p.(got := p.got + Slice(off, body))
  }

  /** The body of a complete message. */
  ghost function Body(p: Partial): (b: seq<byte>)
    requires Complete(p)
    ensures |b| == p.msgLen
  {
    seq(p.msgLen, i requires 0 <= i < p.msgLen => p.got[i])
  }

  /** A range of body bytes, as one fragment claims it. */
  datatype Range = Range(off: nat, len: nat)

  ghost predicate InBounds(ranges: seq<Range>, n: nat) {
    forall r | r in ranges :: r.off + r.len <= n
  }

  /** Byte i lies in one of the ranges. */
  ghost predicate Covered(ranges: seq<Range>, i: nat) {
    ranges != [] && (ranges[0].off <= i < ranges[0].off + ranges[0].len || Covered(ranges[1..], i))
  }

  /** All bytes received so far are the body's own. */
  ghost predicate Agrees(p: Partial, body: seq<byte>) {
    p.msgLen == |body| && forall i: nat | i in p.got :: i < |body| && p.got[i] == body[i]
  }

  /** Fragments of one body, added in the given order. */
  ghost function AddAll(p: Partial, body: seq<byte>, ranges: seq<Range>): Partial
    requires InBounds(ranges, |body|)
    decreases |ranges|
  {
    if ranges == [] then p
    else AddAll(AddSlice(p, ranges[0].off, body[ranges[0].off..ranges[0].off + ranges[0].len]), body, ranges[1..])
  }

  lemma AddSliceAgrees(p: Partial, body: seq<byte>, off: nat, len: nat)
    requires Agrees(p, body) && off + len <= |body|
    ensures var q := AddSlice(p, off, body[off..off + len]);
            && Agrees(q, body)
            && q.msgType == p.msgType && q.seqNo == p.seqNo
            && forall i: nat | i < |body| :: i in q.got <==> i in p.got || off <= i < off + len
  {
  }

  lemma CompleteIsBody(p: Partial, body: seq<byte>)
    requires Agrees(p, body) && Complete(p)
    ensures Body(p) == body
  {
  }

  lemma {:induction false} AddAllHas(p: Partial, body: seq<byte>, ranges: seq<Range>, i: nat)
    requires Agrees(p, body) && InBounds(ranges, |body|) && i < |body|
    ensures i in AddAll(p, body, ranges).got <==> i in p.got || Covered(ranges, i)
    decreases |ranges|
  {
    if ranges != [] {
      var r := ranges[0];
      AddSliceAgrees(p, body, r.off, r.len);
      AddAllHas(AddSlice(p, r.off, body[r.off..r.off + r.len]), body, ranges[1..], i);
    }
  }

  lemma {:induction false} AddAllAgrees(p: Partial, body: seq<byte>, ranges: seq<Range>)
    requires Agrees(p, body) && InBounds(ranges, |body|)
    ensures Agrees(AddAll(p, body, ranges), body)
    decreases |ranges|
  {
    if ranges != [] {
      var r := ranges[0];
      AddSliceAgrees(p, body, r.off, r.len);
      AddAllAgrees(AddSlice(p, r.off, body[r.off..r.off + r.len]), body, ranges[1..]);
    }
  }

  /**
   * For any order, overlap and duplication, slices of one body assemble to it
   * exactly when they cover it.
   */
  lemma AssemblesExactly(p: Partial, body: seq<byte>, ranges: seq<Range>)
    requires Agrees(p, body) && InBounds(ranges, |body|)
    ensures var q := AddAll(p, body, ranges);
            && (Complete(q) <==> forall i: nat | i < |body| :: i in p.got || Covered(ranges, i))
            && (Complete(q) ==> Body(q) == body)
  {
    var q := AddAll(p, body, ranges);
    AddAllAgrees(p, body, ranges);
    forall i: nat | i < |body| ensures i in q.got <==> i in p.got || Covered(ranges, i) {
      AddAllHas(p, body, ranges, i);
    }
    if Complete(q) {
      CompleteIsBody(q, body);
    }
  }

  predicate BitAt(mask: seq<bv8>, i: nat) {
    i / 8 < |mask| && Bit(mask[i / 8], i % 8)
  }

  ghost predicate Marks(before: seq<bv8>, after: seq<bv8>, start: nat, end: nat) {
    |after| == |before| && forall i: nat :: BitAt(after, i) <==> BitAt(before, i) || start <= i < end
  }

  lemma MarksCompose(m0: seq<bv8>, m1: seq<bv8>, m2: seq<bv8>, a: nat, b: nat, c: nat)
    requires a <= b <= c && Marks(m0, m1, a, b) && Marks(m1, m2, b, c)
    ensures Marks(m0, m2, a, c)
  {
    forall i: nat ensures BitAt(m2, i) <==> BitAt(m0, i) || a <= i < c {
      assert BitAt(m1, i) <==> BitAt(m0, i) || a <= i < b;
    }
  }

  method OrRange(mask: array<bv8>, j: nat, lo: nat, hi: nat)
    requires j < mask.Length && lo < 8 && hi <= 8
    modifies mask
    ensures Marks(old(mask[..]), mask[..], 8 * j + lo, 8 * j + hi)
  {
    ghost var m, range := mask[..], BitRange(lo, hi);
    mask[j] := mask[j] | BitRange(lo, hi);
    forall i: nat ensures BitAt(mask[..], i) <==> BitAt(m, i) || 8 * j + lo <= i < 8 * j + hi {
      if i / 8 == j {
        BitOr(m[j], range, i % 8);
        BitRangeBits(lo, hi, i % 8);
      }
    }
  }

  method Fill(mask: array<bv8>, j: nat)
    requires j < mask.Length
    modifies mask
    ensures Marks(old(mask[..]), mask[..], 8 * j, 8 * j + 8)
  {
    mask[j] := 0xff;
    BitFull(0xff);
  }

  /** The first half of dtls1_hm_fragment_mark: set bits start to end of the mask. */
  method SetRange(mask: array<bv8>, start: nat, end: nat)
    requires start < end <= 8 * mask.Length
    modifies mask
    ensures Marks(old(mask[..]), mask[..], start, end)
  {
    ghost var m0 := mask[..];
    if start / 8 == end / 8 {
      OrRange(mask, start / 8, start % 8, end % 8);
    } else {
      OrRange(mask, start / 8, start % 8, 8);
      var j := start / 8 + 1;
      while j < end / 8
        invariant start < 8 * j && j <= end / 8
        invariant Marks(m0, mask[..], start, 8 * j)
      {
        ghost var m := mask[..];
        Fill(mask, j);
        MarksCompose(m0, m, mask[..], start, 8 * j, 8 * j + 8);
        j := j + 1;
      }
      if end % 8 != 0 {
        ghost var m := mask[..];
        OrRange(mask, end / 8, 0, end % 8);
        MarksCompose(m0, m, mask[..], start, 8 * j, end);
      }
    }
  }

  /** Bits at or above n are clear. */
  ghost predicate ClearAbove(mask: seq<bv8>, n: nat) {
    forall i: nat | n <= i :: !BitAt(mask, i)
  }

  /** The second half of dtls1_hm_fragment_mark: is every byte of the message marked? */
  method AllMarked(mask: array<bv8>, n: nat) returns (full: bool)
    requires mask.Length == (n + 7) / 8
    requires ClearAbove(mask[..], n)
    ensures full <==> forall i: nat | i < n :: BitAt(mask[..], i)
  {
    var j := 0;
    while j < n / 8
      invariant 0 <= j <= n / 8
      invariant forall i: nat | i < 8 * j :: BitAt(mask[..], i)
    {
      BitFull(mask[j]);
      if mask[j] != 0xff {
        ghost var k: nat :| k < 8 && !Bit(mask[j], k);
        assert !BitAt(mask[..], 8 * j + k);
        return false;
      }
      j := j + 1;
    }
    if n % 8 != 0 {
      var range := BitRange(0, n % 8);
      LowBits(n % 8);
      LastByte(mask[..], n, range);
      return mask[n / 8] == range;
    }
    return true;
  }

  lemma LowBits(n: nat)
    requires n < 8
    ensures forall k: nat | k < 8 :: Bit(BitRange(0, n), k) <==> k < n
  {
    forall k: nat | k < 8 ensures Bit(BitRange(0, n), k) <==> k < n {
      BitRangeBits(0, n, k);
    }
  }

  /** The last, partial byte is all there exactly when it equals the full range r. */
  lemma LastByte(mask: seq<bv8>, n: nat, r: bv8)
    requires n % 8 != 0 && |mask| == n / 8 + 1
    requires ClearAbove(mask, n)
    requires forall k: nat | k < 8 :: Bit(r, k) <==> k < n % 8
    ensures mask[n / 8] == r <==> forall i: nat | 8 * (n / 8) <= i < n :: BitAt(mask, i)
  {
    var b := mask[n / 8];
    forall k: nat | k < 8 ensures Bit(b, k) == BitAt(mask, 8 * (n / 8) + k) {
      assert (8 * (n / 8) + k) / 8 == n / 8;
    }
    if forall i: nat | 8 * (n / 8) <= i < n :: BitAt(mask, i) {
      BitsDetermine(b, r);
    }
  }

  /** hm_fragment: a message buffer with its header filled in and a mask of received bytes. */
  class HmFragment {
    const msgType: byte
    const seqNo: uint16
    const msgLen: uint24
    const data: array<byte>
    /** null once the message is complete */
    var reassembly: array?<bv8>
    /** The abstract message this object stands for. */
    ghost var model: Partial
    ghost const Repr: set<object>

    ghost predicate Received(i: nat)
      reads this`reassembly, reassembly
    {
      reassembly == null || BitAt(reassembly[..], i)
    }

    /** Byte i of the body buffer. */
    ghost function At(i: nat): byte
      reads data
      requires HM_HEADER_LENGTH + i < data.Length
    {
      data[HM_HEADER_LENGTH + i]
    }

    /** Offsets whose bit is set, with the bytes stored there. */
    ghost function Contents(): (p: Partial)
      reads this`reassembly, data, reassembly
      requires data.Length == HM_HEADER_LENGTH + msgLen
    {
      Partial(msgType, seqNo, msgLen, map i: nat | i < msgLen && Received(i) :: At(i))
    }

    lemma DoneIsComplete()
      requires Valid()
      ensures reassembly == null <==> Complete(model)
    {
      assert forall i: nat {:trigger i in model.got} {:trigger Received(i)} | i < msgLen :: i in model.got <==> Received(i);
    }

    ghost predicate Valid()
      reads this, Repr
    {
      && this in Repr && data in Repr && (reassembly != null ==> reassembly in Repr)
      && MaskValid() && model == Contents()
    }

    constructor (h: Header)
      ensures Valid() && fresh(Repr)
      ensures model == Partial(h.msgType, h.seqNo, h.msgLen, map[])
      ensures reassembly == null <==> h.msgLen == 0
    {
      msgType, seqNo, msgLen := h.msgType, h.seqNo, h.msgLen;
      var hdr := EncodeHeader(Header(h.msgType, h.msgLen, h.seqNo, 0, h.msgLen));
      var buffer := new byte[HM_HEADER_LENGTH + h.msgLen](i => if 0 <= i < |hdr| then hdr[i] else 0);
      data := buffer;
      if h.msgLen > 0 {
        var mask := new bv8[(h.msgLen + 7) / 8](_ => 0);
        reassembly := mask;
        Repr := {this, buffer, mask};
      } else {
        reassembly := null;
        Repr := {this, buffer};
      }
      model := Partial(h.msgType, h.seqNo, h.msgLen, map[]);
      new;
      assert data[..HM_HEADER_LENGTH] == hdr;
      if reassembly != null {
        assert forall i: nat :: !Received(i);
        assert !Received(0);
      }
    }

    /** The copy and mark steps of dtls1_open_handshake for one fragment within bounds. */
    method Store(off: nat, body: seq<byte>)
      requires Valid() && reassembly != null
      requires off + |body| <= msgLen
      modifies Repr
      ensures Valid() && model == AddSlice(old(model), off, body)
    {
      DoneIsComplete();
      CopyBody(off, body);
      Mark(off, off + |body|);
      model := Contents();
      MergeIsUnion(old(model).got, model.got, off, body);
    }

    ghost predicate MaskValid()
      reads this`reassembly, data, reassembly
    {
      && data.Length == HM_HEADER_LENGTH + msgLen
      && data[..HM_HEADER_LENGTH] == EncodeHeader(Header(msgType, msgLen, seqNo, 0, msgLen))
      && (reassembly != null ==>
            && reassembly as object != data
            && reassembly.Length == (msgLen + 7) / 8
            && ClearAbove(reassembly[..], msgLen)
            && (exists i: nat :: i < msgLen && !Received(i)))
    }

    method CopyBody(off: nat, body: seq<byte>)
      requires MaskValid() && reassembly != null
      requires off + |body| <= msgLen
      modifies data
      ensures MaskValid()
      ensures forall i: nat | i < msgLen :: At(i) == if off <= i < off + |body| then body[i - off] else old(At(i))
      ensures forall i: nat | i < msgLen :: Received(i) == old(Received(i))
    {
      ghost var header, mask := data[..HM_HEADER_LENGTH], reassembly[..];
      ghost var missing: nat :| missing < msgLen && !Received(missing);
      forall i | 0 <= i < |body| {
        data[HM_HEADER_LENGTH + off + i] := body[i];
      }
      assert data[..HM_HEADER_LENGTH] == header;
      assert reassembly[..] == mask;
      assert !Received(missing);
    }

    /** dtls1_hm_fragment_mark: exactly the bytes start to end become received. */
    method Mark(start: nat, end: nat)
      requires MaskValid() && reassembly != null
      requires start <= end <= msgLen
      modifies this`reassembly, reassembly
      ensures MaskValid()
      ensures forall i: nat | i < msgLen :: Received(i) <==> old(Received(i)) || start <= i < end
      ensures reassembly == null || reassembly == old(reassembly)
      ensures reassembly == null <==> forall i: nat | i < msgLen :: Received(i)
    {
      if start == end {
        return;
      }
      ghost var mask := reassembly[..];
      SetRange(reassembly, start, end);
      var full := AllMarked(reassembly, msgLen);
      if full {
        forall i: nat | i < msgLen ensures old(Received(i)) || start <= i < end {
          assert BitAt(reassembly[..], i);
        }
        reassembly := null;
      } else {
        ghost var missing: nat :| missing < msgLen && !BitAt(reassembly[..], missing);
        assert !Received(missing);
      }
    }
  }
}
