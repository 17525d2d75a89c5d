/** Opening DTLS records: header checks, epoch filter, replay window, decryption. */
module RecordReader {
  import opened Bytes
  import opened RecordNumbers
  import opened ReplayWindow

  const RT_ALERT: byte := 21
  const MAX_ENCRYPTED_LENGTH: nat := 16384 + 64 + 256
  const DTLS1_VERSION_MAJOR: byte := 0xfe

  datatype OpenResult =
    | CloseNotify
    | NeedMore
    | Discard
    | Error
    | Alert(body: seq<byte>)
    | Success(recordType: byte, plaintext: seq<byte>)

  /** A record header with the ciphertext that follows it. */
  datatype WireRecord = WireRecord(recordType: byte, version: uint16, sequence: seq<byte>, body: seq<byte>)

  function DecodeRecord(s: seq<byte>): (r: Option<WireRecord>)
    ensures r.Some? ==> |r.value.sequence| == 8 && |s| >= RT_HEADER_LENGTH + |r.value.body|
  {
    if |s| < RT_HEADER_LENGTH then None
    else
      var len := GetU16(s[11], s[12]);
      if |s| < RT_HEADER_LENGTH + len || len > MAX_ENCRYPTED_LENGTH then None
      else Some(WireRecord(s[0], GetU16(s[1], s[2]), s[3..11], s[RT_HEADER_LENGTH..RT_HEADER_LENGTH + len]))
  }

  /** The epoch and 48-bit number carried in the eight sequence bytes. */
  function NumberOf(sequence: seq<byte>): RecordNumber
    requires |sequence| == 8
  {
    RecordNumber(GetU16(sequence[0], sequence[1]), BigEndian(sequence[2..]))
  }

  /** The 64-bit value the replay window works on. */
  function Value(r: RecordNumber): nat {
    r.epoch * Pow256(6) + r.num
  }

  lemma ScaleSum(hi: nat, p: nat, lo: nat, c: nat)
    ensures (hi * p + lo) * c == hi * (p * c) + lo * c
  {
  }

  lemma {:induction false} BigEndianSplit(s: seq<byte>, k: nat)
    requires k <= |s|
    ensures BigEndian(s) == BigEndian(s[..k]) * Pow256(|s| - k) + BigEndian(s[k..])
    decreases |s| - k
  {
    if k == |s| {
      assert s[..k] == s;
    } else {
      var init := s[..|s| - 1];
      BigEndianSplit(init, k);
      assert init[..k] == s[..k];
      assert s[k..][..|s| - k - 1] == init[k..];
      ScaleSum(BigEndian(s[..k]), Pow256(|init| - k), BigEndian(init[k..]), 0x100);
    }
  }

  lemma BigEndianTwo(s: seq<byte>)
    requires |s| == 2
    ensures BigEndian(s) == GetU16(s[0], s[1])
  {
    assert s[..1][..0] == [];
    assert BigEndian(s[..1]) == s[..1][0];
  }

  lemma SequenceValue(sequence: seq<byte>)
    requires |sequence| == 8
    ensures BigEndian(sequence) == Value(NumberOf(sequence))
  {
    BigEndianSplit(sequence, 2);
    BigEndianTwo(sequence[..2]);
  }

  /** to_u64_be */
  method ToU64BE(s: seq<byte>) returns (ret: nat)
    requires |s| == 8
    ensures ret == BigEndian(s)
  {
    ret := 0;
    var i := 0;
    while i < 8
      invariant 0 <= i <= 8 && ret == BigEndian(s[..i])
    {
      assert s[..i + 1][..i] == s[..i];
      ret := ret * 0x100 + s[i];
      i := i + 1;
    }
    assert s[..8] == s;
  }

  class Reader {
    var rEpoch: uint16
    const bitmap: Bitmap
    /** numbers of the records let through so far, in order */
    ghost var accepted: seq<RecordNumber>
    /** the 16-bit epoch has not wrapped */
    ghost var intact: bool

    ghost predicate Valid()
      reads this, bitmap
    {
      && bitmap.Valid()
      && (intact ==>
            && Distinct(accepted)
            && forall k | 0 <= k < |accepted| ::
                 accepted[k].epoch < rEpoch || (accepted[k].epoch == rEpoch && Value(accepted[k]) in bitmap.seen))
    }

    constructor ()
      ensures Valid() && fresh(bitmap) && rEpoch == 0 && accepted == [] && intact && bitmap.seen == {}
    {
      rEpoch, accepted, intact := 0, [], true;
      bitmap := new Bitmap();
    }

    /** Header and version checks that drop the whole packet. */
    static predicate Malformed(packet: seq<byte>, nullCipher: bool, recordVersion: uint16) {
      match DecodeRecord(packet)
      case None => true
      case Some(rec) => if nullCipher then rec.version / 0x100 != DTLS1_VERSION_MAJOR else rec.version != recordVersion
    }

    /**
     * dtls_open_record. `decrypted` is what the AEAD's Open would return for
     * this record. A record is let through, and the window changed, exactly
     * when it is well formed, of the current epoch, not refused by the ideal
     * window, authentic and not oversized.
     */
    method Open(packet: seq<byte>, readShutdown: bool, nullCipher: bool, recordVersion: uint16,
                decrypted: Option<seq<byte>>) returns (result: OpenResult, consumed: nat)
      requires Valid()
      modifies this`accepted, bitmap
      ensures Valid() && consumed <= |packet|
      ensures var through := result.Alert? || result.Success?;
              && (through ==> DecodeRecord(packet).Some?)
              && (through <==>
                    && !readShutdown && packet != [] && !Malformed(packet, nullCipher, recordVersion)
                    && (var number := NumberOf(DecodeRecord(packet).value.sequence);
                        number.epoch == rEpoch && !MustDiscard(old(bitmap.seen), old(bitmap.maxSeqNum), Value(number)))
                    && decrypted.Some? && |decrypted.value| <= MAX_PLAIN)
              && (through ==>
                    var number := NumberOf(DecodeRecord(packet).value.sequence);
                    && accepted == old(accepted) + [number]
                    && bitmap.seen == old(bitmap.seen) + {Value(number)}
                    && (intact ==> number !in old(accepted)))
              && (!through ==> accepted == old(accepted) && bitmap.seen == old(bitmap.seen))
      ensures result.Success? ==> decrypted == Some(result.plaintext) && result.recordType == DecodeRecord(packet).value.recordType
    {
      if readShutdown {
        return CloseNotify, 0;
      }
      if packet == [] {
        return NeedMore, 0;
      }
      var decoded := DecodeRecord(packet);
      if decoded.None? {
        return Discard, |packet|;
      }
      var rec := decoded.value;
      var versionOk := if nullCipher then rec.version / 0x100 == DTLS1_VERSION_MAJOR else rec.version == recordVersion;
      if !versionOk {
        return Discard, |packet|;
      }
      consumed := RT_HEADER_LENGTH + |rec.body|;
      var epoch := GetU16(rec.sequence[0], rec.sequence[1]);
      var n := ToU64BE(rec.sequence);
      SequenceValue(rec.sequence);
      var stale := bitmap.ShouldDiscard(n);
      if epoch != rEpoch || stale {
        return Discard, consumed;
      }
      if decrypted.None? {
        return Discard, consumed;
      }
      if |decrypted.value| > MAX_PLAIN {
        return Error, consumed;
      }
      bitmap.Record(n);
      accepted := accepted + [NumberOf(rec.sequence)];
      if rec.recordType == RT_ALERT {
        return Alert(decrypted.value), consumed;
      }
      return Success(rec.recordType, decrypted.value), consumed;
    }

    /**
     * dtls1_set_read_state, for this half: refused exactly while handshake data
     * is unprocessed; otherwise a new epoch begins with an empty window.
     */
    method SetReadState(unprocessed: bool) returns (ok: bool)
      requires Valid()
      modifies this`rEpoch, this`intact, bitmap
      ensures Valid() && accepted == old(accepted) && (ok <==> !unprocessed)
      ensures rEpoch == if ok then (old(rEpoch) + 1) % 0x1_0000 else old(rEpoch)
      ensures intact <==> old(intact) && (ok ==> rEpoch != 0)
      ensures bitmap.seen == if ok then {} else old(bitmap.seen)
    {
      if unprocessed {
        return false;
      }
      intact := intact && rEpoch != 0xffff;
      rEpoch := (rEpoch + 1) % 0x1_0000;
      bitmap.Reset();
      return true;
    }
  }
}
