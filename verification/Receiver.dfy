/**
 * Receiving handshake messages: a seven-slot ring of messages in assembly,
 * indexed by message number modulo seven.
 */
module Receiver {
  import opened Bytes
  import opened HandshakeHeader
  import opened Reassembly

  const RT_CHANGE_CIPHER_SPEC: byte := 20
  const RT_HANDSHAKE: byte := 22
  const RT_APPLICATION_DATA: byte := 23
  const MT_CCS: byte := 1

  datatype OpenStatus = Opened | Dropped | Refused

  datatype Ring = Ring(readSeq: uint16, epoch: uint16, slots: seq<Option<Partial>>)

  /** One fragment or record either goes through or is a fatal error. */
  datatype Outcome = Outcome(ok: bool, ring: Ring)

  /** Every occupied slot holds a message number in [readSeq, readSeq + 7) congruent to its index. */
  ghost predicate RingInv(r: Ring) {
    && |r.slots| == MAX_FLIGHT
    && forall i | 0 <= i < MAX_FLIGHT && r.slots[i].Some? ::
         var q := r.slots[i].value.seqNo; q % MAX_FLIGHT == i && r.readSeq <= q < r.readSeq + MAX_FLIGHT
  }

  /** Out of bounds for its message, or the message exceeds the limit. */
  predicate BadBounds(h: Header, maxLen: nat) {
    h.fragOff > h.msgLen || h.fragOff + h.fragLen > h.msgLen || h.msgLen > maxLen
  }

  /** From the past, or further ahead than the filter tolerates. */
  predicate Ignored(r: Ring, h: Header) {
    h.seqNo < r.readSeq || h.seqNo > r.readSeq + MAX_FLIGHT
  }

  /** A fragment that contradicts the message already in its slot. */
  predicate Mismatch(r: Ring, h: Header)
    requires |r.slots| == MAX_FLIGHT
  {
    var slot := r.slots[h.seqNo % MAX_FLIGHT];
    slot.Some? && (slot.value.msgType != h.msgType || slot.value.msgLen != h.msgLen)
  }

  /**
   * Fatal for this receiver. A fragment exactly seven ahead passes the filter
   * and is then rejected when its slot is looked up.
   */
  predicate Fatal(r: Ring, h: Header, maxLen: nat)
    requires |r.slots| == MAX_FLIGHT
  {
    || BadBounds(h, maxLen)
    || (r.epoch == 1 && h.seqNo != r.readSeq)
    || (!Ignored(r, h) && (h.seqNo == r.readSeq + MAX_FLIGHT || Mismatch(r, h)))
  }

  function SlotOrNew(r: Ring, h: Header): (p: Partial)
    requires |r.slots| == MAX_FLIGHT
  {
    match r.slots[h.seqNo % MAX_FLIGHT]
    case Some(p) => p
    case None => Partial(h.msgType, h.seqNo, h.msgLen, map[])
  }

  /** The effect of one parsed fragment. */
  ghost function TakeFragment(r: Ring, h: Header, body: seq<byte>, maxLen: nat): (o: Outcome)
    requires |r.slots| == MAX_FLIGHT
    ensures |o.ring.slots| == MAX_FLIGHT
  {
    if Fatal(r, h, maxLen) then Outcome(false, r)
    else if Ignored(r, h) then Outcome(true, r)
    else Outcome(true, r.(slots := r.slots[h.seqNo % MAX_FLIGHT := Some(AddSlice(SlotOrNew(r, h), h.fragOff, body))]))
  }

  /** The effect of a record: fragments in turn until the end or the first error. */
  ghost function TakeRecord(r: Ring, record: seq<byte>, maxLen: nat): (o: Outcome)
    requires |r.slots| == MAX_FLIGHT
    ensures |o.ring.slots| == MAX_FLIGHT
    decreases |record|
  {
    if record == [] then Outcome(true, r)
    else
      match ParseFragment(record)
      case None => Outcome(false, r)
      case Some(p) =>
        var o := TakeFragment(r, p.hdr, p.body, maxLen);
        if o.ok then TakeRecord(o.ring, p.rest, maxLen) else o
  }

  ghost predicate CurrentComplete(r: Ring)
    requires |r.slots| == MAX_FLIGHT
  {
    var slot := r.slots[r.readSeq % MAX_FLIGHT];
    slot.Some? && Complete(slot.value)
  }

  /** A slot is in use besides that of the message being processed. */
  ghost predicate Leftover(r: Ring, hasMessage: bool)
    requires |r.slots| == MAX_FLIGHT
  {
    exists i :: 0 <= i < MAX_FLIGHT && r.slots[i].Some? && !(hasMessage && i == r.readSeq % MAX_FLIGHT)
  }

  /** A complete message as the reader hands it on: header, then body. */
  ghost function Raw(p: Partial): seq<byte>
    requires Complete(p)
  {
    Serialize(p.msgType, p.seqNo, Body(p))
  }

  /** next_message: the slot is freed and the 16-bit number advances, wrapping. */
  ghost function Advance(r: Ring): Ring
    requires |r.slots| == MAX_FLIGHT
  {
    r.(slots := r.slots[r.readSeq % MAX_FLIGHT := None], readSeq := (r.readSeq + 1) % 0x1_0000)
  }

  /** The ring survives every fragment and every consumed message, including the 16-bit wrap. */
  lemma TakeFragmentKeepsRing(r: Ring, h: Header, body: seq<byte>, maxLen: nat)
    requires RingInv(r)
    ensures RingInv(TakeFragment(r, h, body, maxLen).ring)
  {
  }

  lemma {:induction false} TakeRecordKeepsRing(r: Ring, record: seq<byte>, maxLen: nat)
    requires RingInv(r)
    ensures RingInv(TakeRecord(r, record, maxLen).ring)
    decreases |record|
  {
    if record != [] && ParseFragment(record).Some? {
      var p := ParseFragment(record).value;
      var o := TakeFragment(r, p.hdr, p.body, maxLen);
      TakeFragmentKeepsRing(r, p.hdr, p.body, maxLen);
      if o.ok {
        TakeRecordKeepsRing(o.ring, p.rest, maxLen);
      }
    }
  }

  lemma AdvanceKeepsRing(r: Ring)
    requires RingInv(r)
    ensures RingInv(Advance(r))
  {
    var r' := Advance(r);
    forall i | 0 <= i < MAX_FLIGHT && r'.slots[i].Some?
      ensures var q := r'.slots[i].value.seqNo; q % MAX_FLIGHT == i && r'.readSeq <= q < r'.readSeq + MAX_FLIGHT
    {
      var q := r.slots[i].value.seqNo;
      assert i != r.readSeq % MAX_FLIGHT;
      assert q != r.readSeq;
    }
  }

  /** DTLS1_STATE's receiving half. The ghost ring is the abstract value of the slots. */
  class DtlsReceiver {
    var readSeq: uint16
    var epoch: uint16
    const incoming: array<HmFragment?>
    var hasMessage: bool
    var hasChangeCipherSpec: bool
    ghost var ring: Ring
    ghost var Repr: set<object>

    ghost predicate Valid()
      reads this, Repr
    {
      && this in Repr && incoming in Repr && incoming.Length == MAX_FLIGHT
      && ring.readSeq == readSeq && ring.epoch == epoch
      && RingInv(ring)
      && (forall i | 0 <= i < MAX_FLIGHT :: ring.slots[i].Some? <==> incoming[i] != null)
      && (forall i | 0 <= i < MAX_FLIGHT && incoming[i] != null :: Owned(incoming[i], ring.slots[i].value))
      && (forall i, j | 0 <= i < j < MAX_FLIGHT && incoming[i] != null && incoming[j] != null ::
            incoming[i].Repr !! incoming[j].Repr)
    }

    /** A slot's object belongs to this receiver alone and stands for p. */
    ghost predicate Owned(frag: HmFragment, p: Partial)
      reads this`Repr, Repr
    {
      && frag in Repr && frag.Repr <= Repr
      && this !in frag.Repr && incoming !in frag.Repr
      && frag.Valid() && frag.model == p
    }

    constructor ()
      ensures Valid() && fresh(Repr)
      ensures ring == Ring(0, 0, seq(MAX_FLIGHT, _ => None)) && !hasMessage && !hasChangeCipherSpec
    {
      readSeq, epoch, hasMessage, hasChangeCipherSpec := 0, 0, false, false;
      incoming := new HmFragment?[MAX_FLIGHT](_ => null);
      Repr := {this, incoming};
      ring := Ring(0, 0, seq(MAX_FLIGHT, _ => None));
    }

    /** dtls1_get_incoming_message: the slot's message, created on first use; null is an error. */
    method GetIncomingMessage(h: Header) returns (frag: HmFragment?)
      requires Valid() && h.seqNo >= readSeq
      modifies Repr
      ensures Valid() && fresh(Repr - old(Repr)) && hasMessage == old(hasMessage) && hasChangeCipherSpec == old(hasChangeCipherSpec)
      ensures frag == null <==> h.seqNo - readSeq >= MAX_FLIGHT || Mismatch(old(ring), h)
      ensures frag == null ==> ring == old(ring)
      ensures frag != null ==> frag == incoming[h.seqNo % MAX_FLIGHT]
      ensures frag != null ==>
        ring == old(ring).(slots := old(ring).slots[h.seqNo % MAX_FLIGHT := Some(SlotOrNew(old(ring), h))])
    {
      if h.seqNo < readSeq || h.seqNo - readSeq >= MAX_FLIGHT {
        return null;
      }
      var idx := h.seqNo % MAX_FLIGHT;
      frag := incoming[idx];
      if frag != null {
        if frag.msgType != h.msgType || frag.msgLen != h.msgLen {
          return null;
        }
        return frag;
      }
      frag := NewMessage(idx, h);
    }

    method NewMessage(idx: nat, h: Header) returns (frag: HmFragment)
      requires Valid() && idx == h.seqNo % MAX_FLIGHT && incoming[idx] == null
      requires readSeq <= h.seqNo < readSeq + MAX_FLIGHT
      modifies this, incoming
      ensures Valid() && fresh(Repr - old(Repr)) && hasMessage == old(hasMessage) && hasChangeCipherSpec == old(hasChangeCipherSpec)
      ensures frag == incoming[idx]
      ensures ring == old(ring).(slots := old(ring).slots[idx := Some(Partial(h.msgType, h.seqNo, h.msgLen, map[]))])
    {
      frag := new HmFragment(h);
      incoming[idx] := frag;
      ring := ring.(slots := ring.slots[idx := Some(frag.model)]);
      Repr := Repr + frag.Repr;
      forall j | 0 <= j < MAX_FLIGHT && j != idx && incoming[j] != null
        ensures Owned(incoming[j], ring.slots[j].value)
      {
        assert old(Owned(incoming[j], ring.slots[j].value));
      }
      assert Owned(frag, frag.model);
    }

    /** One iteration of the loop in dtls1_open_handshake. */
    method OpenFragment(h: Header, body: seq<byte>, maxLen: nat) returns (ok: bool)
      requires Valid() && |body| == h.fragLen
      modifies Repr
      ensures Valid() && fresh(Repr - old(Repr)) && hasMessage == old(hasMessage) && hasChangeCipherSpec == old(hasChangeCipherSpec)
      ensures Outcome(ok, ring) == TakeFragment(old(ring), h, body, maxLen)
    {
      if h.fragOff > h.msgLen || h.fragOff + h.fragLen > h.msgLen || h.msgLen > maxLen {
        return false;
      }
      if epoch == 1 && h.seqNo != readSeq {
        return false;
      }
      if h.seqNo < readSeq || h.seqNo > readSeq + MAX_FLIGHT {
        return true;
      }
      var frag := GetIncomingMessage(h);
      if frag == null {
        return false;
      }
      frag.DoneIsComplete();
      if frag.reassembly == null {
        return true;
      }
      StoreInto(h.seqNo % MAX_FLIGHT, h.fragOff, body);
      return true;
    }

    method StoreInto(idx: nat, off: nat, body: seq<byte>)
      requires Valid() && idx < MAX_FLIGHT && incoming[idx] != null && incoming[idx].reassembly != null
      requires off + |body| <= incoming[idx].msgLen
      modifies Repr
      ensures Valid() && Repr == old(Repr) && hasMessage == old(hasMessage) && hasChangeCipherSpec == old(hasChangeCipherSpec)
      ensures ring == old(ring).(slots := old(ring).slots[idx := Some(AddSlice(old(ring).slots[idx].value, off, body))])
    {
      var frag := incoming[idx];
      frag.Store(off, body);
      forall j | 0 <= j < MAX_FLIGHT && j != idx && incoming[j] != null
        ensures Owned(incoming[j], ring.slots[j].value)
      {
        assert frag.Repr !! incoming[j].Repr;
      }
      assert Owned(frag, frag.model);
      ring := ring.(slots := ring.slots[idx := Some(frag.model)]);
    }

    /** The handshake branch of dtls1_open_handshake. */
    method OpenFragments(record: seq<byte>, maxLen: nat) returns (ok: bool)
      requires Valid()
      modifies Repr
      ensures Valid() && fresh(Repr - old(Repr)) && hasMessage == old(hasMessage) && hasChangeCipherSpec == old(hasChangeCipherSpec)
      ensures Outcome(ok, ring) == TakeRecord(old(ring), record, maxLen)
    {
      var cbs := record;
      while |cbs| > 0
        invariant Valid() && fresh(Repr - old(Repr)) && hasMessage == old(hasMessage) && hasChangeCipherSpec == old(hasChangeCipherSpec)
        invariant TakeRecord(ring, cbs, maxLen) == TakeRecord(old(ring), record, maxLen)
        decreases |cbs|
      {
        var parsed := ParseFragment(cbs);
        if parsed.None? {
          return false;
        }
        var good := OpenFragment(parsed.value.hdr, parsed.value.body, maxLen);
        if !good {
          return false;
        }
        cbs := parsed.value.rest;
      }
      return true;
    }

    /**
     * dtls1_open_handshake on an opened record: fragments are taken, the one
     * well-formed ChangeCipherSpec of the unencrypted epoch is flagged,
     * encrypted application data is dropped, and anything else is an error.
     */
    method OpenHandshake(kind: byte, record: seq<byte>, nullCipher: bool, maxLen: nat) returns (result: OpenStatus)
      requires Valid()
      modifies Repr
      ensures Valid() && fresh(Repr - old(Repr)) && hasMessage == old(hasMessage)
      ensures kind == RT_HANDSHAKE ==>
        Outcome(result == Opened, ring) == TakeRecord(old(ring), record, maxLen) && result != Dropped && hasChangeCipherSpec == old(hasChangeCipherSpec)
      ensures kind != RT_HANDSHAKE ==> ring == old(ring)
      ensures kind == RT_CHANGE_CIPHER_SPEC ==>
        && result == (if nullCipher && record == [MT_CCS] then Opened else Refused)
        && hasChangeCipherSpec == (old(hasChangeCipherSpec) || result == Opened)
      ensures kind != RT_HANDSHAKE && kind != RT_CHANGE_CIPHER_SPEC ==>
        && result == (if kind == RT_APPLICATION_DATA && !nullCipher then Dropped else Refused)
        && hasChangeCipherSpec == old(hasChangeCipherSpec)
    {
      if kind == RT_APPLICATION_DATA {
        return if nullCipher then Refused else Dropped;
      }
      if kind == RT_CHANGE_CIPHER_SPEC {
        if !nullCipher || |record| != 1 || record[0] != MT_CCS {
          return Refused;
        }
        hasChangeCipherSpec := true;
        return Opened;
      }
      if kind != RT_HANDSHAKE {
        return Refused;
      }
      var ok := OpenFragments(record, maxLen);
      return if ok then Opened else Refused;
    }

    /** dtls1_get_message: the current message, header included, once it is complete. */
    method GetMessage() returns (raw: Option<seq<byte>>)
      requires Valid()
      modifies this`hasMessage
      ensures Valid() && ring == old(ring)
      ensures raw.Some? <==> CurrentComplete(ring)
      ensures raw.Some? ==> hasMessage && raw.value == Raw(ring.slots[readSeq % MAX_FLIGHT].value)
      ensures raw.None? ==> hasMessage == old(hasMessage)
    {
      var frag := incoming[readSeq % MAX_FLIGHT];
      if frag == null {
        return None;
      }
      frag.DoneIsComplete();
      if frag.reassembly != null {
        return None;
      }
      assert frag.data[HM_HEADER_LENGTH..] == Body(frag.model) by {
        assert forall i | 0 <= i < frag.msgLen :: frag.data[HM_HEADER_LENGTH + i] == frag.At(i);
      }
      assert frag.data[..] == frag.data[..HM_HEADER_LENGTH] + frag.data[HM_HEADER_LENGTH..];
      hasMessage := true;
      return Some(frag.data[..]);
    }

    /** dtls1_next_message */
    method NextMessage()
      requires Valid() && hasMessage
      modifies this, incoming
      ensures Valid() && Repr == old(Repr)
      ensures ring == Advance(old(ring)) && !hasMessage
    {
      AdvanceKeepsRing(ring);
      incoming[readSeq % MAX_FLIGHT] := null;
      ring := Advance(ring);
      readSeq := (readSeq + 1) % 0x1_0000;
      hasMessage := false;
    }

    /** dtls_has_unprocessed_handshake_data: anything but the message being processed. */
    method HasUnprocessed() returns (found: bool)
      requires Valid()
      ensures found <==> Leftover(ring, hasMessage) || hasChangeCipherSpec
    {
      if hasChangeCipherSpec {
        return true;
      }
      var current, i := readSeq % MAX_FLIGHT, 0;
      while i < MAX_FLIGHT
        invariant 0 <= i <= MAX_FLIGHT
        invariant forall j | 0 <= j < i && ring.slots[j].Some? :: hasMessage && j == current
      {
        if !(hasMessage && i == current) && incoming[i] != null {
          assert ring.slots[i].Some?;
          return true;
        }
        i := i + 1;
      }
      return false;
    }

    /**
     * dtls1_set_read_state, for this half: refused exactly if something is left
     * over. No message begun in one epoch is therefore finished in the next.
     */
    method SetReadState() returns (ok: bool)
      requires Valid()
      modifies this`epoch, this`ring
      ensures Valid()
      ensures ok <==> !old(Leftover(ring, hasMessage)) && !hasChangeCipherSpec
      ensures ring == if ok then old(ring).(epoch := (old(epoch) + 1) % 0x1_0000) else old(ring)
    {
      var found := HasUnprocessed();
      if found {
        return false;
      }
      epoch := (epoch + 1) % 0x1_0000;
      ring := ring.(epoch := epoch);
      return true;
    }
  }
}
