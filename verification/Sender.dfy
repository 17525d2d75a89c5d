/** Sending handshake flights: fragmentation to the MTU, retry, retransmission. */
module Sender {
  import opened Bytes
  import opened HandshakeHeader
  import opened RecordNumbers
  import opened Flight

  /** The sizes an AEAD context adds: MaxOverhead, of which the explicit nonce is a part. */
  datatype Aead = Aead(explicitNonceLen: nat, maxSuffix: nat) {
    function MaxOverhead(): nat { explicitNonceLen + maxSuffix }
  }

  datatype SealResult = SealError | SealNoProgress | SealPartial | SealSuccess

  /** send_flight: all sent, to be retried later, or failed. */
  datatype FlightResult = Sent | Blocked | Failed

  /** The content is a genuine fragment of a message of this connection, or the ChangeCipherSpec byte. */
  ghost predicate Genuine(added: seq<HsMsg>, c: Content) {
    c.Handshake? ==> exists q: nat, off: nat, len: nat :: IsFragment(added, c.frag, q, off, len)
  }

  ghost predicate IsFragment(added: seq<HsMsg>, f: Frag, q: nat, off: nat, len: nat) {
    && q < |added| && Fits(added[q]) && off + len <= |added[q].body|
    && f == Fragment(added[q], q % 0x1_0000, off, len)
  }

  /** Queued message m is message q of the connection. */
  ghost predicate Serializes(added: seq<HsMsg>, m: OutMsg, q: nat) {
    q < |added| && Fits(added[q]) && m.Message? && m.whole == Whole(added[q], q % 0x1_0000)
  }

  lemma CarriedIsGenuine(added: seq<HsMsg>, msgs: seq<OutMsg>, p: Piece, c: Content, q: nat)
    requires Carries(msgs, p, c)
    requires msgs[p.index].Ccs? || Serializes(added, msgs[p.index], q)
    ensures Genuine(added, c)
  {
    if msgs[p.index].Message? {
      assert IsFragment(added, c.frag, q, p.off, p.len);
    }
  }

  lemma GenuineForever(added: seq<HsMsg>, more: HsMsg, c: Content)
    requires Genuine(added, c)
    ensures Genuine(added + [more], c)
  {
    if c.Handshake? {
      var q: nat, off: nat, len: nat :| IsFragment(added, c.frag, q, off, len);
      assert IsFragment(added + [more], c.frag, q, off, len);
    }
  }

  class FlightSender {
    const numbers: RecordWriter
    var outgoing: seq<OutMsg>
    var written: nat
    var offset: nat
    var messagesComplete: bool
    var flightHasReply: bool
    var writeSeq: uint16
    var mtu: nat
    var aead: Aead
    var lastAead: Aead
    /** which uses of the cipher succeed, by number, and how many there have been */
    const crypto: iset<nat>
    var seals: nat
    /** all handshake messages ever added, by number */
    ghost var added: seq<HsMsg>
    /** number of each queued message */
    ghost var origin: seq<nat>

    ghost predicate Valid()
      reads this, numbers, numbers.writeSequence, numbers.lastWriteSequence
    {
      numbers.Valid() && NumbersApart() && QueueValid()
    }

    /** The queue holds messages of this connection and stands at a position in them. */
    ghost predicate QueueValid()
      reads this
    {
      && |outgoing| == |origin| <= MAX_FLIGHT
      && writeSeq == |added| % 0x1_0000
      && (forall q | 0 <= q < |added| :: Fits(added[q]))
      && (forall k | 0 <= k < |outgoing| && outgoing[k].Message? :: Serializes(added, outgoing[k], origin[k]))
      && AtPosition(Pos(written, offset))
    }

    /** A position the flight can stand at. */
    ghost predicate AtPosition(p: Pos)
      reads this`outgoing
    {
      p.index <= |outgoing| && p.off <= (if p.index < |outgoing| then BodyLen(outgoing[p.index]) else 0)
    }

    ghost predicate NumbersApart()
      reads this
    {
      var arrays: set<object> := {numbers.writeSequence, numbers.lastWriteSequence};
      this !in arrays && numbers !in arrays
    }

    constructor (mtu: nat, aead: Aead, crypto: iset<nat>)
      ensures Valid() && added == [] && outgoing == [] && written == offset == 0
      ensures fresh(numbers) && fresh(numbers.writeSequence) && fresh(numbers.lastWriteSequence)
      ensures numbers.used == [] && numbers.intact && numbers.wEpoch == 0 && Fresh()
      ensures this.mtu == mtu && this.aead == lastAead == aead && this.crypto == crypto && seals == 0 && !messagesComplete
    {
      numbers := new RecordWriter();
      outgoing, origin, added, written, offset, writeSeq := [], [], [], 0, 0, 0;
      messagesComplete, flightHasReply := false, false;
      this.mtu, this.aead, lastAead, this.crypto, seals := mtu, aead, aead, crypto, 0;
      Pow256Large(6);
    }

    /** add_outgoing, for a handshake message built from its type and body or for a ChangeCipherSpec. */
    method AddOutgoing(isCcs: bool, msg: HsMsg) returns (ok: bool)
      requires Valid() && Fits(msg)
      modifies this`outgoing, this`origin, this`added, this`writeSeq, this`written, this`offset, this`messagesComplete, this`flightHasReply
      ensures Valid() && !messagesComplete == (!old(messagesComplete) || ok)
      ensures if old(messagesComplete) then written == offset == 0 else written == old(written) && offset == old(offset)
      ensures ok <==> old(messagesComplete) || |old(outgoing)| < MAX_FLIGHT
      ensures added == if ok && !isCcs then old(added) + [msg] else old(added)
      ensures outgoing == if !ok then old(outgoing)
                          else (if old(messagesComplete) then [] else old(outgoing))
                               + [if isCcs then Ccs(numbers.wEpoch) else Message(Whole(msg, |old(added)| % 0x1_0000), numbers.wEpoch)]
    {
      if messagesComplete {
        outgoing, origin, written, offset := [], [], 0, 0;
        messagesComplete, flightHasReply := false, false;
      }
      if |outgoing| >= MAX_FLIGHT {
        return false;
      }
      Enqueue(isCcs, msg);
      return true;
    }

    method Enqueue(isCcs: bool, msg: HsMsg)
      requires QueueValid() && Fits(msg) && |outgoing| < MAX_FLIGHT
      modifies this`outgoing, this`origin, this`added, this`writeSeq
      ensures QueueValid()
      ensures added == if isCcs then old(added) else old(added) + [msg]
      ensures outgoing == old(outgoing)
                          + [if isCcs then Ccs(numbers.wEpoch) else Message(Whole(msg, |old(added)| % 0x1_0000), numbers.wEpoch)]
    {
      if isCcs {
        outgoing, origin := outgoing + [Ccs(numbers.wEpoch)], origin + [0];
      } else {
        outgoing, origin := outgoing + [Message(Whole(msg, writeSeq), numbers.wEpoch)], origin + [|added|];
        added := added + [msg];
        writeSeq := (writeSeq + 1) % 0x1_0000;
      }
    }

    /** The larger overhead of the two contexts. */
    function Overhead(): nat
      reads this`aead, this`lastAead
    {
      if aead.MaxOverhead() > lastAead.MaxOverhead() then aead.MaxOverhead() else lastAead.MaxOverhead()
    }

    /** A record with this much of a message's body is no larger. */
    function RecordBound(len: nat): nat
      reads this`aead, this`lastAead
    {
      RT_HEADER_LENGTH + HM_HEADER_LENGTH + Overhead() + len
    }

    /** The current epoch's counter is not exhausted. */
    ghost predicate Fresh()
      requires numbers.writeSequence.Length == 8
      reads numbers.writeSequence
    {
      numbers.Number(numbers.writeSequence) + 1 != Pow256(6)
    }

    /** The next message belongs to the current epoch, whose counter is not exhausted. */
    ghost predicate Ready()
      requires numbers.writeSequence.Length == 8 && written < |outgoing|
      reads this`written, this`outgoing, numbers`wEpoch, numbers.writeSequence
    {
      outgoing[written].epoch == numbers.wEpoch && Fresh()
    }

    /** dtls_seal_record on `len` plaintext bytes: at most the header and the context's overhead are added. */
    method SealRecord(usePrevious: bool, content: Content, len: nat) returns (rec: Option<Rec>)
      requires numbers.Valid() && NumbersApart() && (usePrevious ==> numbers.wEpoch >= 1)
      modifies this`seals, numbers`used, numbers`intact, numbers.writeSequence, numbers.lastWriteSequence
      ensures numbers.Valid() && seals == old(seals) + 1
      ensures rec.None? ==> numbers.used == old(numbers.used)
      ensures rec.Some? ==>
        && old(seals) in crypto && rec.value.content == content
        && rec.value.size <= len + RT_HEADER_LENGTH + (if usePrevious then lastAead else aead).MaxOverhead()
        && numbers.used == old(numbers.used) + [rec.value.number]
        && (old(numbers.intact) ==> rec.value.number !in old(numbers.used))
      ensures old(seals) in crypto && !usePrevious && len + aead.MaxOverhead() < 0x1_0000 && old(Fresh()) ==> rec.Some?
    {
      var ctx := if usePrevious then lastAead else aead;
      var suffix: nat :| suffix <= ctx.maxSuffix;
      var ciphertextLen := ctx.explicitNonceLen + len + suffix;
      var aeadOk := seals in crypto;
      seals := seals + 1;
      var number := numbers.Seal(usePrevious, aeadOk, ciphertextLen);
      rec := if number.None? then None else Some(Rec(number.value, content, RT_HEADER_LENGTH + ciphertextLen));
    }

    /** What sealing a piece of the next message has done. */
    ghost predicate SealedPiece(piece: Piece, rec: Rec, maxOut: nat, used: seq<RecordNumber>, intact: bool)
      reads this`outgoing, this`aead, this`lastAead, numbers`used
    {
      && Carries(outgoing, piece, rec.content) && rec.size <= maxOut && rec.size <= RecordBound(piece.len)
      && numbers.used == used + [rec.number] && (intact ==> rec.number !in used)
    }

    /** The ChangeCipherSpec of seal_next_message. */
    method SealChangeCipherSpec(maxOut: nat, usePrevious: bool) returns (result: SealResult, rec: Rec)
      requires Valid() && written < |outgoing| && outgoing[written].Ccs? && (usePrevious ==> numbers.wEpoch >= 1)
      modifies this`seals, numbers`used, numbers`intact, numbers.writeSequence, numbers.lastWriteSequence
      ensures Valid() && result != SealPartial
      ensures result == SealError || result == SealNoProgress ==> numbers.used == old(numbers.used)
      ensures result == SealSuccess ==>
        && SealedPiece(Piece(written, offset, 0), rec, maxOut, old(numbers.used), old(numbers.intact))
        && old(seals) in crypto && seals == old(seals) + 1
      ensures result == SealError ==> usePrevious || !old(Fresh()) || old(seals) !in crypto || maxOut >= 0x1_0000
      ensures result == SealNoProgress ==> maxOut < RecordBound(1)
    {
      rec := Rec(RecordNumber(0, 0), CcsByte, 0);
      if maxOut < 1 + RT_HEADER_LENGTH + (if usePrevious then lastAead else aead).MaxOverhead() {
        return SealNoProgress, rec;
      }
      var sealed := SealRecord(usePrevious, CcsByte, 1);
      return if sealed.None? then SealError else SealSuccess, if sealed.None? then rec else sealed.value;
    }

    /** The fragment of seal_next_message, once its size has been decided. */
    method SealFragment(maxOut: nat, usePrevious: bool, todo: nat) returns (rec: Option<Rec>)
      requires Valid() && written < |outgoing| && outgoing[written].Message? && (usePrevious ==> numbers.wEpoch >= 1)
      requires offset + todo <= |outgoing[written].whole.body| < 0x100_0000 && ValidPiece(outgoing, Piece(written, offset, todo))
      requires HM_HEADER_LENGTH + todo + RT_HEADER_LENGTH + (if usePrevious then lastAead else aead).MaxOverhead() <= maxOut
      modifies this`seals, numbers`used, numbers`intact, numbers.writeSequence, numbers.lastWriteSequence
      ensures Valid()
      ensures if rec.None? then numbers.used == old(numbers.used)
              else && SealedPiece(Piece(written, offset, todo), rec.value, maxOut, old(numbers.used), old(numbers.intact))
                   && old(seals) in crypto && seals == old(seals) + 1
      ensures rec.None? ==> usePrevious || !old(Fresh()) || old(seals) !in crypto || maxOut >= 0x1_0000
    {
      var whole := outgoing[written].whole;
      var frag := Frag(whole.hdr.(fragOff := offset, fragLen := todo), whole.body[offset..][..todo]);
      assert whole.body[offset..][..todo] == PieceBytes(outgoing, Piece(written, offset, todo));
      rec := SealRecord(usePrevious, Handshake(frag), HM_HEADER_LENGTH + todo);
    }

    /**
     * seal_next_message. The AEAD may fail, and its suffix length is anything
     * up to the context's bound.
     */
    method SealNextMessage(maxOut: nat) returns (result: SealResult, rec: Rec, todo: nat)
      requires Valid() && written < |outgoing|
      modifies this`offset, this`seals, numbers`used, numbers`intact, numbers.writeSequence, numbers.lastWriteSequence
      ensures Valid()
      ensures result == SealError || result == SealNoProgress ==> offset == old(offset) && numbers.used == old(numbers.used)
      ensures result == SealSuccess || result == SealPartial ==>
        var piece := Piece(written, old(offset), todo);
        && SealedPiece(piece, rec, maxOut, old(numbers.used), old(numbers.intact))
        && (result == SealSuccess <==> Ends(outgoing, piece))
        && offset == (if result == SealSuccess then 0 else old(offset) + todo)
        && old(seals) in crypto && seals == old(seals) + 1
      ensures result == SealError ==> !old(Ready()) || old(seals) !in crypto || maxOut >= 0x1_0000
      ensures result == SealNoProgress ==> maxOut < RecordBound(1)
      ensures result == SealPartial ==> maxOut < RecordBound(BodyLen(outgoing[written]) - old(offset))
    {
      rec, todo := Rec(RecordNumber(0, 0), CcsByte, 0), 0;
      var msg := outgoing[written];
      var usePrevious := false;
      if numbers.wEpoch >= 1 && msg.epoch == numbers.wEpoch - 1 {
        usePrevious := true;
      } else if msg.epoch != numbers.wEpoch {
        return SealError, rec, todo;
      }
      if msg.Ccs? {
        result, rec := SealChangeCipherSpec(maxOut, usePrevious);
        return;
      }
      var ctx := if usePrevious then lastAead else aead;
      var overhead := RT_HEADER_LENGTH + ctx.MaxOverhead();
      var prefix := RT_HEADER_LENGTH + ctx.explicitNonceLen;
      var hdr, left := msg.whole.hdr, |msg.whole.body| - offset;
      if hdr.fragOff != 0 || hdr.fragLen != |msg.whole.body| || hdr.msgLen != |msg.whole.body| || left < 0 {
        return SealError, rec, todo;
      }
      if maxOut < HM_HEADER_LENGTH + 1 + overhead || maxOut < prefix {
        return SealNoProgress, rec, todo;
      }
      todo := if left > maxOut - HM_HEADER_LENGTH - overhead then maxOut - HM_HEADER_LENGTH - overhead else left;
      var sealed := SealFragment(maxOut, usePrevious, todo);
      if sealed.None? {
        return SealError, rec, todo;
      }
      rec := sealed.value;
      result := if todo == left then SealSuccess else SealPartial;
      offset := if todo == left then 0 else offset + todo;
    }

    /** The pieces sealed into a packet so far, and the room that is left. */
    ghost predicate Gathered(start: Pos, pieces: seq<Piece>, packet: Packet, maxOut: nat, used: seq<RecordNumber>)
      reads this`outgoing, this`written, this`offset, this`mtu, numbers`used
    {
      && Sends(outgoing, start, pieces, packet, Pos(written, offset))
      && PacketSize(packet) + maxOut == mtu
      && Consumed(used, packet, numbers.used)
    }

    /** There is room for the rest of the next message and something of the one after it, but only the first will be sealed. */
    ghost predicate SecondFails()
      requires numbers.Valid() && written < |outgoing|
      reads this, numbers, numbers.writeSequence, numbers.lastWriteSequence
    {
      && written + 1 < |outgoing| && Ready() && seals in crypto && seals + 1 !in crypto
      && offset <= BodyLen(outgoing[written])
      && RecordBound(BodyLen(outgoing[written]) - offset) + RecordBound(1) <= mtu < 0x1_0000
    }

    /** One round of seal_next_packet's loop. */
    method SealInto(packet: Packet, maxOut: nat, ghost start: Pos, ghost pieces: seq<Piece>, ghost used: seq<RecordNumber>)
      returns (result: SealResult, rec: Rec, ghost piece: Piece)
      requires Valid() && written < |outgoing| && Gathered(start, pieces, packet, maxOut, used)
      modifies this`written, this`offset, this`seals, numbers`used, numbers`intact, numbers.writeSequence, numbers.lastWriteSequence
      ensures Valid()
      ensures result == SealError || result == SealNoProgress ==>
        Gathered(start, pieces, packet, maxOut, used) && written == old(written) && offset == old(offset)
      ensures result == SealPartial || result == SealSuccess ==>
        && rec.size <= maxOut && Gathered(start, pieces + [piece], packet + [rec], maxOut - rec.size, used)
        && written == old(written) + (if result == SealSuccess then 1 else 0) && (result == SealSuccess ==> offset == 0)
      ensures old(SecondFails()) && maxOut == mtu ==> result == SealSuccess && seals !in crypto && maxOut - rec.size >= RecordBound(1)
      ensures old(seals) !in crypto && maxOut >= RecordBound(1) ==> result == SealError
    {
      ghost var at, before := offset, numbers.used;
      var todo;
      result, rec, todo := SealNextMessage(maxOut);
      piece := Piece(written, at, todo);
      if result == SealPartial || result == SealSuccess {
        SendsSnoc(outgoing, start, pieces, packet, piece, rec);
        PacketSizeSnoc(packet, rec);
        ConsumedSnoc(used, packet, before, rec);
        if result == SealSuccess {
          written := written + 1;
        }
      }
    }

    /**
     * seal_next_packet: as much of the flight as fits into one packet. The
     * position has then moved over exactly the pieces sealed, also when a
     * later message failed to seal.
     */
    method SealNextPacket() returns (ok: bool, packet: Packet, ghost pieces: seq<Piece>)
      requires Valid() && written < |outgoing|
      modifies this`written, this`offset, this`seals, numbers`used, numbers`intact, numbers.writeSequence, numbers.lastWriteSequence
      ensures Valid()
      ensures Sends(outgoing, Pos(old(written), old(offset)), pieces, packet, Pos(written, offset))
      ensures PacketSize(packet) <= mtu
      ensures ok ==> packet != []
      ensures Consumed(old(numbers.used), packet, numbers.used)
      ensures old(SecondFails()) ==> !ok && packet != [] && written == old(written) + 1 && offset == 0
    {
      packet, pieces := [], [];
      var maxOut: nat := mtu;
      ghost var start, doomed := Pos(written, offset), SecondFails();
      var result := SealSuccess;
      while result == SealSuccess && written < |outgoing|
        invariant Valid() && Gathered(start, pieces, packet, maxOut, old(numbers.used))
        invariant doomed && packet == [] ==> Pos(written, offset) == start && SecondFails() && maxOut == mtu && result == SealSuccess
        invariant doomed && packet != [] ==>
                    && written == start.index + 1 && offset == 0 && maxOut >= RecordBound(1)
                    && (result == SealError || (result == SealSuccess && seals !in crypto))
        decreases result == SealSuccess, |outgoing| - written
      {
        var rec;
        ghost var piece;
        result, rec, piece := SealInto(packet, maxOut, start, pieces, old(numbers.used));
        if result == SealSuccess || result == SealPartial {
          packet, pieces := packet + [rec], pieces + [piece];
          maxOut := maxOut - rec.size;
        }
      }
      ok := result != SealError && packet != [];
    }

    /** One round of send_flight's loop: seal a packet and offer it to the transport, which may refuse it. */
    method SendPacket() returns (result: FlightResult, packet: Packet, ghost cut: seq<Piece>)
      requires Valid() && written < |outgoing|
      modifies this`written, this`offset, this`seals, numbers`used, numbers`intact, numbers.writeSequence, numbers.lastWriteSequence
      ensures Valid()
      ensures result == Sent ==> packet != [] && PacketSize(packet) <= mtu
      ensures result == Sent ==> Sends(outgoing, Pos(old(written), old(offset)), cut, packet, Pos(written, offset))
      ensures result == Blocked ==> written == old(written) && offset == old(offset)
      ensures result == Failed ==>
        && Path(outgoing, Pos(old(written), old(offset)), cut, Pos(written, offset)) && |cut| == |packet|
        && (Pos(written, offset) == Pos(old(written), old(offset)) <==> packet == [])
      ensures old(SecondFails()) ==> result == Failed && packet != [] && written == old(written) + 1 && offset == 0
    {
      var oldWritten, oldOffset := written, offset;
      var ok;
      ok, packet, cut := SealNextPacket();
      if !ok {
        PathProgress(outgoing, Pos(oldWritten, oldOffset), cut, Pos(written, offset));
        return Failed, packet, cut;
      }
      var accepted: bool := *;
      if !accepted {
        written, offset := oldWritten, oldOffset;
        return Blocked, packet, cut;
      }
      return Sent, packet, cut;
    }

    /**
     * send_flight. Packets go out one by one and each fits the MTU. Unless
     * sealing failed, what has gone out leads without a gap from the old to
     * the new position: a refused write puts the position back to the start
     * of its packet. After a sealing failure the position is ahead of what was
     * sent by the pieces in `lost`, exactly if the packet had any.
     */
    method SendFlight(writeShutdown: bool)
      returns (result: FlightResult, packets: seq<Packet>, ghost pieces: seq<Piece>, ghost sent: Pos, ghost lost: seq<Piece>)
      requires Valid()
      modifies this`written, this`offset, this`seals, numbers`used, numbers`intact, numbers.writeSequence, numbers.lastWriteSequence
      ensures Valid()
      ensures Sends(outgoing, Pos(old(written), old(offset)), pieces, Flatten(packets), sent)
      ensures Path(outgoing, sent, lost, Pos(written, offset))
      ensures result != Failed ==> lost == []
      ensures lost == [] <==> sent == Pos(written, offset)
      ensures !writeShutdown && old(written < |outgoing| && SecondFails()) ==>
        result == Failed && packets == [] && lost != [] && Pos(written, offset) == Pos(old(written) + 1, 0)
      ensures result == Sent ==> written == |outgoing|
      ensures forall p | p in packets :: p != [] && PacketSize(p) <= mtu
    {
      packets, pieces, lost := [], [], [];
      ghost var start, doomed := Pos(written, offset), written < |outgoing| && SecondFails();
      sent := start;
      if writeShutdown {
        return Failed, packets, pieces, sent, lost;
      }
      while written < |outgoing|
        invariant Valid() && sent == Pos(written, offset) && (doomed ==> packets == [] && sent == start && written < |outgoing| && SecondFails())
        invariant Sends(outgoing, start, pieces, Flatten(packets), sent)
        invariant forall p | p in packets :: p != [] && PacketSize(p) <= mtu
        decreases |outgoing| - written, Left(outgoing, Pos(written, offset))
      {
        var packet;
        ghost var cut;
        result, packet, cut := SendPacket();
        if result == Failed {
          PathProgress(outgoing, sent, cut, Pos(written, offset));
          return Failed, packets, pieces, sent, cut;
        }
        if result == Blocked {
          return Blocked, packets, pieces, sent, [];
        }
        PathProgress(outgoing, sent, cut, Pos(written, offset));
        SendsConcat(outgoing, start, pieces, Flatten(packets), sent, cut, packet, Pos(written, offset));
        FlattenSnoc(packets, packet);
        packets, pieces, sent := packets + [packet], pieces + cut, Pos(written, offset);
      }
      var flushed: bool := *;
      return if flushed then Sent else Blocked, packets, pieces, sent, [];
    }

    /** dtls1_flush_flight */
    method FlushFlight(writeShutdown: bool)
      returns (result: FlightResult, packets: seq<Packet>, ghost pieces: seq<Piece>, ghost sent: Pos, ghost lost: seq<Piece>)
      requires Valid()
      modifies this`messagesComplete, this`written, this`offset, this`seals,
               numbers`used, numbers`intact, numbers.writeSequence, numbers.lastWriteSequence
      ensures Valid() && messagesComplete
      ensures Sends(outgoing, Pos(old(written), old(offset)), pieces, Flatten(packets), sent)
      ensures Path(outgoing, sent, lost, Pos(written, offset))
      ensures result != Failed ==> lost == []
      ensures lost == [] <==> sent == Pos(written, offset)
      ensures forall p | p in packets :: p != [] && PacketSize(p) <= mtu
      ensures forall r | r in Flatten(packets) :: Genuine(added, r.content)
    {
      messagesComplete := true;
      result, packets, pieces, sent, lost := SendFlight(writeShutdown);
      AllGenuine(Flatten(packets), pieces);
    }

    /**
     * dtls1_retransmit_outgoing_messages: the flight again from its start. A
     * successful run puts every message body on the wire, whole and in order.
     */
    method Retransmit(writeShutdown: bool) returns (result: FlightResult, packets: seq<Packet>, ghost pieces: seq<Piece>)
      requires Valid()
      modifies this`written, this`offset, this`seals, numbers`used, numbers`intact, numbers.writeSequence, numbers.lastWriteSequence
      ensures Valid()
      ensures CarriesAll(outgoing, pieces, Flatten(packets))
      ensures forall p | p in packets :: p != [] && PacketSize(p) <= mtu
      ensures forall r | r in Flatten(packets) :: Genuine(added, r.content)
      ensures forall p | p in pieces :: ValidPiece(outgoing, p)
      ensures result == Sent ==> forall k | 0 <= k < |outgoing| :: Collect(outgoing, pieces, k) == BodyOf(outgoing[k])
    {
      written, offset := 0, 0;
      ghost var sent, lost;
      result, packets, pieces, sent, lost := SendFlight(writeShutdown);
      AllGenuine(Flatten(packets), pieces);
      PathPiecesValid(outgoing, Pos(0, 0), pieces, sent);
      if result == Sent {
        CompleteFlight(outgoing, pieces);
      }
    }

    /** Everything put on the wire is genuine. */
    lemma AllGenuine(recs: seq<Rec>, pieces: seq<Piece>)
      requires QueueValid() && CarriesAll(outgoing, pieces, recs)
      ensures forall r | r in recs :: Genuine(added, r.content)
    {
      forall i | 0 <= i < |recs| ensures Genuine(added, recs[i].content) {
        CarriedIsGenuine(added, outgoing, pieces[i], recs[i].content, origin[pieces[i].index]);
      }
    }

    /** dtls1_set_write_state */
    method SetWriteState(next: Aead)
      requires Valid()
      modifies this`aead, this`lastAead, numbers, numbers.writeSequence, numbers.lastWriteSequence
      ensures Valid() && aead == next && lastAead == old(aead)
      ensures numbers.wEpoch == (old(numbers.wEpoch) + 1) % 0x1_0000
    {
      numbers.SetWriteState();
      lastAead := aead;
      aead := next;
    }
  }

  /** A flight of empty messages, of which only the first will be sealed. */
  ghost predicate Rigged(s: FlightSender)
    requires s.numbers.writeSequence.Length == 8
    reads s, s.numbers, s.numbers.writeSequence
  {
    && s.Fresh() && s.mtu == 228 && s.aead == s.lastAead == Aead(0, 0) && s.crypto == iset{0} && s.seals == 0
    && s.written == s.offset == 0 && !s.messagesComplete
    && forall k | 0 <= k < |s.outgoing| :: s.outgoing[k].epoch == s.numbers.wEpoch && BodyLen(s.outgoing[k]) == 0
  }

  method AddEmpty(s: FlightSender, kind: byte)
    requires s.Valid() && Rigged(s) && |s.outgoing| < MAX_FLIGHT
    modifies s`outgoing, s`origin, s`added, s`writeSeq, s`written, s`offset, s`messagesComplete, s`flightHasReply
    ensures s.Valid() && Rigged(s) && |s.outgoing| == |old(s.outgoing)| + 1
  {
    var ok := s.AddOutgoing(false, HsMsg(kind, []));
    assert s.Fresh();
  }

  /**
   * Two messages fit one packet, but the second fails to seal. Nothing goes
   * out, and the flight stands behind the first message, which only a
   * retransmission will send.
   */
  method FirstMessageLost(a: byte, b: byte) returns (result: FlightResult, packets: seq<Packet>, s: FlightSender)
    ensures result == Failed && packets == [] && s.written == 1 && s.offset == 0 && |s.outgoing| == 2
  {
    s := new FlightSender(228, Aead(0, 0), iset{0});
    AddEmpty(s, a);
    AddEmpty(s, b);
    ghost var pieces, sent, lost;
    result, packets, pieces, sent, lost := s.SendFlight(false);
  }

  /** Sealing these records took the writer's history from before to after. */
  ghost predicate Consumed(before: seq<RecordNumber>, recs: seq<Rec>, after: seq<RecordNumber>) {
    && |after| == |before| + |recs| && after[..|before|] == before
    && forall i | 0 <= i < |recs| :: after[|before| + i] == recs[i].number
  }

  lemma ConsumedSnoc(before: seq<RecordNumber>, recs: seq<Rec>, after: seq<RecordNumber>, r: Rec)
    requires Consumed(before, recs, after)
    ensures Consumed(before, recs + [r], after + [r.number])
  {
  }
}
