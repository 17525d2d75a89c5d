/** Positions in an outgoing flight and the pieces a sender cuts from it. */
module Flight {
  import opened Bytes
  import opened HandshakeHeader
  import opened RecordNumbers

  /** A handshake message before serialisation. */
  datatype HsMsg = HsMsg(msgType: byte, body: seq<byte>)

  ghost predicate Fits(m: HsMsg) {
    |m.body| < 0x100_0000
  }

  /** DTLS_OUTGOING_MESSAGE: a ChangeCipherSpec, or a message serialised as a single fragment. */
  datatype OutMsg =
    | Ccs(epoch: uint16)
    | Message(whole: Frag, epoch: uint16)

  /** What a record carries: the ChangeCipherSpec byte or one handshake fragment. */
  datatype Content = CcsByte | Handshake(frag: Frag)

  /** A sealed record: its number, content and size on the wire. */
  datatype Rec = Rec(number: RecordNumber, content: Content, size: nat)

  type Packet = seq<Rec>

  function PacketSize(p: Packet): nat {
    if p == [] then 0 else PacketSize(p[..|p| - 1]) + p[|p| - 1].size
  }

  lemma PacketSizeSnoc(p: Packet, r: Rec)
    ensures PacketSize(p + [r]) == PacketSize(p) + r.size
  {
    assert (p + [r])[..|p|] == p;
  }

  /** Bytes off to off + len of message m, under number seqNo. */
  function Fragment(m: HsMsg, seqNo: uint16, off: nat, len: nat): Frag
    requires |m.body| < 0x100_0000 && off + len <= |m.body|
  {
    Frag(Header(m.msgType, |m.body|, seqNo, off, len), m.body[off..off + len])
  }

  /** The whole message as one fragment. */
  function Whole(m: HsMsg, seqNo: uint16): Frag
    requires |m.body| < 0x100_0000
  {
    Frag(Header(m.msgType, |m.body|, seqNo, 0, |m.body|), m.body)
  }

  datatype Pos = Pos(index: nat, off: nat)
  datatype Piece = Piece(index: nat, off: nat, len: nat)

  function BodyLen(m: OutMsg): nat {
    if m.Ccs? then 0 else |m.whole.body|
  }

  /** A piece stays inside its message and only an empty rest yields an empty piece. */
  ghost predicate ValidPiece(msgs: seq<OutMsg>, p: Piece) {
    p.index < |msgs| && p.off + p.len <= BodyLen(msgs[p.index]) && (p.len > 0 || Ends(msgs, p))
  }

  ghost predicate Ends(msgs: seq<OutMsg>, p: Piece)
    requires p.index < |msgs|
  {
    p.off + p.len == BodyLen(msgs[p.index])
  }

  ghost function After(msgs: seq<OutMsg>, p: Piece): Pos
    requires p.index < |msgs|
  {
    if Ends(msgs, p) then Pos(p.index + 1, 0) else Pos(p.index, p.off + p.len)
  }

  /** The pieces lead from one position to the other without a gap. */
  ghost predicate Path(msgs: seq<OutMsg>, from: Pos, pieces: seq<Piece>, to: Pos) {
    if pieces == [] then from == to
    else
      var last := pieces[|pieces| - 1];
      && ValidPiece(msgs, last)
      && Path(msgs, from, pieces[..|pieces| - 1], Pos(last.index, last.off))
      && to == After(msgs, last)
  }

  lemma PathSnoc(msgs: seq<OutMsg>, from: Pos, pieces: seq<Piece>, p: Piece)
    requires ValidPiece(msgs, p) && Path(msgs, from, pieces, Pos(p.index, p.off))
    ensures Path(msgs, from, pieces + [p], After(msgs, p))
  {
    assert (pieces + [p])[..|pieces|] == pieces;
  }

  lemma {:induction false} PathConcat(msgs: seq<OutMsg>, a: Pos, ps: seq<Piece>, b: Pos, qs: seq<Piece>, c: Pos)
    requires Path(msgs, a, ps, b) && Path(msgs, b, qs, c)
    ensures Path(msgs, a, ps + qs, c)
    decreases |qs|
  {
    if qs == [] {
      assert ps + qs == ps;
    } else {
      var last := qs[|qs| - 1];
      PathConcat(msgs, a, ps, b, qs[..|qs| - 1], Pos(last.index, last.off));
      assert (ps + qs)[..|ps + qs| - 1] == ps + qs[..|qs| - 1];
    }
  }

  /** Bytes still to be sent at a position: the measure of progress. */
  ghost function Left(msgs: seq<OutMsg>, p: Pos): int {
    if p.index < |msgs| then BodyLen(msgs[p.index]) - p.off else 0
  }

  /** Positions only move forward, and every piece moves them. */
  lemma {:induction false} PathProgress(msgs: seq<OutMsg>, from: Pos, pieces: seq<Piece>, to: Pos)
    requires Path(msgs, from, pieces, to)
    ensures from.index <= to.index
    ensures from.index == to.index ==> Left(msgs, to) <= Left(msgs, from)
    ensures pieces != [] ==> from.index < to.index || Left(msgs, to) < Left(msgs, from)
  {
    if pieces != [] {
      var last := pieces[|pieces| - 1];
      PathProgress(msgs, from, pieces[..|pieces| - 1], Pos(last.index, last.off));
    }
  }

  ghost function BodyOf(m: OutMsg): (b: seq<byte>)
    ensures |b| == BodyLen(m)
  {
    if m.Ccs? then [] else m.whole.body
  }

  ghost function PieceBytes(msgs: seq<OutMsg>, p: Piece): (b: seq<byte>)
    requires ValidPiece(msgs, p)
    ensures |b| == p.len
  {
    BodyOf(msgs[p.index])[p.off..p.off + p.len]
  }

  /** What the pieces carry of message k, in the order they were sent. */
  ghost function Collect(msgs: seq<OutMsg>, pieces: seq<Piece>, k: nat): seq<byte>
    requires forall p | p in pieces :: ValidPiece(msgs, p)
  {
    if pieces == [] then []
    else
      var last := pieces[|pieces| - 1];
      Collect(msgs, pieces[..|pieces| - 1], k) + if last.index == k then PieceBytes(msgs, last) else []
  }

  lemma {:induction false} PathPiecesValid(msgs: seq<OutMsg>, from: Pos, pieces: seq<Piece>, to: Pos)
    requires Path(msgs, from, pieces, to)
    ensures forall p | p in pieces :: ValidPiece(msgs, p)
  {
    if pieces != [] {
      var last := pieces[|pieces| - 1];
      PathPiecesValid(msgs, from, pieces[..|pieces| - 1], Pos(last.index, last.off));
    }
  }

  lemma TakeMore(s: seq<byte>, off: nat, len: nat)
    requires off + len <= |s|
    ensures s[..off] + s[off..off + len] == s[..off + len]
    ensures s[..|s|] == s
  {
  }

  /** What has been sent of message k when the flight stands at a position. */
  ghost function SentOf(msgs: seq<OutMsg>, at: Pos, k: nat): seq<byte>
    requires k < |msgs| && (at.index == k ==> at.off <= BodyLen(msgs[k]))
  {
    if k < at.index then BodyOf(msgs[k]) else if k == at.index then BodyOf(msgs[k])[..at.off] else []
  }

  lemma SentOfPiece(msgs: seq<OutMsg>, p: Piece, k: nat)
    requires ValidPiece(msgs, p) && k < |msgs|
    ensures SentOf(msgs, After(msgs, p), k) ==
            SentOf(msgs, Pos(p.index, p.off), k) + if p.index == k then PieceBytes(msgs, p) else []
  {
    if p.index == k {
      TakeMore(BodyOf(msgs[k]), p.off, p.len);
    }
  }

  /**
   * From the start of a flight, the pieces sent so far carry exactly the
   * bodies of the messages before the position, and the current one's prefix.
   */
  lemma {:induction false} PathCollects(msgs: seq<OutMsg>, pieces: seq<Piece>, to: Pos, k: nat)
    requires Path(msgs, Pos(0, 0), pieces, to) && k < |msgs|
    requires forall p | p in pieces :: ValidPiece(msgs, p)
    ensures to.index == k ==> to.off <= BodyLen(msgs[k])
    ensures Collect(msgs, pieces, k) == SentOf(msgs, to, k)
  {
    if pieces != [] {
      var last := pieces[|pieces| - 1];
      PathCollects(msgs, pieces[..|pieces| - 1], Pos(last.index, last.off), k);
      SentOfPiece(msgs, last, k);
    }
  }

  /** A complete flight carries every message body, whole and in order. */
  lemma CompleteFlight(msgs: seq<OutMsg>, pieces: seq<Piece>)
    requires Path(msgs, Pos(0, 0), pieces, Pos(|msgs|, 0))
    ensures forall p | p in pieces :: ValidPiece(msgs, p)
    ensures forall k | 0 <= k < |msgs| :: Collect(msgs, pieces, k) == BodyOf(msgs[k])
  {
    PathPiecesValid(msgs, Pos(0, 0), pieces, Pos(|msgs|, 0));
    forall k | 0 <= k < |msgs| ensures Collect(msgs, pieces, k) == BodyOf(msgs[k]) {
      PathCollects(msgs, pieces, Pos(|msgs|, 0), k);
    }
  }

  /** Content c carries piece p: the message's own header fields with the piece's range, and its bytes. */
  ghost predicate Carries(msgs: seq<OutMsg>, p: Piece, c: Content) {
    && ValidPiece(msgs, p)
    && match msgs[p.index]
       case Ccs(_) => c == CcsByte
       case Message(whole, _) =>
         && p.off < 0x100_0000 && p.len < 0x100_0000
         && c == Handshake(Frag(whole.hdr.(fragOff := p.off, fragLen := p.len), PieceBytes(msgs, p)))
  }

  ghost predicate CarriesAll(msgs: seq<OutMsg>, pieces: seq<Piece>, recs: seq<Rec>) {
    |pieces| == |recs| && forall i | 0 <= i < |recs| :: Carries(msgs, pieces[i], recs[i].content)
  }

  ghost function Flatten(packets: seq<Packet>): seq<Rec> {
    if packets == [] then [] else Flatten(packets[..|packets| - 1]) + packets[|packets| - 1]
  }

  lemma FlattenSnoc(packets: seq<Packet>, p: Packet)
    ensures Flatten(packets + [p]) == Flatten(packets) + p
  {
    assert (packets + [p])[..|packets|] == packets;
  }

  /** The records carry, piece by piece, a path through the flight. */
  ghost predicate Sends(msgs: seq<OutMsg>, from: Pos, pieces: seq<Piece>, recs: seq<Rec>, to: Pos) {
    Path(msgs, from, pieces, to) && CarriesAll(msgs, pieces, recs)
  }

  lemma SendsSnoc(msgs: seq<OutMsg>, from: Pos, pieces: seq<Piece>, recs: seq<Rec>, p: Piece, r: Rec)
    requires Sends(msgs, from, pieces, recs, Pos(p.index, p.off)) && Carries(msgs, p, r.content)
    ensures Sends(msgs, from, pieces + [p], recs + [r], After(msgs, p))
  {
    PathSnoc(msgs, from, pieces, p);
  }

  lemma SendsConcat(msgs: seq<OutMsg>, a: Pos, ps: seq<Piece>, rs: seq<Rec>, b: Pos, qs: seq<Piece>, ss: seq<Rec>, c: Pos)
    requires Sends(msgs, a, ps, rs, b) && Sends(msgs, b, qs, ss, c)
    ensures Sends(msgs, a, ps + qs, rs + ss, c)
  {
    PathConcat(msgs, a, ps, b, qs, c);
  }
}
