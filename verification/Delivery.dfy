/**
 * Sender, network and receiver together. The network may drop, duplicate and
 * reorder; the sender may retransmit and re-cut messages at will. The receiver
 * still consumes exactly the sender's messages, once each and in order.
 */
module Delivery {
  import opened Bytes
  import opened HandshakeHeader
  import opened Reassembly
  import opened Receiver
  import opened Flight
  import opened Sender

  /**
   * `added` is the sender's history, `net` every content it ever put on the
   * wire, `consumed` the raw messages the receiver's handshake has taken.
   */
  datatype System = System(added: seq<HsMsg>, net: iset<Content>, ring: Ring, consumed: seq<seq<byte>>, failed: bool)

  datatype Step =
    | Add(msg: HsMsg)
    | Send(contents: iset<Content>)
    | Deliver(content: Content, maxLen: nat)
    | Consume
    | ChangeEpoch(epoch: uint16)

  ghost function Init(): System {
    System([], iset{}, Ring(0, 0, seq(MAX_FLIGHT, _ => None)), [], false)
  }

  ghost predicate Enabled(s: System, t: Step) {
    |s.ring.slots| == MAX_FLIGHT &&
    match t
    case Add(msg) => Fits(msg)
    // what FlushFlight and Retransmit put on the wire
    case Send(cs) => forall c | c in cs :: Genuine(s.added, c)
    // any record sent so far, however often and in whatever order
    case Deliver(c, _) => !s.failed && c in s.net && c.Handshake?
    case Consume => !s.failed && CurrentComplete(s.ring)
    case ChangeEpoch(_) => true
  }

  ghost function Next(s: System, t: Step): System
    requires Enabled(s, t)
  {
    match t
    case Add(msg) => s.(added := s.added + [msg])
    case Send(cs) => s.(net := s.net + cs)
    case Deliver(c, maxLen) =>
      var o := TakeRecord(s.ring, Encoded(c.frag), maxLen);
      s.(ring := o.ring, failed := !o.ok)
    case Consume => s.(consumed := s.consumed + [Raw(s.ring.slots[s.ring.readSeq % MAX_FLIGHT].value)], ring := Advance(s.ring))
    case ChangeEpoch(e) => s.(ring := s.ring.(epoch := e))
  }

  /** A partial message is what the sender's message of that number looks like so far. */
  ghost predicate SlotAgrees(added: seq<HsMsg>, p: Partial) {
    p.seqNo < |added| && p.msgType == added[p.seqNo].msgType && Agrees(p, added[p.seqNo].body)
  }

  ghost predicate RingAgrees(added: seq<HsMsg>, r: Ring) {
    RingInv(r) && forall i | 0 <= i < MAX_FLIGHT && r.slots[i].Some? :: SlotAgrees(added, r.slots[i].value)
  }

  ghost predicate Core(s: System) {
    && (forall q | 0 <= q < |s.added| :: Fits(s.added[q]))
    && (forall c | c in s.net :: Genuine(s.added, c))
    && RingAgrees(s.added, s.ring)
    && |s.consumed| == s.ring.readSeq && s.ring.readSeq <= |s.added|
    && forall i | 0 <= i < |s.consumed| :: s.consumed[i] == Serialize(s.added[i].msgType, i, s.added[i].body)
  }

  /** The invariant, for connections of fewer than 2^16 handshake messages. */
  ghost predicate Inv(s: System) {
    |s.added| < 0x1_0000 ==> Core(s)
  }

  /** A genuine record is one fragment; the receiver parses exactly that one. */
  lemma GenuineParses(r: Ring, f: Frag, maxLen: nat)
    requires |r.slots| == MAX_FLIGHT && |f.body| == f.hdr.fragLen
    ensures TakeRecord(r, Encoded(f), maxLen) == TakeFragment(r, f.hdr, f.body, maxLen)
  {
    ParseInvertsEncode(f.hdr, f.body, []);
    assert EncodeHeader(f.hdr) + f.body + [] == Encoded(f);
    assert TakeRecord(TakeFragment(r, f.hdr, f.body, maxLen).ring, [], maxLen).ok;
  }

  /** A genuine fragment keeps the ring in agreement with the sender, and never contradicts it. */
  lemma TakeGenuine(added: seq<HsMsg>, r: Ring, f: Frag, q: nat, off: nat, len: nat, maxLen: nat)
    requires RingAgrees(added, r) && IsFragment(added, f, q, off, len) && q < 0x1_0000
    ensures var o := TakeFragment(r, f.hdr, f.body, maxLen);
            && RingAgrees(added, o.ring)
            && o.ring.readSeq == r.readSeq && o.ring.epoch == r.epoch
            && (!Ignored(r, f.hdr) && q != r.readSeq + MAX_FLIGHT ==> !Mismatch(r, f.hdr))
  {
    TakeFragmentKeepsRing(r, f.hdr, f.body, maxLen);
    var idx := q % MAX_FLIGHT;
    assert f.hdr.seqNo == q;
    if r.readSeq <= q < r.readSeq + MAX_FLIGHT {
      if r.slots[idx].Some? {
        SameSlotSameNumber(r, idx, q);
      }
      var p := SlotOrNew(r, f.hdr);
      if p.seqNo == q && Agrees(p, added[q].body) {
        AddSliceAgrees(p, added[q].body, off, len);
      }
    }
  }

  /** Within the window, a slot determines the message number. */
  lemma SameSlotSameNumber(r: Ring, idx: nat, q: nat)
    requires RingInv(r) && idx == q % MAX_FLIGHT && r.slots[idx].Some? && r.readSeq <= q < r.readSeq + MAX_FLIGHT
    ensures r.slots[idx].value.seqNo == q
  {
  }

  lemma AgreesForever(added: seq<HsMsg>, more: HsMsg, r: Ring)
    requires RingAgrees(added, r)
    ensures RingAgrees(added + [more], r)
  {
  }

  lemma ConsumeKeeps(s: System)
    requires Core(s) && !s.failed && CurrentComplete(s.ring) && |s.added| < 0x1_0000
    ensures Core(Next(s, Consume))
  {
    var p := s.ring.slots[s.ring.readSeq % MAX_FLIGHT].value;
    SameSlotSameNumber(s.ring, s.ring.readSeq % MAX_FLIGHT, s.ring.readSeq);
    CompleteIsBody(p, s.added[p.seqNo].body);
    AdvanceKeepsRing(s.ring);
  }

  lemma StepKeepsInv(s: System, t: Step)
    requires Inv(s) && Enabled(s, t)
    ensures Inv(Next(s, t))
  {
    if |Next(s, t).added| < 0x1_0000 {
      match t
      case Add(msg) =>
        forall c | c in s.net ensures Genuine(s.added + [msg], c) {
          GenuineForever(s.added, msg, c);
        }
        AgreesForever(s.added, msg, s.ring);
      case Send(_) =>
      case Deliver(c, maxLen) =>
        var q: nat, off: nat, len: nat :| IsFragment(s.added, c.frag, q, off, len);
        GenuineParses(s.ring, c.frag, maxLen);
        TakeGenuine(s.added, s.ring, c.frag, q, off, len, maxLen);
      case Consume =>
        ConsumeKeeps(s);
      case ChangeEpoch(_) =>
    }
  }

  /** The states of a run, ending in s. */
  ghost predicate Run(steps: seq<Step>, s: System) {
    if steps == [] then s == Init()
    else
      var last := steps[|steps| - 1];
      exists s0 :: Run(steps[..|steps| - 1], s0) && Enabled(s0, last) && s == Next(s0, last)
  }

  lemma {:induction false} RunKeepsInv(steps: seq<Step>, s: System)
    requires Run(steps, s)
    ensures Inv(s)
  {
    if steps != [] {
      var last := steps[|steps| - 1];
      var s0 :| Run(steps[..|steps| - 1], s0) && Enabled(s0, last) && s == Next(s0, last);
      RunKeepsInv(steps[..|steps| - 1], s0);
      StepKeepsInv(s0, last);
    }
  }

  /** The sender's transcript: its messages as serialised, in order. */
  ghost function Transcript(added: seq<HsMsg>): seq<seq<byte>>
    requires |added| < 0x1_0000 && forall q | 0 <= q < |added| :: Fits(added[q])
  {
    seq(|added|, q requires 0 <= q < |added| && Fits(added[q]) => Serialize(added[q].msgType, q, added[q].body))
  }

  /** Delivery safety: in every run, the messages consumed are a prefix of the sender's transcript. */
  lemma DeliverySafety(steps: seq<Step>, s: System)
    requires Run(steps, s) && |s.added| < 0x1_0000
    ensures forall q | 0 <= q < |s.added| :: Fits(s.added[q])
    ensures s.consumed <= Transcript(s.added)
  {
    RunKeepsInv(steps, s);
  }

  lemma RunSnoc(steps: seq<Step>, s: System, t: Step)
    requires Run(steps, s) && Enabled(s, t)
    ensures Run(steps + [t], Next(s, t))
  {
    var all := steps + [t];
    assert all[..|all| - 1] == steps && all[|all| - 1] == t;
    assert Run(all[..|all| - 1], s);
  }

  lemma FatalGenuine(added: seq<HsMsg>, r: Ring, f: Frag, q: nat, off: nat, len: nat, maxLen: nat)
    requires RingAgrees(added, r) && IsFragment(added, f, q, off, len) && q < 0x1_0000
    ensures TakeFragment(r, f.hdr, f.body, maxLen).ok <==>
            !(q == r.readSeq + MAX_FLIGHT || (r.epoch == 1 && q != r.readSeq) || |added[q].body| > maxLen)
  {
    TakeGenuine(added, r, f, q, off, len, maxLen);
    assert f.hdr.seqNo == q && f.hdr.fragOff == off && f.hdr.fragLen == len && f.hdr.msgLen == |added[q].body|;
  }

  /**
   * Exactly which records of the sender end the connection, in every state that
   * can be reached. The filter lets message number readSeq + 7 through although
   * the ring has no slot for it, so such a fragment is fatal instead of being
   * ignored; so is, in epoch 1, every message but the current one.
   */
  lemma FatalExactly(steps: seq<Step>, s: System, c: Content, maxLen: nat, q: nat, off: nat, len: nat)
    requires Run(steps, s) && |s.added| < 0x1_0000 && Enabled(s, Deliver(c, maxLen)) && IsFragment(s.added, c.frag, q, off, len)
    ensures Next(s, Deliver(c, maxLen)).failed <==>
            q == s.ring.readSeq + MAX_FLIGHT || (s.ring.epoch == 1 && q != s.ring.readSeq) || |s.added[q].body| > maxLen
  {
    RunKeepsInv(steps, s);
    GenuineParses(s.ring, c.frag, maxLen);
    FatalGenuine(s.added, s.ring, c.frag, q, off, len, maxLen);
  }

  ghost function Adds(n: nat, m: HsMsg): seq<Step> {
    if n == 0 then [] else Adds(n - 1, m) + [Add(m)]
  }

  ghost function Copies(n: nat, m: HsMsg): (r: seq<HsMsg>)
    ensures |r| == n && forall i | 0 <= i < n :: r[i] == m
  {
    if n == 0 then [] else Copies(n - 1, m) + [m]
  }

  lemma {:induction false} AddsRun(n: nat, m: HsMsg)
    requires Fits(m)
    ensures Run(Adds(n, m), Init().(added := Copies(n, m)))
  {
    if n > 0 {
      AddsRun(n - 1, m);
      RunSnoc(Adds(n - 1, m), Init().(added := Copies(n - 1, m)), Add(m));
    }
  }

  /** A run that ends so: of eight messages, the last arrives first. */
  lemma EighthMessageIsFatal(m: HsMsg) returns (steps: seq<Step>, s: System)
    requires m.body == []
    ensures Run(steps, s) && s.failed && s.added == Copies(8, m) && s.consumed == []
  {
    AddsRun(8, m);
    var s0 := Init().(added := Copies(8, m));
    var c := Handshake(Fragment(m, 7, 0, 0));
    assert IsFragment(s0.added, c.frag, 7, 0, 0);
    var send, deliver := Send(iset{c}), Deliver(c, 0);
    RunSnoc(Adds(8, m), s0, send);
    var s1 := Next(s0, send);
    RunSnoc(Adds(8, m) + [send], s1, deliver);
    steps, s := Adds(8, m) + [send] + [deliver], Next(s1, deliver);
    FatalExactly(Adds(8, m) + [send], s1, c, 0, 7, 0, 0);
  }

  // Progress: a flight that arrives is assembled.

  ghost predicate Present(r: Ring, q: nat)
    requires |r.slots| == MAX_FLIGHT
  {
    r.slots[q % MAX_FLIGHT].Some? && r.slots[q % MAX_FLIGHT].value.seqNo == q
  }

  ghost predicate Holds(r: Ring, q: nat, i: nat)
    requires |r.slots| == MAX_FLIGHT
  {
    Present(r, q) && i in r.slots[q % MAX_FLIGHT].value.got
  }

  ghost predicate Assembled(r: Ring, q: nat, body: seq<byte>)
    requires |r.slots| == MAX_FLIGHT
  {
    Present(r, q) && Complete(r.slots[q % MAX_FLIGHT].value) && Body(r.slots[q % MAX_FLIGHT].value) == body
  }

  /** A genuine fragment of a message the ring has room for, in epoch 1 the current one. */
  ghost predicate WindowFrag(added: seq<HsMsg>, r: Ring, f: Frag, maxLen: nat) {
    && IsFragment(added, f, f.hdr.seqNo, f.hdr.fragOff, f.hdr.fragLen)
    && r.readSeq <= f.hdr.seqNo < r.readSeq + MAX_FLIGHT
    && f.hdr.msgLen <= maxLen && (r.epoch == 1 ==> f.hdr.seqNo == r.readSeq)
  }

  /** Everything r holds, r' holds. */
  ghost predicate Grows(r: Ring, r': Ring)
    requires |r.slots| == |r'.slots| == MAX_FLIGHT
  {
    && r'.readSeq == r.readSeq && r'.epoch == r.epoch
    && (forall q: nat | Present(r, q) :: Present(r', q))
    && (forall q: nat, i: nat | Holds(r, q, i) :: Holds(r', q, i))
  }

  /** What f says is in the ring. */
  ghost predicate Stored(r: Ring, f: Frag)
    requires |r.slots| == MAX_FLIGHT
  {
    Present(r, f.hdr.seqNo) && forall i: nat | f.hdr.fragOff <= i < f.hdr.fragOff + f.hdr.fragLen :: Holds(r, f.hdr.seqNo, i)
  }

  lemma DeliverOne(added: seq<HsMsg>, r: Ring, f: Frag, maxLen: nat)
    requires RingAgrees(added, r) && WindowFrag(added, r, f, maxLen)
    ensures var o := TakeFragment(r, f.hdr, f.body, maxLen);
            o.ok && RingAgrees(added, o.ring) && Grows(r, o.ring) && Stored(o.ring, f)
  {
    var q := f.hdr.seqNo;
    TakeGenuine(added, r, f, q, f.hdr.fragOff, f.hdr.fragLen, maxLen);
    var o := TakeFragment(r, f.hdr, f.body, maxLen);
    if r.slots[q % MAX_FLIGHT].Some? {
      SameSlotSameNumber(r, q % MAX_FLIGHT, q);
    }
    var p := SlotOrNew(r, f.hdr);
    AddSliceAgrees(p, added[q].body, f.hdr.fragOff, f.hdr.fragLen);
  }

  /** Records arriving one after the other; by GenuineParses each is its one fragment. */
  ghost function DeliverAll(r: Ring, fs: seq<Frag>, maxLen: nat): (o: Outcome)
    requires |r.slots| == MAX_FLIGHT
    ensures |o.ring.slots| == MAX_FLIGHT
  {
    if fs == [] then Outcome(true, r)
    else
      var o := DeliverAll(r, fs[..|fs| - 1], maxLen);
      if o.ok then TakeFragment(o.ring, fs[|fs| - 1].hdr, fs[|fs| - 1].body, maxLen) else o
  }

  lemma StaysStored(r: Ring, r': Ring, f: Frag)
    requires |r.slots| == |r'.slots| == MAX_FLIGHT && Grows(r, r') && Stored(r, f)
    ensures Stored(r', f)
  {
  }

  lemma GrowsFurther(r0: Ring, r1: Ring, r2: Ring)
    requires |r0.slots| == |r1.slots| == |r2.slots| == MAX_FLIGHT && Grows(r0, r1) && Grows(r1, r2)
    ensures Grows(r0, r2)
  {
  }

  lemma {:induction false} DeliverAllStores(added: seq<HsMsg>, r: Ring, fs: seq<Frag>, maxLen: nat)
    requires RingAgrees(added, r) && forall f | f in fs :: WindowFrag(added, r, f, maxLen)
    ensures var o := DeliverAll(r, fs, maxLen);
            o.ok && RingAgrees(added, o.ring) && Grows(r, o.ring) && forall f | f in fs :: Stored(o.ring, f)
  {
    if fs != [] {
      var init, last := fs[..|fs| - 1], fs[|fs| - 1];
      DeliverAllStores(added, r, init, maxLen);
      var o, o' := DeliverAll(r, init, maxLen), DeliverAll(r, fs, maxLen);
      assert last in fs;
      assert WindowFrag(added, o.ring, last, maxLen);
      DeliverOne(added, o.ring, last, maxLen);
      GrowsFurther(r, o.ring, o'.ring);
      forall f | f in fs ensures Stored(o'.ring, f) {
        if f != last {
          assert f in init;
          StaysStored(o.ring, o'.ring, f);
        }
      }
    }
  }

  ghost predicate Visits(pieces: seq<Piece>, k: nat, i: nat) {
    exists j :: 0 <= j < |pieces| && pieces[j].index == k && pieces[j].off <= i < pieces[j].off + pieces[j].len
  }

  /** A path from the start visits every message and every byte before its end. */
  lemma {:induction false} PathVisits(msgs: seq<OutMsg>, pieces: seq<Piece>, to: Pos, k: nat)
    requires Path(msgs, Pos(0, 0), pieces, to) && k < |msgs|
    ensures k < to.index ==> exists j :: 0 <= j < |pieces| && pieces[j].index == k
    ensures forall i: nat | k < to.index && i < BodyLen(msgs[k]) :: Visits(pieces, k, i)
    ensures forall i: nat | k == to.index && i < to.off :: Visits(pieces, k, i)
  {
    if pieces != [] {
      var n := |pieces| - 1;
      var last := pieces[n];
      PathVisits(msgs, pieces[..n], Pos(last.index, last.off), k);
      if k < to.index && k != last.index {
        var j :| 0 <= j < n && pieces[..n][j].index == k;
        assert pieces[j].index == k;
      }
      forall i: nat | (k < to.index && i < BodyLen(msgs[k])) || (k == to.index && i < to.off) ensures Visits(pieces, k, i) {
        if k == last.index && last.off <= i < last.off + last.len {
          assert pieces[n].index == k;
        } else {
          assert Visits(pieces[..n], k, i);
          var j :| 0 <= j < n && pieces[..n][j].index == k && pieces[..n][j].off <= i < pieces[..n][j].off + pieces[..n][j].len;
          assert pieces[j] == pieces[..n][j];
        }
      }
    }
  }

  /**
   * If one whole transmission of a flight arrives, in any order and with any
   * duplicates, no fragment is fatal and every message of the flight stands
   * complete in the ring with the sender's body.
   */
  lemma FlightDelivers(added: seq<HsMsg>, r: Ring, msgs: seq<OutMsg>, origin: seq<nat>, pieces: seq<Piece>, recs: seq<Rec>,
                       fs: seq<Frag>, maxLen: nat, k: nat)
    requires RingAgrees(added, r)
    requires Sends(msgs, Pos(0, 0), pieces, recs, Pos(|msgs|, 0))
    requires |origin| == |msgs| && forall j | 0 <= j < |msgs| && msgs[j].Message? :: Serializes(added, msgs[j], origin[j])
    requires forall rec | rec in recs && rec.content.Handshake? :: rec.content.frag in fs
    requires forall f | f in fs :: WindowFrag(added, r, f, maxLen)
    requires k < |msgs| && msgs[k].Message? && origin[k] < |added| && origin[k] < 0x1_0000
    ensures var o := DeliverAll(r, fs, maxLen); o.ok && Assembled(o.ring, origin[k], added[origin[k]].body)
  {
    MessageDelivers(added, r, msgs, origin, pieces, recs, fs, maxLen, k);
  }

  // Across the change of epoch: a flight's last message comes in epoch 1, once the others are consumed

  /** Messages up to number n are consumed, one after the other. */
  ghost function AdvanceTo(r: Ring, n: nat): (r': Ring)
    requires |r.slots| == MAX_FLIGHT && n < 0x1_0000
    ensures |r'.slots| == MAX_FLIGHT
    decreases n - r.readSeq
  {
    if n <= r.readSeq then r else AdvanceTo(Advance(r), n)
  }

  /** Each of them is complete when its turn comes, and is handed on as the sender serialised it. */
  ghost predicate Consumable(added: seq<HsMsg>, r: Ring, n: nat)
    requires |r.slots| == MAX_FLIGHT && n < 0x1_0000
    decreases n - r.readSeq
  {
    n <= r.readSeq || (
      && CurrentComplete(r) && r.readSeq < |added| && Fits(added[r.readSeq])
      && Raw(r.slots[r.readSeq % MAX_FLIGHT].value) == Serialize(added[r.readSeq].msgType, r.readSeq, added[r.readSeq].body)
      && Consumable(added, Advance(r), n))
  }

  /** Message q stands complete in the ring. */
  ghost predicate Arrives(added: seq<HsMsg>, r: Ring, q: nat)
    requires |r.slots| == MAX_FLIGHT
  {
    q < |added| && Fits(added[q]) && Assembled(r, q, added[q].body)
  }

  ghost predicate AllAssembled(added: seq<HsMsg>, r: Ring, n: nat)
    requires |r.slots| == MAX_FLIGHT
  {
    forall q | r.readSeq <= q < n :: Arrives(added, r, q)
  }

  lemma AdvanceAgrees(added: seq<HsMsg>, r: Ring)
    requires RingAgrees(added, r) && r.readSeq < 0xffff
    ensures RingAgrees(added, Advance(r))
  {
    AdvanceKeepsRing(r);
  }

  lemma AdvanceKeepsAssembled(added: seq<HsMsg>, r: Ring, n: nat)
    requires RingAgrees(added, r) && AllAssembled(added, r, n) && r.readSeq < n <= r.readSeq + MAX_FLIGHT && n < 0x1_0000
    ensures AllAssembled(added, Advance(r), n)
  {
    forall q | r.readSeq + 1 <= q < n ensures Arrives(added, Advance(r), q) {
      assert Arrives(added, r, q);
    }
  }

  lemma {:induction false} ConsumeAll(added: seq<HsMsg>, r: Ring, n: nat)
    requires RingAgrees(added, r) && AllAssembled(added, r, n) && r.readSeq <= n <= r.readSeq + MAX_FLIGHT && n < 0x1_0000
    ensures Consumable(added, r, n)
    ensures var r' := AdvanceTo(r, n); RingAgrees(added, r') && r'.readSeq == n && r'.epoch == r.epoch
    decreases n - r.readSeq
  {
    if r.readSeq < n {
      var q := r.readSeq;
      assert Arrives(added, r, q);
      AdvanceAgrees(added, r);
      AdvanceKeepsAssembled(added, r, n);
      ConsumeAll(added, Advance(r), n);
      assert r.slots[q % MAX_FLIGHT].value.msgType == added[q].msgType;
    }
  }

  /** The records for message q of a flight, sent completely, have arrived, with those of others. */
  ghost predicate Arrived(recs: seq<Rec>, fs: seq<Frag>, q: nat) {
    forall rec | rec in recs && rec.content.Handshake? && rec.content.frag.hdr.seqNo == q :: rec.content.frag in fs
  }

  /** One whole transmission of a flight assembles each message whose records arrive within the window. */
  lemma MessageDelivers(added: seq<HsMsg>, r: Ring, msgs: seq<OutMsg>, origin: seq<nat>, pieces: seq<Piece>, recs: seq<Rec>,
                        fs: seq<Frag>, maxLen: nat, k: nat)
    requires RingAgrees(added, r)
    requires Sends(msgs, Pos(0, 0), pieces, recs, Pos(|msgs|, 0))
    requires |origin| == |msgs| && forall j | 0 <= j < |msgs| && msgs[j].Message? :: Serializes(added, msgs[j], origin[j])
    requires k < |msgs| && msgs[k].Message? && origin[k] < |added| && origin[k] < 0x1_0000
    requires Arrived(recs, fs, origin[k])
    requires forall f | f in fs :: WindowFrag(added, r, f, maxLen)
    ensures var o := DeliverAll(r, fs, maxLen); o.ok && Assembled(o.ring, origin[k], added[origin[k]].body)
  {
    DeliverAllStores(added, r, fs, maxLen);
    var o := DeliverAll(r, fs, maxLen);
    var q := origin[k];
    PathVisits(msgs, pieces, Pos(|msgs|, 0), k);
    var j :| 0 <= j < |pieces| && pieces[j].index == k;
    PieceStored(added, msgs, origin, pieces, recs, fs, o.ring, j);
    var p := o.ring.slots[q % MAX_FLIGHT].value;
    forall i: nat | i < |added[q].body| ensures i in p.got {
      assert Visits(pieces, k, i);
      var j' :| 0 <= j' < |pieces| && pieces[j'].index == k && pieces[j'].off <= i < pieces[j'].off + pieces[j'].len;
      PieceStored(added, msgs, origin, pieces, recs, fs, o.ring, j');
      assert Holds(o.ring, q, i);
    }
    CompleteIsBody(p, added[q].body);
  }

  /** The flight holds message number q. */
  ghost predicate Includes(msgs: seq<OutMsg>, origin: seq<nat>, q: nat) {
    |origin| == |msgs| && exists k :: 0 <= k < |msgs| && msgs[k].Message? && origin[k] == q
  }

  /**
   * A flight that ends with a message in the next epoch, such as a Finished
   * behind a ChangeCipherSpec. The records of the messages before it arrive in
   * any order and with any duplicates; they are all consumed, as serialised;
   * then the epoch changes, its own records arrive in any order, and it stands
   * complete too.
   */
  lemma FlightDeliversAcrossEpochs(added: seq<HsMsg>, r: Ring, msgs: seq<OutMsg>, origin: seq<nat>, pieces: seq<Piece>, recs: seq<Rec>,
                                   fs: seq<Frag>, gs: seq<Frag>, maxLen: nat, n: nat)
    requires RingAgrees(added, r) && r.readSeq <= n < r.readSeq + MAX_FLIGHT && n < |added| && n < 0x1_0000
    requires Sends(msgs, Pos(0, 0), pieces, recs, Pos(|msgs|, 0))
    requires |origin| == |msgs| && forall j | 0 <= j < |msgs| && msgs[j].Message? :: Serializes(added, msgs[j], origin[j])
    requires forall q | r.readSeq <= q <= n :: Includes(msgs, origin, q)
    requires forall q | r.readSeq <= q < n :: Arrived(recs, fs, q)
    requires forall f | f in fs :: WindowFrag(added, r, f, maxLen)
    requires Arrived(recs, gs, n)
    requires forall g | g in gs :: WindowFrag(added, r.(readSeq := n, epoch := 1), g, maxLen)
    ensures var o := DeliverAll(r, fs, maxLen);
            && o.ok && Consumable(added, o.ring, n)
            && var o' := DeliverAll(AdvanceTo(o.ring, n).(epoch := 1), gs, maxLen); o'.ok && Assembled(o'.ring, n, added[n].body)
  {
    DeliverAllStores(added, r, fs, maxLen);
    var o := DeliverAll(r, fs, maxLen);
    forall q | r.readSeq <= q < n ensures Arrives(added, o.ring, q) {
      assert Includes(msgs, origin, q);
      var k :| 0 <= k < |msgs| && msgs[k].Message? && origin[k] == q;
      MessageDelivers(added, r, msgs, origin, pieces, recs, fs, maxLen, k);
    }
    ConsumeAll(added, o.ring, n);
    var r' := AdvanceTo(o.ring, n).(epoch := 1);
    assert Includes(msgs, origin, n);
    var k :| 0 <= k < |msgs| && msgs[k].Message? && origin[k] == n;
    forall g | g in gs ensures WindowFrag(added, r', g, maxLen) {
      assert WindowFrag(added, r.(readSeq := n, epoch := 1), g, maxLen);
    }
    MessageDelivers(added, r', msgs, origin, pieces, recs, gs, maxLen, k);
  }

  lemma PieceStored(added: seq<HsMsg>, msgs: seq<OutMsg>, origin: seq<nat>, pieces: seq<Piece>, recs: seq<Rec>,
                    fs: seq<Frag>, r: Ring, j: nat)
    requires |r.slots| == MAX_FLIGHT && CarriesAll(msgs, pieces, recs) && j < |pieces|
    requires |origin| == |msgs| && pieces[j].index < |msgs|
    requires msgs[pieces[j].index].Message? && Serializes(added, msgs[pieces[j].index], origin[pieces[j].index])
    requires origin[pieces[j].index] < 0x1_0000 && Arrived(recs, fs, origin[pieces[j].index])
    requires forall f | f in fs :: Stored(r, f)
    ensures var p := pieces[j]; Present(r, origin[p.index]) && forall i: nat | p.off <= i < p.off + p.len :: Holds(r, origin[p.index], i)
  {
    assert recs[j] in recs;
    assert Carries(msgs, pieces[j], recs[j].content);
    assert Stored(r, recs[j].content.frag);
  }
}
