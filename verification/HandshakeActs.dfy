/** What one step does to a party's tape, as the script allows it. */
module HandshakeActs {
  import opened Bytes
  import opened HandshakeTypes
  import opened HandshakeInFlight

  /** A step sends some items, or hears a message or a ChangeCipherSpec. */
  datatype Act = Emit(out: seq<Item>) | Hear(m: Msg) | HearChangeCipherSpec

  /** The items fill the sender's slots, and enter its transcript and its queue. */
  ghost predicate Emits(sh: Shape, t: Tape, t': Tape, out: seq<Item>, byServer: bool) {
    && t'.pending == t.pending + out && t'.transcript == t.transcript + Msgs(out)
    && Filled(sh, t.slot, t'.slot, out, byServer) && t'.slot <= End(sh.resumed)
    && (WellHashed(t.transcript) ==> WellHashed(t'.transcript))
  }

  /** The message or ChangeCipherSpec heard is that of the hearer's slot. */
  ghost predicate Did(sh: Shape, t: Tape, t': Tape, a: Act, byServer: bool) {
    match a
    case Emit(out) => Emits(sh, t, t', out, byServer)
    case Hear(m) => t.slot < End(sh.resumed) && SlotAt(sh, t.slot) == Some(Label(!byServer, Some(m.tag))) && t' == t.Take(!byServer, m)
    case HearChangeCipherSpec =>
      t.slot < End(sh.resumed) && SlotAt(sh, t.slot) == Some(Label(!byServer, None)) && t' == t.TakeChangeCipherSpec(!byServer)
  }

  /** What the parties put into their messages. */
  predicate Proper(x: Item, byServer: bool, hello: Params, hasCert: bool, offered: bool) {
    x.Ccs? ||
    match x.msg.tag
    case ClientHello => x.msg.body.Offer? && x.msg.body.session == offered
    case ServerHello => x.msg.body.Chosen? && x.msg.body.params == hello
    case Certificate => x.msg.body.Chain? && x.msg.body.empty == (!byServer && !hasCert)
    case NewSessionTicket => x.msg.body.Ticket?
    case Finished => x.msg.body.Mac? && x.msg.body.byServer == byServer
    case _ => true
  }

  ghost predicate AllProper(items: seq<Item>, byServer: bool, hello: Params, hasCert: bool, offered: bool) {
    forall i | 0 <= i < |items| :: Proper(items[i], byServer, hello, hasCert, offered)
  }

  /** The message is the next one of the script, properly made. */
  ghost predicate Expected(sh: Shape, t: Tape, m: Option<Msg>, byServer: bool, hello: Params, hasCert: bool, offered: bool) {
    m.Some? ==>
      && t.slot < End(sh.resumed)
      && SlotAt(sh, NextSlot(sh, t.slot)) == Some(Label(byServer, Some(m.value.tag)))
      && Proper(Hs(m.value), byServer, hello, hasCert, offered)
      && (m.value.tag == Finished ==> m.value.body.over == t.transcript)
  }

  /** The next message of the script is a handshake message from that side. */
  ghost predicate MessageNext(sh: Shape, n: nat, byServer: bool) {
    var l := SlotAt(sh, NextSlot(sh, n));
    n < End(sh.resumed) && l.Some? && l.value.byServer == byServer && l.value.tag.Some?
  }

  lemma EmitNothing(sh: Shape, t: Tape, byServer: bool)
    requires t.slot <= End(sh.resumed)
    ensures Emits(sh, t, t, [], byServer)
  {
    assert t.pending + [] == t.pending && t.transcript + Msgs([]) == t.transcript;
  }

  lemma EmitSkip(sh: Shape, t: Tape, byServer: bool)
    requires t.slot < End(sh.resumed) && SlotAt(sh, t.slot).None?
    ensures Emits(sh, t, t.Skip(), [], byServer)
  {
    assert t.pending + [] == t.pending && t.transcript + Msgs([]) == t.transcript;
    assert Filled(sh, t.slot + 1, t.slot + 1, [], byServer);
  }

  lemma EmitOne(sh: Shape, t: Tape, m: Msg, byServer: bool)
    requires t.slot < End(sh.resumed) && SlotAt(sh, t.slot) == Some(Label(byServer, Some(m.tag)))
    requires m.tag == Finished ==> m.body.Mac? && m.body.over == t.transcript
    ensures Emits(sh, t, t.Add(byServer, m), [Hs(m)], byServer)
  {
    assert [Hs(m)][1..] == [] && Msgs([Hs(m)]) == [m];
    assert Filled(sh, t.slot + 1, t.slot + 1, [], byServer);
    if WellHashed(t.transcript) {
      WellHashedSnoc(t.transcript, m);
    }
  }

  lemma EmitChangeCipherSpec(sh: Shape, t: Tape, byServer: bool)
    requires t.slot < End(sh.resumed) && SlotAt(sh, t.slot) == Some(Label(byServer, None))
    ensures Emits(sh, t, t.AddChangeCipherSpec(byServer), [Ccs], byServer)
  {
    assert [Ccs][1..] == [] && Msgs([Ccs]) == [];
    assert Filled(sh, t.slot + 1, t.slot + 1, [], byServer);
    assert t.transcript + [] == t.transcript;
  }

  function Maybe(present: bool, m: Msg): seq<Item> {
    if present then [Hs(m)] else []
  }

  lemma EmitMaybe(sh: Shape, t: Tape, present: bool, m: Msg, byServer: bool)
    requires t.slot < End(sh.resumed) && SlotAt(sh, t.slot) == If(present, byServer, Some(m.tag)) && m.tag != Finished
    ensures Emits(sh, t, t.AddIf(present, byServer, m), Maybe(present, m), byServer)
  {
    if present {
      EmitOne(sh, t, m, byServer);
    } else {
      EmitSkip(sh, t, byServer);
    }
  }

  lemma {:induction false} FilledThen(sh: Shape, a: nat, b: nat, c: nat, p: seq<Item>, q: seq<Item>, dir: bool)
    requires Filled(sh, a, b, p, dir) && Filled(sh, b, c, q, dir) && a <= b <= c
    ensures Filled(sh, a, c, p + q, dir)
    decreases b - a
  {
    if a == b {
      assert p + q == q;
    } else if SlotAt(sh, a).None? {
      FilledThen(sh, a + 1, b, c, p, q, dir);
    } else {
      assert (p + q)[1..] == p[1..] + q;
      FilledThen(sh, a + 1, b, c, p[1..], q, dir);
    }
  }

  lemma {:induction false} FilledForward(sh: Shape, a: nat, b: nat, p: seq<Item>, dir: bool)
    requires Filled(sh, a, b, p, dir)
    ensures a <= b
  {
  }

  lemma EmitThen(sh: Shape, t: Tape, t1: Tape, t2: Tape, p: seq<Item>, q: seq<Item>, byServer: bool)
    requires Emits(sh, t, t1, p, byServer) && Emits(sh, t1, t2, q, byServer)
    ensures Emits(sh, t, t2, p + q, byServer)
  {
    FilledForward(sh, t.slot, t1.slot, p, byServer);
    FilledForward(sh, t1.slot, t2.slot, q, byServer);
    FilledThen(sh, t.slot, t1.slot, t2.slot, p, q, byServer);
    MsgsConcat(p, q);
    assert t.pending + p + q == t.pending + (p + q);
    assert t.transcript + Msgs(p) + Msgs(q) == t.transcript + (Msgs(p) + Msgs(q));
  }

  lemma EmitFinished(sh: Shape, t: Tape, byServer: bool)
    requires t.slot < End(sh.resumed) && SlotAt(sh, t.slot) == Some(Label(byServer, Some(Finished)))
    ensures Emits(sh, t, t.AddFinished(byServer), [Hs(Msg(Finished, Mac(byServer, t.transcript)))], byServer)
  {
    EmitOne(sh, t, Msg(Finished, Mac(byServer, t.transcript)), byServer);
  }

  /** The message is that of the hearer's slot, if the slot is there. */
  lemma MessageHere(sh: Shape, t: Tape, m: Msg, byServer: bool, hello: Params, hasCert: bool, offered: bool)
    requires Expected(sh, t, Some(m), byServer, hello, hasCert, offered) && SlotAt(sh, t.slot).Some?
    ensures SlotAt(sh, t.slot) == Some(Label(byServer, Some(m.tag)))
  {
    NextOf(sh, t.slot);
  }

  lemma Idle(sh: Shape, t: Tape, byServer: bool) returns (a: Act)
    requires t.slot <= End(sh.resumed)
    ensures a == Emit([]) && Did(sh, t, t, a, byServer)
  {
    a := Emit([]);
    EmitNothing(sh, t, byServer);
  }

  lemma Skipped(sh: Shape, t: Tape, byServer: bool) returns (a: Act)
    requires t.slot < End(sh.resumed) && SlotAt(sh, t.slot).None?
    ensures a == Emit([]) && Did(sh, t, t.Skip(), a, byServer)
  {
    a := Emit([]);
    EmitSkip(sh, t, byServer);
  }

  lemma Sent(sh: Shape, t: Tape, m: Msg, byServer: bool) returns (a: Act)
    requires t.slot < End(sh.resumed) && SlotAt(sh, t.slot) == Some(Label(byServer, Some(m.tag))) && m.tag != Finished
    ensures a == Emit([Hs(m)]) && Did(sh, t, t.Add(byServer, m), a, byServer)
  {
    a := Emit([Hs(m)]);
    EmitOne(sh, t, m, byServer);
  }
}
