/** The link between the two parties' tapes, and what a step of one of them does to it. */
module HandshakeLink {
  import opened Bytes
  import opened HandshakeTypes
  import opened HandshakeInFlight
  import opened HandshakeActs

  /**
   * y is level with x, or ahead of it by exactly what is in flight from y: its
   * transcript is x's and the messages in flight, and nothing comes the other way.
   */
  ghost predicate Ahead(sh: Shape, x: Tape, y: Tape, fromX: seq<Item>, fromY: seq<Item>, yIsServer: bool) {
    && fromX == [] && Behind(sh, x.slot, y.slot, fromY, yIsServer)
    && y.transcript == x.transcript + Msgs(fromY) && WellHashed(y.transcript)
  }

  ghost predicate Linked(sh: Shape, x: Tape, y: Tape, fromX: seq<Item>, fromY: seq<Item>, xIsServer: bool) {
    Ahead(sh, x, y, fromX, fromY, !xIsServer) || Ahead(sh, y, x, fromY, fromX, xIsServer)
  }

  /** The link looks the same from both ends. */
  lemma LinkedSwaps(sh: Shape, x: Tape, y: Tape, fromX: seq<Item>, fromY: seq<Item>, xIsServer: bool)
    ensures Linked(sh, x, y, fromX, fromY, xIsServer) <==> Linked(sh, y, x, fromY, fromX, !xIsServer)
  {
  }

  /** Level parties are ahead of each other. */
  lemma AheadSwaps(sh: Shape, x: Tape, y: Tape, yIsServer: bool)
    requires Ahead(sh, x, y, [], [], yIsServer)
    ensures Ahead(sh, y, x, [], [], !yIsServer)
  {
    LevelFlips(sh, x.slot, y.slot, yIsServer);
    assert x.transcript + Msgs([]) == x.transcript && y.transcript + Msgs([]) == y.transcript;
  }

  /** While messages are on their way to it, a party can only pass absent slots. */
  lemma {:induction false} EmitBehind(sh: Shape, a: nat, a': nat, b: nat, items: seq<Item>, out: seq<Item>, dir: bool)
    requires Behind(sh, a, b, items, dir) && Filled(sh, a, a', out, !dir) && a' <= End(sh.resumed)
    ensures out == [] ==> Behind(sh, a', b, items, dir)
    ensures out != [] ==> items == []
    decreases a' - a
  {
    FilledForward(sh, a, a', out, !dir);
    if a < a' {
      if SlotAt(sh, a).None? {
        SkipBehind(sh, a, b, items, dir);
        EmitBehind(sh, a + 1, a', b, items, out, dir);
      } else {
        OwnTurn(sh, a, b, items, dir);
      }
    }
  }

  lemma AssocMsgs(a: seq<Msg>, b: seq<Msg>, c: seq<Msg>)
    ensures (a + b) + c == a + (b + c)
  {
  }

  /** x sends while it is level or ahead. */
  lemma EmitAhead(sh: Shape, x: Tape, x': Tape, y: Tape, fromX: seq<Item>, fromY: seq<Item>, out: seq<Item>, xIsServer: bool)
    requires Ahead(sh, y, x, fromY, fromX, xIsServer) && Emits(sh, x, x', out, xIsServer)
    ensures Ahead(sh, y, x', fromY, fromX + out, xIsServer)
  {
    SendMany(sh, y.slot, x.slot, x'.slot, fromX, out, xIsServer);
    MsgsConcat(fromX, out);
    AssocMsgs(y.transcript, Msgs(fromX), Msgs(out));
  }

  lemma EmitLinked(sh: Shape, x: Tape, x': Tape, y: Tape, fromX: seq<Item>, fromY: seq<Item>, out: seq<Item>, xIsServer: bool)
    requires Linked(sh, x, y, fromX, fromY, xIsServer) && Emits(sh, x, x', out, xIsServer)
    ensures Linked(sh, x', y, fromX + out, fromY, xIsServer)
  {
    if Ahead(sh, y, x, fromY, fromX, xIsServer) {
      EmitAhead(sh, x, x', y, fromX, fromY, out, xIsServer);
    } else {
      EmitBehind(sh, x.slot, x'.slot, y.slot, fromY, out, !xIsServer);
      if out == [] {
        assert fromX + out == [] && x.transcript + Msgs([]) == x.transcript;
      } else {
        AheadSwaps(sh, x, y, !xIsServer);
        EmitAhead(sh, x, x', y, [], [], out, xIsServer);
      }
    }
  }

  lemma FirstMessage(t: seq<Msg>, items: seq<Item>)
    requires items != []
    ensures t + Msgs(items) == (if items[0].Hs? then t + [items[0].msg] else t) + Msgs(items[1..])
  {
  }

  /** x hears the next item. */
  lemma HearLinked(sh: Shape, x: Tape, x': Tape, y: Tape, fromX: seq<Item>, fromY: seq<Item>, a: Act, xIsServer: bool)
    requires Linked(sh, x, y, fromX, fromY, xIsServer) && !a.Emit? && Did(sh, x, x', a, xIsServer)
    requires fromY != [] && fromY[0] == if a.Hear? then Hs(a.m) else Ccs
    ensures Linked(sh, x', y, fromX, fromY[1..], xIsServer)
  {
    TakeBehind(sh, x.slot, y.slot, fromY, !xIsServer);
    FirstMessage(x.transcript, fromY);
  }

  /** What is first in flight is the next message of the script; a Finished covers the hearer's transcript. */
  lemma HeadExpected(sh: Shape, x: Tape, y: Tape, fromX: seq<Item>, fromY: seq<Item>, xIsServer: bool)
    requires Linked(sh, x, y, fromX, fromY, xIsServer) && fromY != []
    ensures x.slot < End(sh.resumed) && SlotAt(sh, NextSlot(sh, x.slot)) == Some(LabelOf(!xIsServer, fromY[0]))
    ensures fromY[0].Hs? && fromY[0].msg.tag == Finished ==> fromY[0].msg.body.Mac? && fromY[0].msg.body.over == x.transcript
  {
    if x.slot >= End(sh.resumed) {
      NothingLeft(sh, x.slot, y.slot, fromY, !xIsServer);
    }
    if fromY[0].Hs? {
      var n := |x.transcript|;
      assert y.transcript[n] == fromY[0].msg && y.transcript[..n] == x.transcript;
    }
  }

  /** With nothing in flight the parties stand at the same slot and have the same transcript. */
  lemma LevelLinked(sh: Shape, x: Tape, y: Tape, xIsServer: bool)
    requires Linked(sh, x, y, [], [], xIsServer)
    ensures NextSlot(sh, x.slot) == NextSlot(sh, y.slot) && x.transcript == y.transcript
  {
    assert x.transcript + Msgs([]) == x.transcript && y.transcript + Msgs([]) == y.transcript;
  }

  lemma {:induction false} BehindOrder(sh: Shape, a: nat, b: nat, items: seq<Item>, dir: bool)
    requires Behind(sh, a, b, items, dir) && a <= End(sh.resumed) && b <= End(sh.resumed)
    ensures NextSlot(sh, a) <= NextSlot(sh, b) && (items != [] ==> NextSlot(sh, a) < NextSlot(sh, b))
    decreases |items|
  {
    if items != [] {
      BehindOrder(sh, NextSlot(sh, a) + 1, b, items[1..], dir);
    }
  }

  /** While the server has not answered: the client's hello is in flight, alone. */
  lemma HelloInFlight(sh: Shape, c: Tape, s: Tape, up: seq<Item>, down: seq<Item>)
    requires Linked(sh, c, s, up, down, false) && s.slot == 0 && up != [] && c.slot <= End(sh.resumed)
    ensures c.slot == 1 && |up| == 1 && down == [] && c.transcript == s.transcript + Msgs(up) && WellHashed(c.transcript)
  {
    NextOf(sh, 0);
    NextOf(sh, 1);
    TakeBehind(sh, 0, c.slot, up, false);
    OwnTurn(sh, 1, c.slot, up[1..], false);
    if c.slot == 0 {
      assert NextSlot(sh, c.slot) == 0;
    }
  }

  /** Before the ServerHello both parties stand at its slot. */
  lemma BeforeServerHello(sh: Shape, c: Tape, s: Tape, up: seq<Item>, down: seq<Item>)
    requires Linked(sh, c, s, up, down, false) && s.slot == 1 && c.slot <= End(sh.resumed)
    ensures c.slot == 1 && up == [] && down == [] && c.transcript == s.transcript && WellHashed(c.transcript)
  {
    NextOf(sh, 0);
    NextOf(sh, 1);
    if Ahead(sh, c, s, up, down, true) {
      BehindOrder(sh, c.slot, 1, down, true);
    } else {
      OwnTurn(sh, 1, c.slot, up, false);
    }
    LevelLinked(sh, c, s, false);
  }

  /** Before the ClientHello nothing has been sent. */
  lemma NothingYet(sh: Shape, c: Tape, s: Tape, up: seq<Item>, down: seq<Item>)
    requires Linked(sh, c, s, up, down, false) && c.slot == 0 && s.slot <= End(sh.resumed)
    ensures up == [] && down == [] && s.slot == 0
  {
    NextOf(sh, 0);
    if Ahead(sh, c, s, up, down, true) {
      OwnTurn(sh, 0, s.slot, down, true);
    } else {
      BehindOrder(sh, s.slot, 0, up, false);
    }
  }

  /** A client that has heard from the server, or is about to, faces one that has settled the script. */
  lemma ServerHasSettled(sh: Shape, c: Tape, s: Tape, up: seq<Item>, down: seq<Item>)
    requires Linked(sh, c, s, up, down, false) && c.slot <= End(sh.resumed) && s.slot <= End(sh.resumed)
    requires c.slot >= 2 || (c.slot == 1 && down != [])
    ensures s.slot >= 1
  {
    NextOf(sh, 0);
    NextOf(sh, 1);
    if Ahead(sh, c, s, up, down, true) {
      BehindOrder(sh, c.slot, s.slot, down, true);
    } else if s.slot == 0 && up != [] {
      HelloInFlight(sh, c, s, up, down);
    }
  }
}
