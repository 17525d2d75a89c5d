/**
 * Two-party agreement: with no failure on either side, every interleaving
 * completes both machines, no message is unexpected, and the transcripts agree
 * whenever a Finished is checked.
 */
module HandshakeAgreement {
  import opened Bytes
  import opened HandshakeTypes
  import opened HandshakeInFlight
  import opened HandshakeActs
  import opened HandshakeLink
  import opened HandshakeSystem
  import C = HandshakeClient
  import S = HandshakeServer
  import HC = HonestClient
  import HS = HonestServer

  // The server's moves

  lemma ServerHead(y: System, hasCert: bool)
    requires Wires(y, hasCert)
    ensures Expected(ShapeIn(y, hasCert), y.s.tape, Head(y.toServer), false, y.s.f.hello, hasCert, y.offered)
    ensures y.toServer != [] ==> Up(y)[0] == y.toServer[0] && Up(y)[1..] == y.toServer[1..] + y.c.tape.pending
  {
    if y.toServer != [] {
      assert Up(y)[0] == y.toServer[0];
      LinkedSwaps(ShapeIn(y, hasCert), y.c.tape, y.s.tape, Up(y), Down(y), false);
      HeadExpected(ShapeIn(y, hasCert), y.s.tape, y.c.tape, Down(y), Up(y), true);
    }
  }

  lemma ServerAwaitsChange(s: S.Server, hasCert: bool)
    requires S.Ready(s) && s.state == S.ProcessChangeCipherSpec
    ensures var sh := HS.JointShape(s.f, hasCert); s.tape.slot < End(sh.resumed) && SlotAt(sh, s.tape.slot) == Some(Label(false, None))
  {
  }

  /** What comes is of the kind the server waits for. */
  lemma ServerNotRefused(y: System, hasCert: bool)
    requires Parties(y, hasCert) && Wires(y, hasCert) && ServerWaits(y, hasCert)
    ensures !Refuses(y.sw, y.toServer)
  {
    if y.toServer != [] {
      ServerHead(y, hasCert);
      LinkedSwaps(ShapeIn(y, hasCert), y.c.tape, y.s.tape, Up(y), Down(y), false);
      if y.sw == ReadMessage {
        MessageComes(ShapeIn(y, hasCert), y.s.tape, y.c.tape, Down(y), Up(y), true);
      } else if y.sw == ReadChangeCipherSpec {
        ServerAwaitsChange(y.s, hasCert);
        ChangeComes(ShapeIn(y, hasCert), y.s.tape, y.c.tape, Down(y), Up(y), true);
      }
    }
  }

  /** Flushing moves what is queued to the wire, and changes nothing else. */
  function ServerFlush(y: System): System {
    y.(s := y.s.(tape := y.s.tape.(pending := [])), sw := Ok, toClient := y.toClient + y.s.tape.pending)
  }

  lemma ServerFlushKeeps(y: System, hasCert: bool)
    requires Inv(y, hasCert) && y.sw == Flush
    ensures Inv(ServerFlush(y), hasCert)
  {
    assert Down(ServerFlush(y)) == Down(y);
  }

  lemma ServerFlushMove(y: System, e: Env)
    requires y.sw == Flush
    ensures ServerMove(y, e) == ServerMove(ServerFlush(y), e) || y.s.state == S.Done
  {
  }

  /** The state of the system after a server's step. */
  function Stepped(y: System, r: S.Result, up: seq<Item>): System {
    System(y.c, y.cw, r.s, r.wait, up, y.toClient, y.offered)
  }

  /** The wires, under the script and hello that the server's step leaves. */
  ghost predicate WiresUnder(y: System, f: S.Fields, hasCert: bool) {
    Carried(HS.JointShape(f, hasCert), y.s.tape, y.c.tape, Down(y), Up(y), true, f.hello, hasCert, y.offered)
  }

  lemma SameWires(y: System, f: S.Fields, hasCert: bool)
    requires Wires(y, hasCert) && HS.JointShape(f, hasCert) == ShapeIn(y, hasCert) && f.hello == y.s.f.hello
    ensures WiresUnder(y, f, hasCert)
  {
    LinkedSwaps(ShapeIn(y, hasCert), y.c.tape, y.s.tape, Up(y), Down(y), false);
  }

  lemma ServerEmits(y: System, r: S.Result, out: seq<Item>, hasCert: bool)
    requires WiresUnder(y, r.s.f, hasCert) && Emits(HS.JointShape(r.s.f, hasCert), y.s.tape, r.s.tape, out, true)
    requires AllProper(out, true, r.s.f.hello, hasCert, y.offered)
    ensures Wires(Stepped(y, r, y.toServer), hasCert)
  {
    var sh := HS.JointShape(r.s.f, hasCert);
    EmitCarried(sh, y.s.tape, r.s.tape, y.c.tape, Down(y), Up(y), out, true, r.s.f.hello, hasCert, y.offered);
    AssocItems(y.toClient, y.s.tape.pending, out);
    LinkedSwaps(sh, r.s.tape, y.c.tape, Down(y) + out, Up(y), true);
  }

  lemma ServerHears(y: System, r: S.Result, a: Act, hasCert: bool)
    requires WiresUnder(y, r.s.f, hasCert) && !a.Emit? && Did(HS.JointShape(r.s.f, hasCert), y.s.tape, r.s.tape, a, true)
    requires y.toServer != [] && y.toServer[0] == if a.Hear? then Hs(a.m) else Ccs
    ensures Wires(Stepped(y, r, y.toServer[1..]), hasCert)
  {
    var sh := HS.JointShape(r.s.f, hasCert);
    assert Up(y)[0] == y.toServer[0] && Up(y)[1..] == y.toServer[1..] + y.c.tape.pending;
    HearCarried(sh, y.s.tape, r.s.tape, y.c.tape, Down(y), Up(y), a, true, r.s.f.hello, hasCert, y.offered);
    LinkedSwaps(sh, r.s.tape, y.c.tape, Down(y), Up(y)[1..], true);
  }

  /** The client's view stands under the script and hello that the server's step leaves. */
  ghost predicate ClientUnder(y: System, f: S.Fields, hasCert: bool) {
    && HC.Agree(y.c, HS.JointShape(f, hasCert), f.hello, y.offered)
    && (y.cw == ReadMessage ==> MessageNext(HS.JointShape(f, hasCert), y.c.tape.slot, true))
  }

  /** Both parties are in order after the server's step. */
  lemma ServerInOrder(y: System, m: Option<Msg>, e: Env, a: Act, up: seq<Item>)
    requires Inv(y, e.hasCert) && y.s.state != S.Done && y.sw != Flush
    requires HS.Behaves(y.s, S.Step(y.s, m, e), m, a, e.hasCert, y.offered) && ClientUnder(y, S.Step(y.s, m, e).s.f, e.hasCert)
    requires S.Step(y.s, m, e).s.tape.slot >= 1 ==> HS.Offered(S.Step(y.s, m, e).s.f, y.offered)
    ensures var y' := Stepped(y, S.Step(y.s, m, e), up);
            Parties(y', e.hasCert) && ClientWaits(y', e.hasCert) && ServerWaits(y', e.hasCert)
  {
    S.StepKeepsInv(y.s, m, e);
    S.StepFlushed(y.s, m, e);
  }

  /** The ClientHello, alone in flight, suits any script. */
  lemma AnyScriptBegins(sh: Shape, s: Tape, c: Tape, up: seq<Item>, hello: Params, hasCert: bool, offered: bool)
    requires s.slot == 0 && c.slot == 1 && |up| == 1 && LabelOf(false, up[0]) == Label(false, Some(ClientHello))
    requires c.transcript == s.transcript + Msgs(up) && WellHashed(c.transcript) && Proper(up[0], false, hello, hasCert, offered)
    ensures Carried(sh, s, c, [], up, true, hello, hasCert, offered)
  {
    NextOf(sh, 0);
    NextOf(sh, 1);
    assert up[1..] == [] && Behind(sh, 1, 1, up[1..], false);
  }

  lemma AnyScriptLevel(sh: Shape, s: Tape, c: Tape, hello: Params, hasCert: bool, offered: bool)
    requires s.slot == 1 && c.slot == 1 && c.transcript == s.transcript && WellHashed(c.transcript)
    ensures Carried(sh, s, c, [], [], true, hello, hasCert, offered)
  {
    assert s.transcript + Msgs([]) == s.transcript;
  }

  /** A client that waits for the hello is content with any script. */
  lemma AnyScriptSuits(y: System, f: S.Fields, hasCert: bool)
    requires HC.Agree(y.c, ShapeIn(y, hasCert), y.s.f.hello, y.offered) && C.Ready(y.c, hasCert) && y.c.tape.slot == 1
    ensures ClientUnder(y, f, hasCert)
  {
    ClientSlot(y.c, ShapeIn(y, hasCert), y.s.f.hello, hasCert, y.offered);
    NextOf(HS.JointShape(f, hasCert), 1);
  }

  /** The script is settled: the client's hello was all that was in flight. */
  lemma SelectingSettles(y: System, f: S.Fields, hasCert: bool)
    requires Parties(y, hasCert) && Wires(y, hasCert) && y.s.tape.slot == 0 && y.toServer != []
    ensures WiresUnder(y, f, hasCert) && ClientUnder(y, f, hasCert)
  {
    var sh := ShapeIn(y, hasCert);
    ClientSlot(y.c, sh, y.s.f.hello, hasCert, y.offered);
    HelloInFlight(sh, y.c.tape, y.s.tape, Up(y), Down(y));
    LinkedSwaps(sh, y.c.tape, y.s.tape, Up(y), Down(y), false);
    HeadExpected(sh, y.s.tape, y.c.tape, Down(y), Up(y), true);
    NextOf(sh, 0);
    AnyScriptBegins(HS.JointShape(f, hasCert), y.s.tape, y.c.tape, Up(y), f.hello, hasCert, y.offered);
    AnyScriptSuits(y, f, hasCert);
  }

  /** The hello is announced: nothing is in flight. */
  lemma AnnouncingSettles(y: System, f: S.Fields, hasCert: bool)
    requires Parties(y, hasCert) && Wires(y, hasCert) && y.s.tape.slot == 1
    ensures WiresUnder(y, f, hasCert) && ClientUnder(y, f, hasCert)
  {
    var sh := ShapeIn(y, hasCert);
    ClientSlot(y.c, sh, y.s.f.hello, hasCert, y.offered);
    BeforeServerHello(sh, y.c.tape, y.s.tape, Up(y), Down(y));
    AnyScriptLevel(HS.JointShape(f, hasCert), y.s.tape, y.c.tape, f.hello, hasCert, y.offered);
    AnyScriptSuits(y, f, hasCert);
  }

  /** Before its parameters are selected the server only looks. */
  lemma OnlyLooks(s: S.Server, m: Option<Msg>, e: Env)
    requires S.Ready(s) && s.tape.slot == 0 && s.state != S.SelectParameters
    ensures S.Step(s, m, e).s.tape == s.tape
  {
  }

  lemma SettlingSlots(s: S.Server)
    requires S.Ready(s)
    ensures s.state == S.SelectParameters ==> s.tape.slot == 0
    ensures s.state == S.SendServerHello ==> s.tape.slot == 1
  {
  }

  /** Whatever the server's step settles, what is in flight and the client's view go with it. */
  lemma ServerSettles(y: System, m: Option<Msg>, e: Env, a: Act)
    requires Inv(y, e.hasCert) && HS.Behaves(y.s, S.Step(y.s, m, e), m, a, e.hasCert, y.offered)
    requires a.Hear? ==> y.toServer != []
    requires !HS.Settling(y.s.state) ==> HS.SameScript(y.s, S.Step(y.s, m, e), e.hasCert)
    requires y.s.state == S.SelectParameters && !a.Hear? ==> S.Step(y.s, m, e).s == y.s
    ensures WiresUnder(y, S.Step(y.s, m, e).s.f, e.hasCert) && ClientUnder(y, S.Step(y.s, m, e).s.f, e.hasCert)
  {
    var f := S.Step(y.s, m, e).s.f;
    SettlingSlots(y.s);
    if y.s.state == S.SelectParameters && a.Hear? {
      SelectingSettles(y, f, e.hasCert);
    } else if y.s.state == S.SendServerHello {
      AnnouncingSettles(y, f, e.hasCert);
    } else {
      SameWires(y, f, e.hasCert);
    }
  }

  lemma ServerKeepsOffer(y: System, m: Option<Msg>, e: Env, a: Act)
    requires Parties(y, e.hasCert) && y.s.state != S.Done
    requires !HS.Settling(y.s.state) ==> HS.SameScript(y.s, S.Step(y.s, m, e), e.hasCert)
    requires y.s.state == S.SelectParameters && !a.Hear? ==> S.Step(y.s, m, e).s == y.s
    requires HS.Settling(y.s.state) && (HS.Offered(y.s.f, y.offered) || a.Hear?) ==> HS.Offered(S.Step(y.s, m, e).s.f, y.offered)
    ensures S.Step(y.s, m, e).s.tape.slot >= 1 ==> HS.Offered(S.Step(y.s, m, e).s.f, y.offered)
  {
    SettlingSlots(y.s);
    if y.s.tape.slot == 0 && y.s.state != S.SelectParameters {
      OnlyLooks(y.s, m, e);
    }
  }

  /** A server's step on a message, on its own account, or with nothing there yet. */
  lemma ServerSteps(y: System, e: Env)
    requires Inv(y, e.hasCert) && HS.Smooth(e) && y.s.state != S.Done
    requires !Halted(y.sw, y.toServer) && y.sw != Flush && y.sw != ReadChangeCipherSpec
    ensures Inv(ServerMove(y, e), e.hasCert)
  {
    var m := Head(y.toServer);
    ServerNotRefused(y, e.hasCert);
    ServerHead(y, e.hasCert);
    var a := HS.HonestStep(y.s, m, e, y.offered);
    var r := S.Step(y.s, m, e);
    ServerSettles(y, m, e, a);
    ServerKeepsOffer(y, m, e, a);
    if a.Emit? {
      ServerEmits(y, r, a.out, e.hasCert);
      ServerInOrder(y, m, e, a, y.toServer);
    } else {
      ServerHears(y, r, a, e.hasCert);
      ServerInOrder(y, m, e, a, y.toServer[1..]);
    }
  }

  lemma ServerChangeMove(y: System, e: Env)
    requires y.sw == ReadChangeCipherSpec && y.toServer != [] && y.toServer[0].Ccs? && y.s.state != S.Done
    ensures ServerMove(y, e) == Stepped(y, S.Step(y.s, None, e), y.toServer[1..])
  {
  }

  /** A server's step once the ChangeCipherSpec it waited for has come. */
  lemma ServerChanges(y: System, e: Env)
    requires Inv(y, e.hasCert) && HS.Smooth(e) && y.sw == ReadChangeCipherSpec && y.toServer != []
    ensures Inv(ServerMove(y, e), e.hasCert)
  {
    ServerNotRefused(y, e.hasCert);
    ServerChangeMove(y, e);
    var a := HS.HonestStep(y.s, None, e, y.offered);
    ServerSettles(y, None, e, a);
    ServerKeepsOffer(y, None, e, a);
    ServerHears(y, S.Step(y.s, None, e), a, e.hasCert);
    ServerInOrder(y, None, e, a, y.toServer[1..]);
  }

  lemma ServerMoveSettled(y: System, e: Env)
    requires Inv(y, e.hasCert) && HS.Smooth(e) && y.sw != Flush
    ensures Inv(ServerMove(y, e), e.hasCert)
  {
    if Halted(y.sw, y.toServer) || y.s.state == S.Done {
    } else if y.sw == ReadChangeCipherSpec {
      ServerChanges(y, e);
    } else {
      ServerSteps(y, e);
    }
  }

  /** Every move of the server keeps the invariant. */
  lemma ServerMoveKeeps(y: System, e: Env)
    requires Inv(y, e.hasCert) && HS.Smooth(e)
    ensures Inv(ServerMove(y, e), e.hasCert)
  {
    if y.sw == Flush && y.s.state != S.Done {
      ServerFlushKeeps(y, e.hasCert);
      ServerFlushMove(y, e);
      ServerMoveSettled(ServerFlush(y), e);
    } else if y.sw != Flush {
      ServerMoveSettled(y, e);
    }
  }

  // Whole runs

  datatype Move = ByClient(e: Env) | ByServer(e: Env)

  function Apply(y: System, mv: Move): System {
    match mv
    case ByClient(e) => ClientMove(y, e)
    case ByServer(e) => ServerMove(y, e)
  }

  ghost function Run(y: System, moves: seq<Move>): System
    decreases |moves|
  {
    if moves == [] then y else Run(Apply(y, moves[0]), moves[1..])
  }

  /** No operation fails, and the client's certificate stays as it is. */
  ghost predicate NoAbort(moves: seq<Move>, hasCert: bool) {
    forall i | 0 <= i < |moves| :: HS.Smooth(moves[i].e) && moves[i].e.hasCert == hasCert
  }

  ghost predicate Initial(y: System) {
    C.Initial(y.c) && S.Initial(y.s) && y.cw == Ok && y.sw == Ok && y.toServer == [] && y.toClient == []
  }

  lemma InitialHolds(y: System, hasCert: bool)
    requires Initial(y)
    ensures Inv(y, hasCert)
  {
    C.InitialHolds(y.c, hasCert);
    S.InitialHolds(y.s);
    assert y.c.tape.transcript + Msgs([]) == y.s.tape.transcript;
  }

  lemma MoveKeeps(y: System, move: Move)
    requires Inv(y, move.e.hasCert) && HS.Smooth(move.e)
    ensures Inv(Apply(y, move), move.e.hasCert)
  {
    match move {
      case ByClient(e) => ClientMoveKeeps(y, e);
      case ByServer(e) => ServerMoveKeeps(y, e);
    }
  }

  lemma {:induction false} RunKeepsInv(y: System, moves: seq<Move>, hasCert: bool)
    requires Inv(y, hasCert) && NoAbort(moves, hasCert)
    ensures Inv(Run(y, moves), hasCert)
    decreases |moves|
  {
    if moves != [] {
      MoveKeeps(y, moves[0]);
      RunKeepsInv(Apply(y, moves[0]), moves[1..], hasCert);
    }
  }

  /** A Finished that arrives covers exactly the transcript of the party that checks it. */
  lemma ServerFinishedMatches(y: System, hasCert: bool)
    requires Wires(y, hasCert) && Head(y.toClient).Some? && Head(y.toClient).value.tag == Finished
    ensures Head(y.toClient).value.body == Mac(true, y.c.tape.transcript)
  {
    ClientHead(y, hasCert);
  }

  lemma ClientFinishedMatches(y: System, hasCert: bool)
    requires Wires(y, hasCert) && Head(y.toServer).Some? && Head(y.toServer).value.tag == Finished
    ensures Head(y.toServer).value.body == Mac(false, y.s.tape.transcript)
  {
    ServerHead(y, hasCert);
  }

  predicate ClientCanMove(y: System) {
    y.c.state != C.Done && !Halted(y.cw, y.toClient)
  }

  predicate ServerCanMove(y: System) {
    y.s.state != S.Done && !Halted(y.sw, y.toServer)
  }

  predicate Completed(y: System) {
    y.c.state == C.Done && y.s.state == S.Done
  }

  lemma ClientEnd(c: C.Client, sh: Shape, hello: Params, hasCert: bool, offered: bool)
    requires C.Ready(c, hasCert) && HC.Agree(c, sh, hello, offered) && c.state == C.Done
    ensures c.tape.slot == End(sh.resumed)
  {
  }

  lemma ServerEnd(s: S.Server, hasCert: bool)
    requires S.Ready(s) && s.state == S.Done
    ensures s.tape.slot == End(HS.JointShape(s.f, hasCert).resumed)
  {
  }

  /** A party that waits stands before a slot of the other side. */
  lemma ClientTurn(y: System, hasCert: bool)
    requires Parties(y, hasCert) && ClientWaits(y, hasCert) && (Reads(y.cw) || y.c.state == C.Done)
    ensures var l := SlotAt(ShapeIn(y, hasCert), NextSlot(ShapeIn(y, hasCert), y.c.tape.slot));
            if y.c.state == C.Done then l.None? else l.Some? && l.value.byServer
  {
    var sh := ShapeIn(y, hasCert);
    if y.c.state == C.Done {
      ClientEnd(y.c, sh, y.s.f.hello, hasCert, y.offered);
    } else if y.cw == ReadChangeCipherSpec {
      ClientAwaitsChange(y.c, sh, hasCert, y.s.f.hello, y.offered);
      NextOf(sh, y.c.tape.slot);
    }
  }

  lemma ServerTurn(y: System, hasCert: bool)
    requires Parties(y, hasCert) && ServerWaits(y, hasCert) && (Reads(y.sw) || y.s.state == S.Done)
    ensures var l := SlotAt(ShapeIn(y, hasCert), NextSlot(ShapeIn(y, hasCert), y.s.tape.slot));
            if y.s.state == S.Done then l.None? else l.Some? && !l.value.byServer
  {
    var sh := ShapeIn(y, hasCert);
    if y.s.state == S.Done {
      ServerEnd(y.s, hasCert);
    } else if y.sw == ReadChangeCipherSpec {
      ServerAwaitsChange(y.s, hasCert);
      NextOf(sh, y.s.tape.slot);
    }
  }

  /** A party that is done, or whose inbox is empty, has nothing in flight to it once the other has flushed. */
  lemma NothingInFlight(y: System, hasCert: bool)
    requires Inv(y, hasCert) && !ClientCanMove(y) && !ServerCanMove(y)
    ensures Up(y) == [] && Down(y) == []
  {
    var sh := ShapeIn(y, hasCert);
    if y.toClient != [] {
      ClientEnd(y.c, sh, y.s.f.hello, hasCert, y.offered);
      HeadExpected(sh, y.c.tape, y.s.tape, Up(y), Down(y), false);
    }
    if y.toServer != [] {
      ServerEnd(y.s, hasCert);
      LinkedSwaps(sh, y.c.tape, y.s.tape, Up(y), Down(y), false);
      HeadExpected(sh, y.s.tape, y.c.tape, Down(y), Up(y), true);
    }
  }

  /** No deadlock: while the handshake is not complete, somebody can move. */
  lemma SomebodyCanMove(y: System, hasCert: bool)
    requires Inv(y, hasCert) && !Completed(y)
    ensures ClientCanMove(y) || ServerCanMove(y)
  {
    if !ClientCanMove(y) && !ServerCanMove(y) {
      NothingInFlight(y, hasCert);
      LevelLinked(ShapeIn(y, hasCert), y.c.tape, y.s.tape, false);
      ClientTurn(y, hasCert);
      ServerTurn(y, hasCert);
      assert false;
    }
  }

  /** A completed handshake leaves both sides with the same transcript, parameters and mode. */
  lemma CompletedAgrees(y: System, hasCert: bool)
    requires Inv(y, hasCert) && Completed(y)
    ensures y.c.tape.transcript == y.s.tape.transcript && y.c.f.hello == y.s.f.hello && y.c.f.session == y.s.f.session
  {
    NothingInFlight(y, hasCert);
    LevelLinked(ShapeIn(y, hasCert), y.c.tape, y.s.tape, false);
  }

  // Termination

  function Open(w: Wait): nat {
    if Reads(w) then 0 else 1
  }

  /** Slots and states left to each party, and whether it has yet to find its inbox empty. */
  function Rank(y: System): int {
    2 * (4 * (17 - y.c.tape.slot) + C.Minor(y.c.state)) + Open(y.cw)
    + 2 * (4 * (17 - y.s.tape.slot) + S.Minor(y.s.state)) + Open(y.sw)
  }

  lemma RankBounded(y: System, hasCert: bool)
    requires Parties(y, hasCert)
    ensures Rank(y) >= 0
  {
    C.SlotBound(y.c);
    S.SlotBound(y.s);
  }

  lemma ClientFlushRank(y: System)
    requires y.cw == Flush
    ensures Rank(ClientFlush(y)) == Rank(y) && (ClientCanMove(y) ==> ClientCanMove(ClientFlush(y)))
  {
  }

  lemma ClientOnlyLooked(y: System, hasCert: bool)
    requires C.Ready(y.c, hasCert) && y.c.state == C.ReadHelloVerifyRequest
    ensures y.c.tape.slot == 1
  {
  }

  lemma ClientRises(y: System, z: System)
    requires z.c.tape.slot > y.c.tape.slot && z.s == y.s && z.sw == y.sw
    ensures Rank(z) < Rank(y)
  {
  }

  lemma ServerRises(y: System, z: System)
    requires z.s.tape.slot > y.s.tape.slot && z.c == y.c && z.cw == y.cw
    ensures Rank(z) < Rank(y)
  {
  }

  lemma ClientChangeStep(c: C.Client, e: Env)
    requires c.state == C.ProcessChangeCipherSpec && !e.fail
    ensures var r := C.Step(c, None, e); r.wait == Ok && r.c.tape.slot == c.tape.slot + 1
  {
  }

  lemma ClientChangeSinks(y: System, e: Env)
    requires Inv(y, e.hasCert) && !e.fail && y.cw == ReadChangeCipherSpec && ClientCanMove(y)
    ensures Rank(ClientMove(y, e)) < Rank(y)
  {
    ClientNotRefused(y, e.hasCert);
    ClientChangeMove(y, e);
    ClientChangeStep(y.c, e);
    ClientRises(y, ClientMove(y, e));
  }

  lemma ClientMoveParts(y: System, e: Env)
    requires ClientCanMove(y) && !Refuses(y.cw, y.toClient) && y.cw != Flush && y.cw != ReadChangeCipherSpec
    ensures var r, z := C.Step(y.c, Head(y.toClient), e), ClientMove(y, e);
            z.c == r.c && z.cw == r.wait && z.s == y.s && z.sw == y.sw
  {
  }

  lemma ClientRank(y: System, z: System, m: Option<Msg>, e: Env, r: C.Result)
    requires C.Sinks(y.c, m, e, r) && z.c == r.c && z.cw == r.wait && z.s == y.s && z.sw == y.sw
    requires r.wait != Error && r.wait != Crash && !e.retry && (r.wait == ReadMessage ==> !Reads(y.cw))
    ensures Rank(z) < Rank(y)
  {
  }

  lemma ClientStepSinks(y: System, e: Env)
    requires Inv(y, e.hasCert) && !e.fail && !e.retry && ClientCanMove(y) && y.cw != Flush && y.cw != ReadChangeCipherSpec
    ensures Rank(ClientMove(y, e)) < Rank(y)
  {
    var m := Head(y.toClient);
    ClientNotRefused(y, e.hasCert);
    ClientMoveParts(y, e);
    ClientMoveSettled(y, e);
    if y.c.state == C.ReadHelloVerifyRequest {
      ClientOnlyLooked(y, e.hasCert);
    }
    C.StepSinks(y.c, m, e);
    ClientRank(y, ClientMove(y, e), m, e, C.Step(y.c, m, e));
  }

  /** A move of the client that is not suspended brings the end nearer. */
  lemma ClientSinks(y: System, e: Env)
    requires Inv(y, e.hasCert) && !e.fail && !e.retry && ClientCanMove(y)
    ensures Rank(ClientMove(y, e)) < Rank(y)
  {
    if y.cw == Flush {
      ClientFlushKeeps(y, e.hasCert);
      ClientFlushMove(y, e);
      ClientFlushRank(y);
      ClientStepSinks(ClientFlush(y), e);
    } else if y.cw == ReadChangeCipherSpec {
      ClientChangeSinks(y, e);
    } else {
      ClientStepSinks(y, e);
    }
  }

  lemma ServerFlushRank(y: System)
    requires y.sw == Flush
    ensures Rank(ServerFlush(y)) == Rank(y) && (ServerCanMove(y) ==> ServerCanMove(ServerFlush(y)))
  {
  }

  lemma ServerChangeStep(s: S.Server, e: Env)
    requires s.state == S.ProcessChangeCipherSpec && !e.fail
    ensures var r := S.Step(s, None, e); r.wait == Ok && r.s.tape.slot == s.tape.slot + 1
  {
  }

  lemma ServerChangeSinks(y: System, e: Env)
    requires Inv(y, e.hasCert) && !e.fail && y.sw == ReadChangeCipherSpec && ServerCanMove(y)
    ensures Rank(ServerMove(y, e)) < Rank(y)
  {
    ServerNotRefused(y, e.hasCert);
    ServerChangeMove(y, e);
    ServerChangeStep(y.s, e);
    ServerRises(y, ServerMove(y, e));
  }

  lemma ServerMoveParts(y: System, e: Env)
    requires ServerCanMove(y) && !Refuses(y.sw, y.toServer) && y.sw != Flush && y.sw != ReadChangeCipherSpec
    ensures var r, z := S.Step(y.s, Head(y.toServer), e), ServerMove(y, e);
            z.s == r.s && z.sw == r.wait && z.c == y.c && z.cw == y.cw
  {
  }

  lemma ServerRank(y: System, z: System, m: Option<Msg>, e: Env, r: S.Result)
    requires S.Sinks(y.s, m, e, r) && z.s == r.s && z.sw == r.wait && z.c == y.c && z.cw == y.cw
    requires r.wait != Error && r.wait != Crash && !e.retry && (r.wait == ReadMessage ==> !Reads(y.sw))
    ensures Rank(z) < Rank(y)
  {
  }

  lemma ServerStepSinks(y: System, e: Env)
    requires Inv(y, e.hasCert) && HS.Smooth(e) && !e.retry && ServerCanMove(y) && y.sw != Flush && y.sw != ReadChangeCipherSpec
    ensures Rank(ServerMove(y, e)) < Rank(y)
  {
    var m := Head(y.toServer);
    ServerNotRefused(y, e.hasCert);
    ServerMoveParts(y, e);
    ServerMoveSettled(y, e);
    S.StepSinks(y.s, m, e);
    ServerRank(y, ServerMove(y, e), m, e, S.Step(y.s, m, e));
  }

  /** A move of the server that is not suspended brings the end nearer. */
  lemma ServerSinks(y: System, e: Env)
    requires Inv(y, e.hasCert) && HS.Smooth(e) && !e.retry && ServerCanMove(y)
    ensures Rank(ServerMove(y, e)) < Rank(y)
  {
    if y.sw == Flush {
      ServerFlushKeeps(y, e.hasCert);
      ServerFlushMove(y, e);
      ServerFlushRank(y);
      ServerStepSinks(ServerFlush(y), e);
    } else if y.sw == ReadChangeCipherSpec {
      ServerChangeSinks(y, e);
    } else {
      ServerStepSinks(y, e);
    }
  }

  /** Every move is made by a party that can move, and none is suspended. */
  ghost predicate Effective(y: System, moves: seq<Move>)
    decreases |moves|
  {
    moves == [] || (
      && !moves[0].e.retry && (if moves[0].ByClient? then ClientCanMove(y) else ServerCanMove(y))
      && Effective(Apply(y, moves[0]), moves[1..]))
  }

  /** An effective move lowers the rank. */
  lemma MoveSinks(y: System, move: Move)
    requires Inv(y, move.e.hasCert) && HS.Smooth(move.e) && !move.e.retry
    requires if move.ByClient? then ClientCanMove(y) else ServerCanMove(y)
    ensures Rank(Apply(y, move)) < Rank(y)
  {
    match move {
      case ByClient(e) => ClientSinks(y, e);
      case ByServer(e) => ServerSinks(y, e);
    }
  }

  lemma MoveEffective(y: System, moves: seq<Move>, hasCert: bool)
    requires Inv(y, hasCert) && NoAbort(moves, hasCert) && Effective(y, moves) && moves != []
    ensures var z := Apply(y, moves[0]);
            Inv(z, hasCert) && Rank(z) < Rank(y) && NoAbort(moves[1..], hasCert) && Effective(z, moves[1..])
  {
    MoveKeeps(y, moves[0]);
    MoveSinks(y, moves[0]);
  }

  /** Runs without suspension are bounded. */
  lemma {:induction false} BoundedRuns(y: System, moves: seq<Move>, hasCert: bool)
    requires Inv(y, hasCert) && NoAbort(moves, hasCert) && Effective(y, moves)
    ensures |moves| <= Rank(y)
    decreases |moves|
  {
    if moves == [] {
      RankBounded(y, hasCert);
    } else {
      MoveEffective(y, moves, hasCert);
      BoundedRuns(Apply(y, moves[0]), moves[1..], hasCert);
    }
  }

  /**
   * Two-party agreement. From any start, over every interleaving in which no
   * operation fails: neither side reports an error; while the handshake is not
   * complete somebody can move, and only boundedly many unsuspended moves are
   * left; and when it is complete both sides have the same transcript,
   * parameters and mode.
   */
  lemma Agreement(y: System, moves: seq<Move>, more: seq<Move>, hasCert: bool)
    requires Initial(y) && NoAbort(moves, hasCert) && NoAbort(more, hasCert) && Effective(Run(y, moves), more)
    ensures var z := Run(y, moves);
            && z.cw != Error && z.cw != Crash && z.sw != Error && z.sw != Crash
            && (Completed(z) || ClientCanMove(z) || ServerCanMove(z))
            && |more| <= Rank(z)
            && (Completed(z) ==>
                  z.c.tape.transcript == z.s.tape.transcript && z.c.f.hello == z.s.f.hello && z.c.f.session == z.s.f.session)
  {
    InitialHolds(y, hasCert);
    RunKeepsInv(y, moves, hasCert);
    var z := Run(y, moves);
    BoundedRuns(z, more, hasCert);
    if Completed(z) {
      CompletedAgrees(z, hasCert);
    } else {
      SomebodyCanMove(z, hasCert);
    }
  }
}
