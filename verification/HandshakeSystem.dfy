/**
 * The client's and the server's machines over an in-order channel. A move of
 * either party resolves what it waited for, as ssl_run_handshake does, and runs
 * one state. The invariant of runs without failure says that each party is in
 * order, that what is in flight is what one of them is behind by, and that what
 * a party waits for is what comes. The client's moves keep it.
 */
module HandshakeSystem {
  import opened Bytes
  import opened HandshakeTypes
  import opened HandshakeInFlight
  import opened HandshakeActs
  import opened HandshakeLink
  import C = HandshakeClient
  import S = HandshakeServer
  import HC = HonestClient
  import HS = HonestServer

  /** Both parties, what each waits for, what is on the wire, and whether the client offered a session. */
  datatype System = System(c: C.Client, cw: Wait, s: S.Server, sw: Wait, toServer: seq<Item>, toClient: seq<Item>, offered: bool)

  function Head(inbox: seq<Item>): Option<Msg> {
    if inbox != [] && inbox[0].Hs? then Some(inbox[0].msg) else None
  }

  predicate Reads(w: Wait) {
    w == ReadMessage || w == ReadChangeCipherSpec
  }

  /** The party waits for something of another kind than what comes. */
  predicate Refuses(w: Wait, inbox: seq<Item>) {
    inbox != [] && ((w == ReadMessage && inbox[0].Ccs?) || (w == ReadChangeCipherSpec && inbox[0].Hs?))
  }

  predicate Halted(w: Wait, inbox: seq<Item>) {
    w == Error || w == Crash || (Reads(w) && inbox == [])
  }

  /** ssl_run_handshake on the client's side: resolve what it waited for, and run its state. */
  function ClientMove(y: System, e: Env): System {
    if Halted(y.cw, y.toClient) || y.c.state == C.Done then y
    else if Refuses(y.cw, y.toClient) then y.(cw := Error)
    else
      var c := if y.cw == Flush then y.c.(tape := y.c.tape.(pending := [])) else y.c;
      var out := if y.cw == Flush then y.toServer + y.c.tape.pending else y.toServer;
      if y.cw == ReadChangeCipherSpec then
        var r := C.Step(c, None, e);
        System(r.c, r.wait, y.s, y.sw, out, y.toClient[1..], y.offered)
      else
        var r := C.Step(c, Head(y.toClient), e);
        System(r.c, r.wait, y.s, y.sw, out, if r.took && y.toClient != [] then y.toClient[1..] else y.toClient,
               if c.state == C.StartConnect then r.c.f.session else y.offered)
  }

  function ServerMove(y: System, e: Env): System {
    if Halted(y.sw, y.toServer) || y.s.state == S.Done then y
    else if Refuses(y.sw, y.toServer) then y.(sw := Error)
    else
      var s := if y.sw == Flush then y.s.(tape := y.s.tape.(pending := [])) else y.s;
      var out := if y.sw == Flush then y.toClient + y.s.tape.pending else y.toClient;
      if y.sw == ReadChangeCipherSpec then
        var r := S.Step(s, None, e);
        System(y.c, y.cw, r.s, r.wait, y.toServer[1..], out, y.offered)
      else
        var r := S.Step(s, Head(y.toServer), e);
        System(y.c, y.cw, r.s, r.wait, if r.took && y.toServer != [] then y.toServer[1..] else y.toServer, out, y.offered)
  }

  ghost function ShapeIn(y: System, hasCert: bool): Shape {
    HS.JointShape(y.s.f, hasCert)
  }

  /** Everything sent and not yet heard, flushed or not. */
  function Up(y: System): seq<Item> {
    y.toServer + y.c.tape.pending
  }

  function Down(y: System): seq<Item> {
    y.toClient + y.s.tape.pending
  }

  ghost predicate Parties(y: System, hasCert: bool) {
    && C.Inv(y.c) && C.Answers(y.c, hasCert) && HC.Agree(y.c, ShapeIn(y, hasCert), y.s.f.hello, y.offered)
    && S.Inv(y.s) && HS.Agree(y.s, hasCert) && (y.s.tape.slot >= 1 ==> HS.Offered(y.s.f, y.offered))
  }

  ghost predicate Wires(y: System, hasCert: bool) {
    && Linked(ShapeIn(y, hasCert), y.c.tape, y.s.tape, Up(y), Down(y), false)
    && AllProper(Up(y), false, y.s.f.hello, hasCert, y.offered)
    && AllProper(Down(y), true, y.s.f.hello, hasCert, y.offered)
  }

  ghost predicate ClientWaits(y: System, hasCert: bool) {
    && y.cw != Error && y.cw != Crash
    && (y.cw == ReadMessage ==> MessageNext(ShapeIn(y, hasCert), y.c.tape.slot, true))
    && (y.cw == Flush || C.Flushed(y.c))
    && (Reads(y.cw) || y.c.state == C.Done ==> y.c.tape.pending == [])
    && (y.cw == ReadChangeCipherSpec <==> y.c.state == C.ProcessChangeCipherSpec)
  }

  ghost predicate ServerWaits(y: System, hasCert: bool) {
    && y.sw != Error && y.sw != Crash
    && (y.sw == ReadMessage ==> MessageNext(ShapeIn(y, hasCert), y.s.tape.slot, false))
    && (y.sw == Flush || S.Flushed(y.s))
    && (Reads(y.sw) || y.s.state == S.Done ==> y.s.tape.pending == [])
    && (y.sw == ReadChangeCipherSpec <==> y.s.state == S.ProcessChangeCipherSpec)
  }

  /** The invariant of runs without failure. */
  ghost predicate Inv(y: System, hasCert: bool) {
    Parties(y, hasCert) && Wires(y, hasCert) && ClientWaits(y, hasCert) && ServerWaits(y, hasCert)
  }

  // The client's moves

  lemma ClientHead(y: System, hasCert: bool)
    requires Wires(y, hasCert)
    ensures Expected(ShapeIn(y, hasCert), y.c.tape, Head(y.toClient), true, y.s.f.hello, hasCert, y.offered)
    ensures y.toClient != [] ==> Down(y)[0] == y.toClient[0] && Down(y)[1..] == y.toClient[1..] + y.s.tape.pending
  {
    if y.toClient != [] {
      assert Down(y)[0] == y.toClient[0];
      HeadExpected(ShapeIn(y, hasCert), y.c.tape, y.s.tape, Up(y), Down(y), false);
    }
  }

  lemma MessageComes(sh: Shape, x: Tape, y: Tape, fromX: seq<Item>, fromY: seq<Item>, xIsServer: bool)
    requires Linked(sh, x, y, fromX, fromY, xIsServer) && fromY != [] && MessageNext(sh, x.slot, !xIsServer)
    ensures fromY[0].Hs?
  {
    HeadExpected(sh, x, y, fromX, fromY, xIsServer);
  }

  lemma ChangeComes(sh: Shape, x: Tape, y: Tape, fromX: seq<Item>, fromY: seq<Item>, xIsServer: bool)
    requires Linked(sh, x, y, fromX, fromY, xIsServer) && fromY != []
    requires x.slot < End(sh.resumed) && SlotAt(sh, x.slot) == Some(Label(!xIsServer, None))
    ensures fromY[0].Ccs?
  {
    HeadExpected(sh, x, y, fromX, fromY, xIsServer);
    NextOf(sh, x.slot);
  }

  lemma ClientAwaitsChange(c: C.Client, sh: Shape, hasCert: bool, hello: Params, offered: bool)
    requires C.Ready(c, hasCert) && HC.Agree(c, sh, hello, offered) && c.state == C.ProcessChangeCipherSpec
    ensures c.tape.slot < End(sh.resumed) && SlotAt(sh, c.tape.slot) == Some(Label(true, None))
  {
  }

  /** What comes is of the kind the client waits for. */
  lemma ClientNotRefused(y: System, hasCert: bool)
    requires Parties(y, hasCert) && Wires(y, hasCert) && ClientWaits(y, hasCert)
    ensures !Refuses(y.cw, y.toClient)
  {
    if y.toClient != [] {
      ClientHead(y, hasCert);
      if y.cw == ReadMessage {
        MessageComes(ShapeIn(y, hasCert), y.c.tape, y.s.tape, Up(y), Down(y), false);
      } else if y.cw == ReadChangeCipherSpec {
        ClientAwaitsChange(y.c, ShapeIn(y, hasCert), hasCert, y.s.f.hello, y.offered);
        ChangeComes(ShapeIn(y, hasCert), y.c.tape, y.s.tape, Up(y), Down(y), false);
      }
    }
  }

  /** Flushing moves what is queued to the wire, and changes nothing else. */
  function ClientFlush(y: System): System {
    y.(c := y.c.(tape := y.c.tape.(pending := [])), cw := Ok, toServer := y.toServer + y.c.tape.pending)
  }

  lemma ClientFlushKeeps(y: System, hasCert: bool)
    requires Inv(y, hasCert) && y.cw == Flush
    ensures Inv(ClientFlush(y), hasCert)
  {
    assert Up(ClientFlush(y)) == Up(y);
  }

  lemma ClientSlot(c: C.Client, sh: Shape, hello: Params, hasCert: bool, offered: bool)
    requires C.Ready(c, hasCert) && HC.Agree(c, sh, hello, offered)
    ensures c.tape.slot <= End(sh.resumed)
    ensures (c.state == C.StartConnect <==> c.tape.slot == 0) && (HC.BeforeHello(c.state) <==> c.tape.slot <= 1)
  {
  }

  lemma ServerSlot(s: S.Server)
    requires S.Ready(s)
    ensures s.tape.slot <= End(s.f.session)
  {
  }

  /** The script fits the hello as soon as the client may have to rely on it. */
  lemma ScriptFits(y: System, hasCert: bool)
    requires Parties(y, hasCert) && Wires(y, hasCert) && (y.c.tape.slot >= 2 || (y.c.tape.slot == 1 && y.toClient != []))
    ensures y.s.tape.slot >= 1 && HC.Fits(ShapeIn(y, hasCert), y.s.f.hello, hasCert) && HS.Offered(y.s.f, y.offered)
  {
    ClientSlot(y.c, ShapeIn(y, hasCert), y.s.f.hello, hasCert, y.offered);
    ServerSlot(y.s);
    ServerHasSettled(ShapeIn(y, hasCert), y.c.tape, y.s.tape, Up(y), Down(y));
    HS.ShapeFits(y.s, hasCert);
  }

  /** What the client's step may rely on, once it has begun. */
  lemma ClientIsHonest(y: System, m: Option<Msg>, e: Env)
    requires Parties(y, e.hasCert) && Wires(y, e.hasCert) && !e.fail && (m.None? || m == Head(y.toClient)) && y.c.state != C.StartConnect
    ensures HC.Honest(y.c, m, e, ShapeIn(y, e.hasCert), y.s.f.hello, y.offered)
    ensures HC.OfferKnown(y.c, m, e, y.s.f.hello, y.offered)
  {
    ClientHead(y, e.hasCert);
    ClientSlot(y.c, ShapeIn(y, e.hasCert), y.s.f.hello, e.hasCert, y.offered);
    if m.Some? || !HC.BeforeHello(y.c.state) {
      ScriptFits(y, e.hasCert);
    }
  }

  /** The state of the system after a client's step. */
  function Stepped(y: System, r: C.Result, down: seq<Item>): System {
    System(r.c, r.wait, y.s, y.sw, y.toServer, down, y.offered)
  }

  /** What is in flight from x and from y fits the script, and is properly made. */
  ghost predicate Carried(sh: Shape, x: Tape, y: Tape, fromX: seq<Item>, fromY: seq<Item>, xIsServer: bool, hello: Params, hasCert: bool, offered: bool) {
    && Linked(sh, x, y, fromX, fromY, xIsServer)
    && AllProper(fromX, xIsServer, hello, hasCert, offered) && AllProper(fromY, !xIsServer, hello, hasCert, offered)
  }

  lemma EmitCarried(sh: Shape, x: Tape, x': Tape, y: Tape, fromX: seq<Item>, fromY: seq<Item>, out: seq<Item>, xIsServer: bool,
                    hello: Params, hasCert: bool, offered: bool)
    requires Carried(sh, x, y, fromX, fromY, xIsServer, hello, hasCert, offered)
    requires Emits(sh, x, x', out, xIsServer) && AllProper(out, xIsServer, hello, hasCert, offered)
    ensures Carried(sh, x', y, fromX + out, fromY, xIsServer, hello, hasCert, offered)
  {
    EmitLinked(sh, x, x', y, fromX, fromY, out, xIsServer);
  }

  lemma HearCarried(sh: Shape, x: Tape, x': Tape, y: Tape, fromX: seq<Item>, fromY: seq<Item>, a: Act, xIsServer: bool,
                    hello: Params, hasCert: bool, offered: bool)
    requires Carried(sh, x, y, fromX, fromY, xIsServer, hello, hasCert, offered)
    requires !a.Emit? && Did(sh, x, x', a, xIsServer) && fromY != [] && fromY[0] == if a.Hear? then Hs(a.m) else Ccs
    ensures Carried(sh, x', y, fromX, fromY[1..], xIsServer, hello, hasCert, offered)
  {
    HearLinked(sh, x, x', y, fromX, fromY, a, xIsServer);
  }

  lemma AssocItems(a: seq<Item>, b: seq<Item>, c: seq<Item>)
    ensures (a + b) + c == a + (b + c)
  {
  }

  lemma ClientEmits(y: System, r: C.Result, out: seq<Item>, hasCert: bool)
    requires Wires(y, hasCert) && Emits(ShapeIn(y, hasCert), y.c.tape, r.c.tape, out, false)
    requires AllProper(out, false, y.s.f.hello, hasCert, y.offered)
    ensures Wires(Stepped(y, r, y.toClient), hasCert)
  {
    EmitCarried(ShapeIn(y, hasCert), y.c.tape, r.c.tape, y.s.tape, Up(y), Down(y), out, false, y.s.f.hello, hasCert, y.offered);
    AssocItems(y.toServer, y.c.tape.pending, out);
  }

  lemma ClientHears(y: System, r: C.Result, a: Act, hasCert: bool)
    requires Wires(y, hasCert) && !a.Emit? && Did(ShapeIn(y, hasCert), y.c.tape, r.c.tape, a, false)
    requires y.toClient != [] && y.toClient[0] == if a.Hear? then Hs(a.m) else Ccs
    ensures Wires(Stepped(y, r, y.toClient[1..]), hasCert)
  {
    ClientHead(y, hasCert);
    HearCarried(ShapeIn(y, hasCert), y.c.tape, r.c.tape, y.s.tape, Up(y), Down(y), a, false, y.s.f.hello, hasCert, y.offered);
  }

  /** The client is in order after its step. */
  lemma ClientInOrder(y: System, m: Option<Msg>, e: Env, a: Act, down: seq<Item>)
    requires Inv(y, e.hasCert) && y.c.state != C.Done && y.cw != Flush
    requires HC.Behaves(y.c, C.Step(y.c, m, e), m, a, ShapeIn(y, e.hasCert), y.s.f.hello, e.hasCert, y.offered)
    ensures var y' := Stepped(y, C.Step(y.c, m, e), down);
            Parties(y', e.hasCert) && ClientWaits(y', e.hasCert) && ServerWaits(y', e.hasCert)
  {
    C.StepKeepsInv(y.c, m, e);
    C.StepAnswers(y.c, m, e);
    C.StepFlushed(y.c, m, e);
  }

  /** A client's step on a message, on its own account, or with nothing there yet. */
  lemma ClientSteps(y: System, e: Env)
    requires Inv(y, e.hasCert) && !e.fail && y.c.state != C.StartConnect && y.c.state != C.Done
    requires !Halted(y.cw, y.toClient) && y.cw != Flush && y.cw != ReadChangeCipherSpec
    ensures Inv(ClientMove(y, e), e.hasCert)
  {
    var m := Head(y.toClient);
    ClientNotRefused(y, e.hasCert);
    ClientIsHonest(y, m, e);
    var a := HC.HonestStep(y.c, m, e, ShapeIn(y, e.hasCert), y.s.f.hello, y.offered);
    var r := C.Step(y.c, m, e);
    if a.Emit? {
      ClientEmits(y, r, a.out, e.hasCert);
      ClientInOrder(y, m, e, a, y.toClient);
    } else {
      ClientHears(y, r, a, e.hasCert);
      ClientInOrder(y, m, e, a, y.toClient[1..]);
    }
  }

  lemma ClientChangeMove(y: System, e: Env)
    requires y.cw == ReadChangeCipherSpec && y.toClient != [] && y.toClient[0].Ccs? && y.c.state != C.Done
    ensures ClientMove(y, e) == Stepped(y, C.Step(y.c, None, e), y.toClient[1..])
  {
  }

  /** A client's step once the ChangeCipherSpec it waited for has come. */
  lemma ClientChanges(y: System, e: Env)
    requires Inv(y, e.hasCert) && !e.fail && y.cw == ReadChangeCipherSpec && y.toClient != []
    ensures Inv(ClientMove(y, e), e.hasCert)
  {
    ClientNotRefused(y, e.hasCert);
    ClientChangeMove(y, e);
    ClientIsHonest(y, None, e);
    var a := HC.HonestStep(y.c, None, e, ShapeIn(y, e.hasCert), y.s.f.hello, y.offered);
    ClientHears(y, C.Step(y.c, None, e), a, e.hasCert);
    ClientInOrder(y, None, e, a, y.toClient[1..]);
  }

  lemma OfferIsOpen(y: System, offered: bool, hasCert: bool)
    requires Inv(y, hasCert) && y.c.state == C.StartConnect
    ensures Inv(y.(offered := offered), hasCert) && y.toClient == [] && y.s.tape.slot == 0
  {
    ClientSlot(y.c, ShapeIn(y, hasCert), y.s.f.hello, hasCert, y.offered);
    ServerSlot(y.s);
    NothingYet(ShapeIn(y, hasCert), y.c.tape, y.s.tape, Up(y), Down(y));
  }

  lemma ClientStartMove(y: System, e: Env)
    requires y.c.state == C.StartConnect && y.toClient == [] && !Halted(y.cw, y.toClient) && y.cw != Flush && !Reads(y.cw) && !e.fail
    ensures ClientMove(y, e) == Stepped(y.(offered := y.c.f.session && !e.dropSession), C.Step(y.c, None, e), [])
  {
  }

  /** The client's first step: the offer is made. */
  lemma ClientStarts(y: System, e: Env)
    requires Inv(y, e.hasCert) && !e.fail && y.c.state == C.StartConnect && !Halted(y.cw, y.toClient) && y.cw != Flush
    ensures Inv(ClientMove(y, e), e.hasCert)
  {
    var offered := y.c.f.session && !e.dropSession;
    var y' := y.(offered := offered);
    OfferIsOpen(y, offered, e.hasCert);
    ClientStartMove(y, e);
    var a := HC.HonestStep(y.c, None, e, ShapeIn(y, e.hasCert), y.s.f.hello, offered);
    assert !a.Hear? && !a.HearChangeCipherSpec?;
    ClientEmits(y', C.Step(y.c, None, e), a.out, e.hasCert);
    ClientInOrder(y', None, e, a, []);
  }

  lemma ClientFlushMove(y: System, e: Env)
    requires y.cw == Flush
    ensures ClientMove(y, e) == ClientMove(ClientFlush(y), e) || y.c.state == C.Done
  {
  }

  lemma ClientMoveSettled(y: System, e: Env)
    requires Inv(y, e.hasCert) && !e.fail && y.cw != Flush
    ensures Inv(ClientMove(y, e), e.hasCert)
  {
    if Halted(y.cw, y.toClient) || y.c.state == C.Done {
    } else if y.cw == ReadChangeCipherSpec {
      ClientChanges(y, e);
    } else if y.c.state == C.StartConnect {
      ClientStarts(y, e);
    } else {
      ClientSteps(y, e);
    }
  }

  /** Every move of the client keeps the invariant. */
  lemma ClientMoveKeeps(y: System, e: Env)
    requires Inv(y, e.hasCert) && !e.fail
    ensures Inv(ClientMove(y, e), e.hasCert)
  {
    if y.cw == Flush && y.c.state != C.Done {
      ClientFlushKeeps(y, e.hasCert);
      ClientFlushMove(y, e);
      ClientMoveSettled(ClientFlush(y), e);
    } else if y.cw != Flush {
      ClientMoveSettled(y, e);
    }
  }
}
