/**
 * What a machine's log holds of the peer is what was taken from the peer: item
 * by item and in order, a ChangeCipherSpec included, against any peer.
 */
module HandshakeHeard {
  import opened Bytes
  import opened HandshakeTypes
  import C = HandshakeClient
  import S = HandshakeServer
  import opened HandshakeChecks

  /** The items of one side in a log. */
  ghost function From(log: seq<Said>, byServer: bool): seq<Item> {
    if log == [] then []
    else From(log[..|log| - 1], byServer) + if log[|log| - 1].byServer == byServer then [log[|log| - 1].item] else []
  }

  lemma FromSnoc(log: seq<Said>, x: Said, byServer: bool)
    ensures From(log + [x], byServer) == From(log, byServer) + if x.byServer == byServer then [x.item] else []
  {
    assert (log + [x])[..|log|] == log;
  }

  lemma OwnMessage(t: Tape, own: bool, m: Msg)
    ensures From(t.Add(own, m).log, !own) == From(t.log, !own)
  {
    FromSnoc(t.log, Said(own, Hs(m)), !own);
  }

  lemma OwnIf(t: Tape, present: bool, own: bool, m: Msg)
    ensures From(t.AddIf(present, own, m).log, !own) == From(t.log, !own)
  {
    OwnMessage(t, own, m);
  }

  lemma OwnChangeCipherSpec(t: Tape, own: bool)
    ensures From(t.AddChangeCipherSpec(own).log, !own) == From(t.log, !own)
  {
    FromSnoc(t.log, Said(own, Ccs), !own);
  }

  lemma PeerMessage(t: Tape, peer: bool, m: Msg)
    ensures From(t.Take(peer, m).log, peer) == From(t.log, peer) + [Hs(m)]
  {
    FromSnoc(t.log, Said(peer, Hs(m)), peer);
  }

  lemma PeerChangeCipherSpec(t: Tape, peer: bool)
    ensures From(t.TakeChangeCipherSpec(peer).log, peer) == From(t.log, peer) + [Ccs]
  {
    FromSnoc(t.log, Said(peer, Ccs), peer);
  }

  /** The message that a step took, if it did. */
  function Took(took: bool, m: Option<Msg>): seq<Item> {
    if took && m.Some? then [Hs(m.value)] else []
  }

  /** A step that reads leaves the tape, passes a slot, or takes the peer's message. */
  predicate Reading(t: Tape, t': Tape, m: Option<Msg>, took: bool, peer: bool) {
    if took then m.Some? && t' == t.Take(peer, m.value) else t' == t || t' == t.Skip()
  }

  lemma ReadHears(t: Tape, t': Tape, m: Option<Msg>, took: bool, peer: bool)
    requires Reading(t, t', m, took, peer)
    ensures (took ==> m.Some?) && From(t'.log, peer) == From(t.log, peer) + Took(took, m)
  {
    if took {
      PeerMessage(t, peer, m.value);
    }
  }

  /** A step that sends leaves the tape, passes a slot, or adds a message. */
  predicate Sending(t: Tape, t': Tape, m: Msg, own: bool) {
    t' == t || t' == t.Skip() || t' == t.Add(own, m)
  }

  lemma SendHears(t: Tape, t': Tape, m: Msg, own: bool)
    requires Sending(t, t', m, own)
    ensures From(t'.log, !own) == From(t.log, !own)
  {
    OwnMessage(t, own, m);
  }

  // The client

  /** A step adds to what was heard exactly the message it took. */
  ghost predicate ClientHears(c: C.Client, m: Option<Msg>, r: C.Result) {
    Failed(r.wait) || ((r.took ==> m.Some?) && From(r.c.tape.log, true) == From(c.tape.log, true) + Took(r.took, m))
  }

  lemma ClientReadsForm(c: C.Client, m: Option<Msg>, e: Env)
    requires Reads(c.state)
    ensures var r := C.Step(c, m, e); Failed(r.wait) || Reading(c.tape, r.c.tape, m, r.took, true)
  {
  }

  lemma ClientReadsKeysForm(c: C.Client, m: Option<Msg>, e: Env)
    requires ReadsKeys(c.state)
    ensures var r := C.Step(c, m, e); Failed(r.wait) || Reading(c.tape, r.c.tape, m, r.took, true)
  {
  }

  lemma ClientReadsLateForm(c: C.Client, m: Option<Msg>, e: Env)
    requires ReadsLate(c.state)
    ensures var r := C.Step(c, m, e); Failed(r.wait) || Reading(c.tape, r.c.tape, m, r.took, true)
  {
  }

  predicate ReadsLate(st: C.State) {
    st.FinishFlight? || st.ReadSessionTicket? || st.ReadServerFinished? || st.FinishClientHandshake?
  }

  lemma ClientReadsHear(c: C.Client, m: Option<Msg>, e: Env)
    requires Reads(c.state) || ReadsKeys(c.state) || ReadsLate(c.state)
    ensures ClientHears(c, m, C.Step(c, m, e))
  {
    if Reads(c.state) {
      ClientReadsForm(c, m, e);
    } else if ReadsKeys(c.state) {
      ClientReadsKeysForm(c, m, e);
    } else {
      ClientReadsLateForm(c, m, e);
    }
    var r := C.Step(c, m, e);
    if !Failed(r.wait) {
      ReadHears(c.tape, r.c.tape, m, r.took, true);
    }
  }

  /** What a state sends. */
  function Outgoing(c: C.Client, e: Env): Msg {
    match c.state
    case StartConnect => C.Hello(c.f.(session := c.f.session && !e.dropSession), e)
    case SendClientCertificate => Msg(Certificate, Chain(!e.hasCert, e.data))
    case SendClientKeyExchange => Msg(ClientKeyExchange, Opaque(e.data))
    case _ => Msg(CertificateVerify, Opaque(e.data))
  }

  lemma ClientSendsForm(c: C.Client, m: Option<Msg>, e: Env)
    requires Sends(c.state) || c.state == C.StartConnect
    ensures var r := C.Step(c, m, e); Failed(r.wait) || (!r.took && Sending(c.tape, r.c.tape, Outgoing(c, e), false))
  {
  }

  lemma ClientSendsHear(c: C.Client, m: Option<Msg>, e: Env)
    requires Sends(c.state) || c.state == C.StartConnect
    ensures ClientHears(c, m, C.Step(c, m, e))
  {
    ClientSendsForm(c, m, e);
    var r := C.Step(c, m, e);
    if !Failed(r.wait) {
      SendHears(c.tape, r.c.tape, Outgoing(c, e), false);
    }
  }

  lemma ClientLastHears(t: Tape, p: Params, data: nat)
    ensures From(C.AddLast(t, p, data).log, true) == From(t.log, true)
  {
    OwnChangeCipherSpec(t, false);
    var t1 := t.AddChangeCipherSpec(false);
    OwnIf(t1, p.npn, false, Msg(NextProto, Opaque(data)));
    var t2 := t1.AddIf(p.npn, false, Msg(NextProto, Opaque(data)));
    OwnIf(t2, p.channelId, false, Msg(ChannelId, Opaque(data)));
    var t3 := t2.AddIf(p.channelId, false, Msg(ChannelId, Opaque(data)));
    OwnMessage(t3, false, Msg(Finished, Mac(false, t3.transcript)));
  }

  lemma ClientFinishedHears(c: C.Client, m: Option<Msg>, e: Env)
    requires c.state == C.SendClientFinished
    ensures ClientHears(c, m, C.Step(c, m, e))
  {
    ClientLastHears(c.tape, c.f.hello, e.data);
  }

  /** In all but two states a step adds to what was heard exactly the message it took. */
  lemma ClientStepHears(c: C.Client, m: Option<Msg>, e: Env)
    requires c.state != C.Done && c.state != C.ProcessChangeCipherSpec && c.state != C.ReadHelloVerifyRequest
    ensures ClientHears(c, m, C.Step(c, m, e))
  {
    if Sends(c.state) || c.state == C.StartConnect {
      ClientSendsHear(c, m, e);
    } else if c.state == C.SendClientFinished {
      ClientFinishedHears(c, m, e);
    } else {
      ClientReadsHear(c, m, e);
    }
  }

  predicate IsVerifyRequest(x: Item) {
    x.Hs? && x.msg.tag == HelloVerifyRequest
  }

  /** The states in which a HelloVerifyRequest may still come. */
  predicate Beginning(st: C.State) {
    st.StartConnect? || st.EnterEarlyData? || st.ReadHelloVerifyRequest?
  }

  /** The log holds what was taken, but for a HelloVerifyRequest, which comes first and resets it. */
  ghost predicate ClientHolds(c: C.Client, taken: seq<Item>) {
    && (Beginning(c.state) ==> taken == [] && !c.f.gotVerifyRequest)
    && if c.f.gotVerifyRequest then taken != [] && IsVerifyRequest(taken[0]) && From(c.tape.log, true) == taken[1..]
       else From(c.tape.log, true) == taken
  }

  /** What the rounds of a run took from the peer. */
  ghost function ClientTaken(c: C.Client, ins: seq<C.Input>): seq<Item> {
    if ins == [] then []
    else
      var init, x := ins[..|ins| - 1], ins[|ins| - 1];
      var r := C.Run(c, Ok, init);
      ClientTaken(c, init) + if !Failed(r.wait) && r.c.state != C.Done then Given(C.Turn(r.c, x).took, x.item) else []
  }

  function Given(took: bool, item: Option<Item>): seq<Item> {
    if took && item.Some? then [item.value] else []
  }

  /** Where a step leads that is not one of the first. */
  ghost predicate Leaves(c: C.Client, r: C.Result) {
    Failed(r.wait) || (!Beginning(r.c.state) && r.c.f.gotVerifyRequest == c.f.gotVerifyRequest)
  }

  lemma ClientReadsLeave(c: C.Client, m: Option<Msg>, e: Env)
    requires Reads(c.state) && !Beginning(c.state)
    ensures Leaves(c, C.Step(c, m, e))
  {
  }

  lemma ClientReadsKeysLeave(c: C.Client, m: Option<Msg>, e: Env)
    requires ReadsKeys(c.state)
    ensures Leaves(c, C.Step(c, m, e))
  {
  }

  lemma ClientSendsLeave(c: C.Client, m: Option<Msg>, e: Env)
    requires Sends(c.state)
    ensures Leaves(c, C.Step(c, m, e))
  {
  }

  lemma ClientFinishedLeaves(c: C.Client, e: Env)
    requires !Beginning(c.state)
    ensures Leaves(c, C.DoSendClientFinished(c, e)) && Leaves(c, C.DoProcessChangeCipherSpec(c, e))
  {
  }

  lemma ClientReadsLateLeave(c: C.Client, m: Option<Msg>, e: Env)
    requires ReadsLate(c.state)
    ensures Leaves(c, C.Step(c, m, e))
  {
  }

  lemma ClientLeaves(c: C.Client, m: Option<Msg>, e: Env)
    requires !Beginning(c.state) && c.state != C.Done
    ensures Leaves(c, C.Step(c, m, e))
  {
    if Reads(c.state) {
      ClientReadsLeave(c, m, e);
    } else if ReadsKeys(c.state) {
      ClientReadsKeysLeave(c, m, e);
    } else if Sends(c.state) {
      ClientSendsLeave(c, m, e);
    } else if ReadsLate(c.state) {
      ClientReadsLateLeave(c, m, e);
    } else {
      ClientFinishedLeaves(c, e);
    }
  }

  /** A first step: the hello is sent, or sent again after a HelloVerifyRequest, which resets the log. */
  ghost predicate Begins(c: C.Client, m: Option<Msg>, r: C.Result) {
    Failed(r.wait) || (
      && (r.took <==> r.c.f.gotVerifyRequest) && (r.took ==> m.Some? && m.value.tag == HelloVerifyRequest && !Beginning(r.c.state))
      && From(r.c.tape.log, true) == [])
  }

  lemma ClientStarts(c: C.Client, m: Option<Msg>, e: Env)
    requires (c.state == C.StartConnect || c.state == C.EnterEarlyData) && From(c.tape.log, true) == [] && !c.f.gotVerifyRequest
    ensures Begins(c, m, C.Step(c, m, e))
  {
    if c.state == C.StartConnect {
      OwnMessage(c.tape, false, Outgoing(c, e));
    }
  }

  lemma ClientVerifies(c: C.Client, m: Option<Msg>, e: Env)
    requires c.state == C.ReadHelloVerifyRequest && From(c.tape.log, true) == [] && !c.f.gotVerifyRequest
    ensures Begins(c, m, C.DoReadHelloVerifyRequest(c, m, e))
  {
    if m.Some? {
      var t := c.tape.NextMessage(true, m.value).Reset();
      OwnMessage(t, false, C.Hello(c.f.(gotVerifyRequest := true), e));
    }
  }

  lemma ClientBegins(c: C.Client, m: Option<Msg>, e: Env)
    requires Beginning(c.state) && From(c.tape.log, true) == [] && !c.f.gotVerifyRequest
    ensures Begins(c, m, C.Step(c, m, e))
  {
    if c.state == C.ReadHelloVerifyRequest {
      ClientVerifies(c, m, e);
    } else {
      ClientStarts(c, m, e);
    }
  }

  lemma ClientChangeHears(c: C.Client, e: Env)
    requires c.state == C.ProcessChangeCipherSpec
    ensures var r := C.Step(c, None, e); Failed(r.wait) || From(r.c.tape.log, true) == From(c.tape.log, true) + [Ccs]
  {
    PeerChangeCipherSpec(c.tape, true);
  }

  /** A round of a later state adds to what was heard exactly the item it took. */
  lemma ClientTurnHears(c: C.Client, x: C.Input)
    requires c.state != C.Done && !Beginning(c.state)
    ensures var r := C.Turn(c, x);
            Failed(r.wait) || (
              && !Beginning(r.c.state) && r.c.f.gotVerifyRequest == c.f.gotVerifyRequest
              && From(r.c.tape.log, true) == From(c.tape.log, true) + Given(r.took, x.item))
  {
    if c.state == C.ProcessChangeCipherSpec {
      ClientLeaves(c, None, x.e);
      ClientChangeHears(c, x.e);
    } else {
      ClientLeaves(c, C.Message(x.item), x.e);
      ClientStepHears(c, C.Message(x.item), x.e);
    }
  }

  lemma ClientTurnHolds(c: C.Client, x: C.Input, taken: seq<Item>)
    requires ClientHolds(c, taken) && c.state != C.Done
    ensures var r := C.Turn(c, x); Failed(r.wait) || ClientHolds(r.c, taken + Given(r.took, x.item))
  {
    if Beginning(c.state) {
      ClientBegins(c, C.Message(x.item), x.e);
    } else {
      ClientTurnHears(c, x);
      var r := C.Turn(c, x);
      if !Failed(r.wait) {
        LaterHolds(c, r.c, taken, Given(r.took, x.item));
      }
    }
  }

  lemma LaterHolds(c: C.Client, c': C.Client, taken: seq<Item>, given: seq<Item>)
    requires ClientHolds(c, taken) && !Beginning(c'.state) && c'.f.gotVerifyRequest == c.f.gotVerifyRequest
    requires From(c'.tape.log, true) == From(c.tape.log, true) + given
    ensures ClientHolds(c', taken + given)
  {
    ShiftTail(taken, given);
  }

  lemma ShiftTail(a: seq<Item>, b: seq<Item>)
    ensures a != [] ==> (a + b)[0] == a[0] && (a + b)[1..] == a[1..] + b
  {
  }

  /**
   * Against any peer, in every state reached: what the client's log holds of
   * the server is exactly what its rounds took, item by item and in order,
   * after a HelloVerifyRequest if there was one.
   */
  lemma {:induction false} ClientHeardIsTaken(c: C.Client, ins: seq<C.Input>)
    requires C.Initial(c)
    ensures var r := C.Run(c, Ok, ins); Failed(r.wait) || ClientHolds(r.c, ClientTaken(c, ins))
    decreases |ins|
  {
    if ins != [] {
      var init, x := ins[..|ins| - 1], ins[|ins| - 1];
      ClientHeardIsTaken(c, init);
      var r := C.Run(c, Ok, init);
      assert ins == init + [x];
      if Failed(r.wait) || r.c.state == C.Done {
        C.EndedStays(c, Ok, ins, |init|);
      } else {
        C.RunSnoc(c, Ok, init, x);
        ClientTurnHolds(r.c, x, ClientTaken(c, init));
      }
    }
  }

  // The server

  ghost predicate ServerHears(s: S.Server, m: Option<Msg>, r: S.Result) {
    Failed(r.wait) || ((r.took ==> m.Some?) && From(r.s.tape.log, false) == From(s.tape.log, false) + Took(r.took, m))
  }

  predicate ServerSends(st: S.State) {
    st.SendServerHello? || st.SendServerCertificate? || st.SendServerKeyExchange? || st.SendServerHelloDone? || st.SendServerFinished?
  }

  lemma ServerReadsHello(s: S.Server, m: Option<Msg>, e: Env)
    requires S.Hellos(s.state) && !ServerSends(s.state)
    ensures var r := S.Step(s, m, e); Failed(r.wait) || Reading(s.tape, r.s.tape, m, r.took, false)
  {
  }

  lemma ServerReadsKeys(s: S.Server, m: Option<Msg>, e: Env)
    requires S.Keys(s.state) && !ServerSends(s.state)
    ensures var r := S.Step(s, m, e); Failed(r.wait) || Reading(s.tape, r.s.tape, m, r.took, false)
  {
  }

  lemma ServerReadsLate(s: S.Server, m: Option<Msg>, e: Env)
    requires !S.Hellos(s.state) && !S.Keys(s.state) && !ServerSends(s.state) && s.state != S.Done && s.state != S.ProcessChangeCipherSpec
    ensures var r := S.Step(s, m, e); Failed(r.wait) || Reading(s.tape, r.s.tape, m, r.took, false)
  {
  }

  lemma ServerReadsHear(s: S.Server, m: Option<Msg>, e: Env)
    requires !ServerSends(s.state) && s.state != S.Done && s.state != S.ProcessChangeCipherSpec
    ensures ServerHears(s, m, S.Step(s, m, e))
  {
    if S.Hellos(s.state) {
      ServerReadsHello(s, m, e);
    } else if S.Keys(s.state) {
      ServerReadsKeys(s, m, e);
    } else {
      ServerReadsLate(s, m, e);
    }
    var r := S.Step(s, m, e);
    if !Failed(r.wait) {
      ReadHears(s.tape, r.s.tape, m, r.took, false);
    }
  }

  lemma SendsHelloHear(s: S.Server, e: Env)
    ensures ServerHears(s, None, S.DoSendServerHello(s, e))
  {
    OwnMessage(s.tape, true, Msg(ServerHello, Chosen(S.Announced(s.f, e.hashes).hello, e.data)));
  }

  lemma SendsCertificateHear(s: S.Server, e: Env)
    ensures ServerHears(s, None, S.DoSendServerCertificate(s, e))
  {
    var chain := Msg(Certificate, Chain(false, e.data));
    OwnIf(s.tape, s.f.hello.cert, true, chain);
    OwnIf(s.tape.AddIf(s.f.hello.cert, true, chain), s.f.hello.cert && s.f.hello.status, true, Msg(CertificateStatus, Opaque(e.data)));
  }

  lemma SendsKeyExchangeHear(s: S.Server, e: Env)
    ensures ServerHears(s, None, S.DoSendServerKeyExchange(s, e))
  {
    OwnMessage(s.tape, true, Msg(ServerKeyExchange, Opaque(e.data)));
  }

  lemma SendsHelloDoneHear(s: S.Server, e: Env)
    ensures ServerHears(s, None, S.DoSendServerHelloDone(s, e))
  {
    var request := Msg(CertificateRequest, Opaque(e.data));
    OwnIf(s.tape, s.f.certRequest, true, request);
    OwnMessage(s.tape.AddIf(s.f.certRequest, true, request), true, Msg(ServerHelloDone, Opaque(e.data)));
  }

  lemma SendsFinishedHear(s: S.Server, e: Env)
    ensures ServerHears(s, None, S.DoSendServerFinished(s, e))
  {
    ServerLastHears(s.tape, s.f.hello.ticket, e);
  }

  lemma ServerSendsHear(s: S.Server, m: Option<Msg>, e: Env)
    requires ServerSends(s.state)
    ensures ServerHears(s, m, S.Step(s, m, e))
  {
    match s.state {
      case SendServerHello => SendsHelloHear(s, e);
      case SendServerCertificate => SendsCertificateHear(s, e);
      case SendServerKeyExchange => SendsKeyExchangeHear(s, e);
      case SendServerHelloDone => SendsHelloDoneHear(s, e);
      case SendServerFinished => SendsFinishedHear(s, e);
    }
  }

  lemma ServerLastHears(t: Tape, ticket: bool, e: Env)
    ensures From(S.AddLast(t, ticket, e).log, false) == From(t.log, false)
  {
    OwnIf(t, ticket, true, Msg(NewSessionTicket, Ticket(e.emptyTicket, e.data)));
    var t1 := t.AddIf(ticket, true, Msg(NewSessionTicket, Ticket(e.emptyTicket, e.data)));
    OwnChangeCipherSpec(t1, true);
    var t2 := t1.AddChangeCipherSpec(true);
    OwnMessage(t2, true, Msg(Finished, Mac(true, t2.transcript)));
  }

  lemma ServerStepHears(s: S.Server, m: Option<Msg>, e: Env)
    requires s.state != S.Done && s.state != S.ProcessChangeCipherSpec
    ensures ServerHears(s, m, S.Step(s, m, e))
  {
    if ServerSends(s.state) {
      ServerSendsHear(s, m, e);
    } else {
      ServerReadsHear(s, m, e);
    }
  }

  lemma ServerChangeHears(s: S.Server, e: Env)
    requires s.state == S.ProcessChangeCipherSpec
    ensures var r := S.Step(s, None, e); Failed(r.wait) || From(r.s.tape.log, false) == From(s.tape.log, false) + [Ccs]
  {
    PeerChangeCipherSpec(s.tape, false);
  }

  lemma ServerTurnHears(s: S.Server, x: S.Input)
    requires s.state != S.Done
    ensures var r := S.Turn(s, x); Failed(r.wait) || From(r.s.tape.log, false) == From(s.tape.log, false) + Given(r.took, x.item)
  {
    if s.state == S.ProcessChangeCipherSpec {
      ServerChangeHears(s, x.e);
    } else {
      ServerStepHears(s, S.Message(x.item), x.e);
    }
  }

  /** What the rounds of a run took from the peer. */
  ghost function ServerTaken(s: S.Server, w: Wait, ins: seq<S.Input>): seq<Item>
    decreases |ins|
  {
    if ins == [] || Failed(w) || s.state == S.Done then []
    else
      var r := S.Turn(s, ins[0]);
      Given(r.took, ins[0].item) + ServerTaken(r.s, r.wait, ins[1..])
  }

  lemma Regroup(a: seq<Item>, b: seq<Item>, c: seq<Item>)
    ensures (a + b) + c == a + (b + c)
  {
  }

  /** Against any peer: what the server's log gains of the client is exactly what its rounds take, item by item and in order. */
  lemma {:induction false} ServerHeardIsTaken(s: S.Server, w: Wait, ins: seq<S.Input>)
    ensures var r := S.Run(s, w, ins); Failed(r.wait) || From(r.s.tape.log, false) == From(s.tape.log, false) + ServerTaken(s, w, ins)
    decreases |ins|
  {
    if ins != [] && !Failed(w) && s.state != S.Done {
      ServerTurnHears(s, ins[0]);
      var r := S.Turn(s, ins[0]);
      ServerHeardIsTaken(r.s, r.wait, ins[1..]);
      Regroup(From(s.tape.log, false), Given(r.took, ins[0].item), ServerTaken(r.s, r.wait, ins[1..]));
    }
  }
}
