/**
 * A client that talks to this server and meets no failure. State by state: given
 * the next message of the script, properly made, the client does not fail, takes
 * or sends exactly what the script says, and keeps the view of the handshake's
 * parameters that the server announced. The steps are those of HandshakeClient;
 * nothing is assumed of how they are scheduled.
 */
module HonestClient {
  import opened Bytes
  import opened HandshakeTypes
  import opened HandshakeInFlight
  import opened HandshakeActs
  import opened HandshakeClient

  /** The script of a handshake is what its parameters and the client's certificate make it. */
  predicate Fits(sh: Shape, hello: Params, hasCert: bool) {
    && hello.Supported()
    && sh.resumed == hello.resumed && sh.cert == hello.cert && sh.status == (hello.cert && hello.status)
    && (hello.kx == ECDHE ==> sh.ske) && (hello.kx == RSA ==> !sh.ske)
    && (sh.certRequest ==> hello.cert && !hello.resumed)
    && sh.clientCert == (sh.certRequest && (hasCert || !hello.ssl3)) && sh.clientVerify == (sh.certRequest && hasCert)
    && sh.npn == hello.npn && sh.channelId == hello.channelId && sh.ticket == hello.ticket
  }

  predicate BeforeHello(s: State) {
    s.StartConnect? || s.EnterEarlyData? || s.ReadHelloVerifyRequest? || s.ReadServerHello?
  }

  predicate RequestKnown(s: State) {
    s.ReadServerHelloDone? || s.SendClientCertificate? || s.SendClientKeyExchange? || s.SendClientCertificateVerify?
  }

  predicate Waiting(s: State) {
    s.EnterEarlyData? || s.ReadHelloVerifyRequest? || s.ReadServerHello?
  }

  /** Until it has the ServerHello, the client keeps the session it offered; then its view is the server's. */
  predicate Agree(c: Client, sh: Shape, hello: Params, offered: bool) {
    && (Waiting(c.state) ==> c.f.session == offered)
    && (!BeforeHello(c.state) ==> c.f.hello == hello && c.f.session == hello.resumed == sh.resumed)
    && (RequestKnown(c.state) ==> c.f.certRequest == sh.certRequest)
  }

  /** The step does not fail, and acts as the script says. */
  ghost predicate Behaves(c: Client, r: Result, m: Option<Msg>, a: Act, sh: Shape, hello: Params, hasCert: bool, offered: bool) {
    && r.wait != Error && r.took == a.Hear? && (a.Hear? ==> m == Some(a.m))
    && Did(sh, c.tape, r.c.tape, a, false)
    && (a.Emit? ==> AllProper(a.out, false, hello, hasCert, offered))
    && Agree(r.c, sh, hello, offered)
    && (r.wait == ReadMessage ==> MessageNext(sh, r.c.tape.slot, true))
    && (a.HearChangeCipherSpec? <==> c.state == ProcessChangeCipherSpec)
  }

  ghost predicate Honest(c: Client, m: Option<Msg>, e: Env, sh: Shape, hello: Params, offered: bool) {
    && Ready(c, e.hasCert) && Agree(c, sh, hello, offered) && ((BeforeHello(c.state) && m.None?) || Fits(sh, hello, e.hasCert)) && !e.fail
    && Expected(sh, c.tape, m, true, hello, e.hasCert, offered)
  }

  /** In a full handshake each of the server's optional messages has one slot only. */
  lemma SlotOf(sh: Shape, i: nat)
    requires !sh.resumed
    ensures SlotAt(sh, i) == Some(Label(true, Some(CertificateStatus))) ==> i == 3
    ensures SlotAt(sh, i) == Some(Label(true, Some(ServerKeyExchange))) ==> i == 4
    ensures SlotAt(sh, i) == Some(Label(true, Some(CertificateRequest))) ==> i == 5
    ensures SlotAt(sh, i) == Some(Label(true, Some(ServerHelloDone))) ==> i == 6
  {
  }

  /** Until ServerHelloDone it is the server's turn. */
  lemma ServerNext(sh: Shape, n: nat)
    requires !sh.resumed && 3 <= n <= 5
    ensures MessageNext(sh, n, true)
  {
    NextOf(sh, 3);
    NextOf(sh, 4);
    NextOf(sh, 5);
    NextOf(sh, 6);
  }

  lemma HonestStartConnect(c: Client, m: Option<Msg>, e: Env, sh: Shape, hello: Params, offered: bool) returns (a: Act)
    requires Honest(c, m, e, sh, hello, offered) && c.state == StartConnect && offered == (c.f.session && !e.dropSession)
    ensures Behaves(c, DoStartConnect(c, e), m, a, sh, hello, e.hasCert, offered)
  {
    a := Sent(sh, c.tape, Hello(c.f.(session := c.f.session && !e.dropSession), e), false);
  }

  lemma HonestEnterEarlyData(c: Client, m: Option<Msg>, e: Env, sh: Shape, hello: Params, offered: bool) returns (a: Act)
    requires Honest(c, m, e, sh, hello, offered) && c.state == EnterEarlyData
    ensures Behaves(c, DoEnterEarlyData(c), m, a, sh, hello, e.hasCert, offered)
  {
    a := Idle(sh, c.tape, false);
  }

  lemma HonestReadHelloVerifyRequest(c: Client, m: Option<Msg>, e: Env, sh: Shape, hello: Params, offered: bool) returns (a: Act)
    requires Honest(c, m, e, sh, hello, offered) && c.state == ReadHelloVerifyRequest
    ensures Behaves(c, DoReadHelloVerifyRequest(c, m, e), m, a, sh, hello, e.hasCert, offered)
  {
    if m.Some? {
      MessageHere(sh, c.tape, m.value, true, hello, e.hasCert, offered);
    }
    NextOf(sh, c.tape.slot);
    a := Idle(sh, c.tape, false);
  }

  lemma HonestReadServerHello(c: Client, m: Option<Msg>, e: Env, sh: Shape, hello: Params, offered: bool) returns (a: Act)
    requires Honest(c, m, e, sh, hello, offered) && c.state == ReadServerHello && (m.Some? && hello.resumed ==> offered)
    ensures Behaves(c, DoReadServerHello(c, m, e), m, a, sh, hello, e.hasCert, offered)
  {
    if m.Some? {
      MessageHere(sh, c.tape, m.value, true, hello, e.hasCert, offered);
      a := Hear(m.value);
    } else {
      NextOf(sh, 1);
      a := Idle(sh, c.tape, false);
    }
  }

  lemma HonestReadServerCertificate(c: Client, m: Option<Msg>, e: Env, sh: Shape, hello: Params, offered: bool) returns (a: Act)
    requires Honest(c, m, e, sh, hello, offered) && c.state == ReadServerCertificate
    ensures Behaves(c, DoReadServerCertificate(c, m, e), m, a, sh, hello, e.hasCert, offered)
  {
    if !hello.cert {
      a := Skipped(sh, c.tape, false);
    } else if m.Some? {
      MessageHere(sh, c.tape, m.value, true, hello, e.hasCert, offered);
      a := Hear(m.value);
    } else {
      NextOf(sh, 2);
      a := Idle(sh, c.tape, false);
    }
  }

  lemma HonestReadCertificateStatus(c: Client, m: Option<Msg>, e: Env, sh: Shape, hello: Params, offered: bool) returns (a: Act)
    requires Honest(c, m, e, sh, hello, offered) && c.state == ReadCertificateStatus
    ensures Behaves(c, DoReadCertificateStatus(c, m, e), m, a, sh, hello, e.hasCert, offered)
  {
    if hello.status && m.None? {
      ServerNext(sh, 3);
      a := Idle(sh, c.tape, false);
    } else if sh.status {
      MessageHere(sh, c.tape, m.value, true, hello, e.hasCert, offered);
      a := Hear(m.value);
    } else {
      SlotOf(sh, NextSlot(sh, c.tape.slot));
      NextOf(sh, c.tape.slot);
      a := Skipped(sh, c.tape, false);
    }
  }

  lemma HonestVerifyServerCertificate(c: Client, m: Option<Msg>, e: Env, sh: Shape, hello: Params, offered: bool) returns (a: Act)
    requires Honest(c, m, e, sh, hello, offered) && c.state == VerifyServerCertificate
    ensures Behaves(c, DoVerifyServerCertificate(c, e), m, a, sh, hello, e.hasCert, offered)
  {
    a := Idle(sh, c.tape, false);
  }

  lemma HonestReadServerKeyExchange(c: Client, m: Option<Msg>, e: Env, sh: Shape, hello: Params, offered: bool) returns (a: Act)
    requires Honest(c, m, e, sh, hello, offered) && c.state == ReadServerKeyExchange
    ensures Behaves(c, DoReadServerKeyExchange(c, m, e), m, a, sh, hello, e.hasCert, offered)
  {
    if m.None? {
      ServerNext(sh, 4);
      a := Idle(sh, c.tape, false);
    } else if sh.ske {
      MessageHere(sh, c.tape, m.value, true, hello, e.hasCert, offered);
      a := Hear(m.value);
    } else {
      SlotOf(sh, NextSlot(sh, c.tape.slot));
      NextOf(sh, c.tape.slot);
      a := Skipped(sh, c.tape, false);
    }
  }

  lemma HonestReadCertificateRequest(c: Client, m: Option<Msg>, e: Env, sh: Shape, hello: Params, offered: bool) returns (a: Act)
    requires Honest(c, m, e, sh, hello, offered) && c.state == ReadCertificateRequest
    ensures Behaves(c, DoReadCertificateRequest(c, m, e), m, a, sh, hello, e.hasCert, offered)
  {
    if hello.cert && m.None? {
      ServerNext(sh, 5);
      a := Idle(sh, c.tape, false);
    } else if sh.certRequest {
      MessageHere(sh, c.tape, m.value, true, hello, e.hasCert, offered);
      a := Hear(m.value);
    } else {
      NextOf(sh, c.tape.slot);
      NextOf(sh, c.tape.slot + 1);
      a := Skipped(sh, c.tape, false);
    }
  }

  lemma HonestReadServerHelloDone(c: Client, m: Option<Msg>, e: Env, sh: Shape, hello: Params, offered: bool) returns (a: Act)
    requires Honest(c, m, e, sh, hello, offered) && c.state == ReadServerHelloDone
    ensures Behaves(c, DoReadServerHelloDone(c, m, e), m, a, sh, hello, e.hasCert, offered)
  {
    if m.None? {
      NextOf(sh, 6);
      a := Idle(sh, c.tape, false);
    } else {
      MessageHere(sh, c.tape, m.value, true, hello, e.hasCert, offered);
      a := Hear(m.value);
    }
  }

  lemma HonestSendClientCertificate(c: Client, m: Option<Msg>, e: Env, sh: Shape, hello: Params, offered: bool) returns (a: Act)
    requires Honest(c, m, e, sh, hello, offered) && c.state == SendClientCertificate
    ensures Behaves(c, DoSendClientCertificate(c, e), m, a, sh, hello, e.hasCert, offered)
  {
    if sh.certRequest && e.retry {
      a := Idle(sh, c.tape, false);
    } else if sh.clientCert {
      a := Sent(sh, c.tape, Msg(Certificate, Chain(!e.hasCert, e.data)), false);
    } else {
      a := Skipped(sh, c.tape, false);
    }
  }

  lemma HonestSendClientKeyExchange(c: Client, m: Option<Msg>, e: Env, sh: Shape, hello: Params, offered: bool) returns (a: Act)
    requires Honest(c, m, e, sh, hello, offered) && c.state == SendClientKeyExchange
    ensures Behaves(c, DoSendClientKeyExchange(c, e), m, a, sh, hello, e.hasCert, offered)
  {
    a := Sent(sh, c.tape, Msg(ClientKeyExchange, Opaque(e.data)), false);
  }

  lemma HonestSendClientCertificateVerify(c: Client, m: Option<Msg>, e: Env, sh: Shape, hello: Params, offered: bool) returns (a: Act)
    requires Honest(c, m, e, sh, hello, offered) && c.state == SendClientCertificateVerify
    ensures Behaves(c, DoSendClientCertificateVerify(c, e), m, a, sh, hello, e.hasCert, offered)
  {
    if !sh.clientVerify {
      a := Skipped(sh, c.tape, false);
    } else if e.retry && !hello.ssl3 {
      a := Idle(sh, c.tape, false);
    } else {
      a := Sent(sh, c.tape, Msg(CertificateVerify, Opaque(e.data)), false);
    }
  }

  /** What the client's last messages are. */
  predicate LastItem(x: Item) {
    x.Ccs? || x.msg.tag == NextProto || x.msg.tag == ChannelId || (x.msg.tag == Finished && x.msg.body.Mac? && !x.msg.body.byServer)
  }

  ghost predicate AllLast(items: seq<Item>) {
    forall i | 0 <= i < |items| :: LastItem(items[i])
  }

  /** The client's last messages, in their four slots. */
  lemma LastEmitted(sh: Shape, t: Tape, p: Params, data: nat) returns (out: seq<Item>)
    requires LastSlots(sh, t.slot) && t.slot + 4 <= End(sh.resumed) && sh.npn == p.npn && sh.channelId == p.channelId
    ensures Emits(sh, t, AddLast(t, p, data), out, false) && AllLast(out)
  {
    var np, id := Msg(NextProto, Opaque(data)), Msg(ChannelId, Opaque(data));
    var t2 := t.AddChangeCipherSpec(false).AddIf(p.npn, false, np);
    var front := FrontEmitted(sh, t, p.npn, np);
    var end := EndEmitted(sh, t2, p.channelId, id);
    EmitThen(sh, t, t2, AddLast(t, p, data), front, end, false);
    out := front + end;
  }

  lemma FrontEmitted(sh: Shape, t: Tape, present: bool, np: Msg) returns (out: seq<Item>)
    requires t.slot + 2 <= End(sh.resumed) && SlotAt(sh, t.slot) == Some(Label(false, None)) && np.tag == NextProto
    requires SlotAt(sh, t.slot + 1) == If(present, false, Some(NextProto))
    ensures Emits(sh, t, t.AddChangeCipherSpec(false).AddIf(present, false, np), out, false) && AllLast(out)
  {
    var t1 := t.AddChangeCipherSpec(false);
    EmitChangeCipherSpec(sh, t, false);
    EmitMaybe(sh, t1, present, np, false);
    EmitThen(sh, t, t1, t1.AddIf(present, false, np), [Ccs], Maybe(present, np), false);
    out := [Ccs] + Maybe(present, np);
  }

  lemma EndEmitted(sh: Shape, t: Tape, present: bool, id: Msg) returns (out: seq<Item>)
    requires t.slot + 2 <= End(sh.resumed) && SlotAt(sh, t.slot) == If(present, false, Some(ChannelId)) && id.tag == ChannelId
    requires SlotAt(sh, t.slot + 1) == Some(Label(false, Some(Finished)))
    ensures Emits(sh, t, t.AddIf(present, false, id).AddFinished(false), out, false) && AllLast(out)
  {
    var t' := t.AddIf(present, false, id);
    EmitMaybe(sh, t, present, id, false);
    EmitFinished(sh, t', false);
    var fin := [Hs(Msg(Finished, Mac(false, t'.transcript)))];
    EmitThen(sh, t, t', t'.AddFinished(false), Maybe(present, id), fin, false);
    out := Maybe(present, id) + fin;
  }

  lemma LastIsProper(items: seq<Item>, hello: Params, hasCert: bool, offered: bool)
    requires AllLast(items)
    ensures AllProper(items, false, hello, hasCert, offered)
  {
  }

  lemma HonestSendClientFinished(c: Client, m: Option<Msg>, e: Env, sh: Shape, hello: Params, offered: bool) returns (a: Act)
    requires Honest(c, m, e, sh, hello, offered) && c.state == SendClientFinished
    ensures Behaves(c, DoSendClientFinished(c, e), m, a, sh, hello, e.hasCert, offered)
  {
    if hello.channelId && e.retry {
      a := Idle(sh, c.tape, false);
    } else {
      LastSlotsHere(sh);
      var out := LastEmitted(sh, c.tape, c.f.hello, e.data);
      LastIsProper(out, hello, e.hasCert, offered);
      a := Emit(out);
    }
  }

  lemma HonestFinishFlight(c: Client, m: Option<Msg>, e: Env, sh: Shape, hello: Params, offered: bool) returns (a: Act)
    requires Honest(c, m, e, sh, hello, offered) && c.state == FinishFlight
    ensures Behaves(c, DoFinishFlight(c, e), m, a, sh, hello, e.hasCert, offered)
  {
    a := Idle(sh, c.tape, false);
  }

  lemma HonestReadSessionTicket(c: Client, m: Option<Msg>, e: Env, sh: Shape, hello: Params, offered: bool) returns (a: Act)
    requires Honest(c, m, e, sh, hello, offered) && c.state == ReadSessionTicket
    ensures Behaves(c, DoReadSessionTicket(c, m, e), m, a, sh, hello, e.hasCert, offered)
  {
    assert SlotAt(sh, c.tape.slot) == If(hello.ticket, true, Some(NewSessionTicket));
    if !hello.ticket {
      a := Skipped(sh, c.tape, false);
    } else if m.None? {
      NextOf(sh, c.tape.slot);
      a := Idle(sh, c.tape, false);
    } else {
      MessageHere(sh, c.tape, m.value, true, hello, e.hasCert, offered);
      a := Hear(m.value);
    }
  }

  lemma HonestProcessChangeCipherSpec(c: Client, m: Option<Msg>, e: Env, sh: Shape, hello: Params, offered: bool) returns (a: Act)
    requires Honest(c, m, e, sh, hello, offered) && c.state == ProcessChangeCipherSpec
    ensures Behaves(c, DoProcessChangeCipherSpec(c, e), m, a, sh, hello, e.hasCert, offered)
  {
    a := HearChangeCipherSpec;
  }

  lemma HonestReadServerFinished(c: Client, m: Option<Msg>, e: Env, sh: Shape, hello: Params, offered: bool) returns (a: Act)
    requires Honest(c, m, e, sh, hello, offered) && c.state == ReadServerFinished
    ensures Behaves(c, DoReadServerFinished(c, m, e), m, a, sh, hello, e.hasCert, offered)
  {
    assert SlotAt(sh, c.tape.slot) == Some(Label(true, Some(Finished)));
    if m.None? {
      NextOf(sh, c.tape.slot);
      a := Idle(sh, c.tape, false);
    } else {
      MessageHere(sh, c.tape, m.value, true, hello, e.hasCert, offered);
      a := Hear(m.value);
    }
  }

  lemma HonestFinishClientHandshake(c: Client, m: Option<Msg>, e: Env, sh: Shape, hello: Params, offered: bool) returns (a: Act)
    requires Honest(c, m, e, sh, hello, offered) && c.state == FinishClientHandshake
    ensures Behaves(c, DoFinishClientHandshake(c, e), m, a, sh, hello, e.hasCert, offered)
  {
    a := Idle(sh, c.tape, false);
  }

  /** What each state needs to know of the offered session. */
  predicate OfferKnown(c: Client, m: Option<Msg>, e: Env, hello: Params, offered: bool) {
    && (c.state == StartConnect ==> offered == (c.f.session && !e.dropSession))
    && (c.state == ReadServerHello && m.Some? ==> (hello.resumed ==> offered))
  }

  lemma HonestHellos(c: Client, m: Option<Msg>, e: Env, sh: Shape, hello: Params, offered: bool) returns (a: Act)
    requires Honest(c, m, e, sh, hello, offered) && OfferKnown(c, m, e, hello, offered) && Hellos(c.state)
    ensures Behaves(c, Step(c, m, e), m, a, sh, hello, e.hasCert, offered)
  {
    match c.state {
      case StartConnect => a := HonestStartConnect(c, m, e, sh, hello, offered);
      case EnterEarlyData => a := HonestEnterEarlyData(c, m, e, sh, hello, offered);
      case ReadHelloVerifyRequest => a := HonestReadHelloVerifyRequest(c, m, e, sh, hello, offered);
      case ReadServerHello => a := HonestReadServerHello(c, m, e, sh, hello, offered);
      case ReadServerCertificate => a := HonestReadServerCertificate(c, m, e, sh, hello, offered);
      case ReadCertificateStatus => a := HonestReadCertificateStatus(c, m, e, sh, hello, offered);
      case VerifyServerCertificate => a := HonestVerifyServerCertificate(c, m, e, sh, hello, offered);
    }
  }

  lemma HonestKeys(c: Client, m: Option<Msg>, e: Env, sh: Shape, hello: Params, offered: bool) returns (a: Act)
    requires Honest(c, m, e, sh, hello, offered) && Keys(c.state)
    ensures Behaves(c, Step(c, m, e), m, a, sh, hello, e.hasCert, offered)
  {
    match c.state {
      case ReadServerKeyExchange => a := HonestReadServerKeyExchange(c, m, e, sh, hello, offered);
      case ReadCertificateRequest => a := HonestReadCertificateRequest(c, m, e, sh, hello, offered);
      case ReadServerHelloDone => a := HonestReadServerHelloDone(c, m, e, sh, hello, offered);
      case SendClientCertificate => a := HonestSendClientCertificate(c, m, e, sh, hello, offered);
      case SendClientKeyExchange => a := HonestSendClientKeyExchange(c, m, e, sh, hello, offered);
      case SendClientCertificateVerify => a := HonestSendClientCertificateVerify(c, m, e, sh, hello, offered);
    }
  }

  lemma HonestLate(c: Client, m: Option<Msg>, e: Env, sh: Shape, hello: Params, offered: bool) returns (a: Act)
    requires Honest(c, m, e, sh, hello, offered) && (Flights(c.state) || Lasts(c.state))
    ensures Behaves(c, Step(c, m, e), m, a, sh, hello, e.hasCert, offered)
  {
    match c.state {
      case SendClientFinished => a := HonestSendClientFinished(c, m, e, sh, hello, offered);
      case FinishFlight => a := HonestFinishFlight(c, m, e, sh, hello, offered);
      case ReadSessionTicket => a := HonestReadSessionTicket(c, m, e, sh, hello, offered);
      case ProcessChangeCipherSpec => a := HonestProcessChangeCipherSpec(c, m, e, sh, hello, offered);
      case ReadServerFinished => a := HonestReadServerFinished(c, m, e, sh, hello, offered);
      case FinishClientHandshake => a := HonestFinishClientHandshake(c, m, e, sh, hello, offered);
    }
  }

  /** Every step of a client whose next message is the script's does what the script says. */
  lemma HonestStep(c: Client, m: Option<Msg>, e: Env, sh: Shape, hello: Params, offered: bool) returns (a: Act)
    requires Honest(c, m, e, sh, hello, offered) && OfferKnown(c, m, e, hello, offered) && c.state != Done
    ensures Behaves(c, Step(c, m, e), m, a, sh, hello, e.hasCert, offered)
  {
    if Hellos(c.state) {
      a := HonestHellos(c, m, e, sh, hello, offered);
    } else if Keys(c.state) {
      a := HonestKeys(c, m, e, sh, hello, offered);
    } else {
      a := HonestLate(c, m, e, sh, hello, offered);
    }
  }
}
