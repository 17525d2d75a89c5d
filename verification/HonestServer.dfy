/**
 * A server that talks to this client and meets no failure. State by state: given
 * the next message of the script, properly made, the server does not fail and
 * takes or sends exactly what the script says. Two states settle the script; all
 * others leave it as it is. The steps are those of HandshakeServer; nothing is
 * assumed of how they are scheduled.
 */
module HonestServer {
  import opened Bytes
  import opened HandshakeTypes
  import opened HandshakeInFlight
  import opened HandshakeActs
  import opened HandshakeServer
  import HonestClient

  /** The script that the server's fields and the client's certificate determine. */
  function JointShape(f: Fields, hasCert: bool): Shape {
    Shape(f.session, f.hello.cert, f.hello.cert && f.hello.status, NeedsParams(f), f.certRequest,
          f.certRequest && (hasCert || !f.hello.ssl3), f.certRequest && hasCert, f.hello.npn, f.hello.channelId, f.hello.ticket)
  }

  predicate PeerKnown(st: State) {
    st.VerifyClientCertificate? || st.ReadClientKeyExchange? || st.ReadClientCertificateVerify?
  }

  /** The client's key is there exactly if it has a certificate to show. */
  predicate Agree(s: Server, hasCert: bool) {
    PeerKnown(s.state) ==> s.o.peerPubkey == (s.f.certRequest && hasCert)
  }

  /** The step does not fail, and acts as the script says. */
  ghost predicate Behaves(s: Server, r: Result, m: Option<Msg>, a: Act, hasCert: bool, offered: bool) {
    && r.wait != Error && r.took == a.Hear? && (a.Hear? ==> m == Some(a.m))
    && Did(JointShape(r.s.f, hasCert), s.tape, r.s.tape, a, true)
    && (a.Emit? ==> AllProper(a.out, true, r.s.f.hello, hasCert, offered))
    && Agree(r.s, hasCert)
    && (r.wait == ReadMessage ==> MessageNext(JointShape(r.s.f, hasCert), r.s.tape.slot, false))
    && (a.HearChangeCipherSpec? <==> s.state == ProcessChangeCipherSpec)
  }

  /** The script is not changed by the step. */
  ghost predicate SameScript(s: Server, r: Result, hasCert: bool) {
    JointShape(r.s.f, hasCert) == JointShape(s.f, hasCert) && r.s.f.hello == s.f.hello && r.s.f.session == s.f.session
  }

  /** No operation fails, a suite is found, and a certificate is insisted on only if the client has one. */
  predicate Smooth(e: Env) {
    !e.fail && e.params.Supported() && (e.requireCert ==> e.hasCert)
  }

  ghost predicate Honest(s: Server, m: Option<Msg>, e: Env, offered: bool) {
    && Ready(s) && Agree(s, e.hasCert) && Smooth(e)
    && Expected(JointShape(s.f, e.hasCert), s.tape, m, false, s.f.hello, e.hasCert, offered)
  }

  // Flags of what was sent or received do not change the script

  lemma SameAfterKeyExchange(f: Fields, hasCert: bool)
    ensures JointShape(f.(sentKeyExchange := true), hasCert) == JointShape(f, hasCert)
  {
  }

  lemma SameAfterCertificate(f: Fields, hasCert: bool)
    ensures JointShape(f.(gotCert := true), hasCert) == JointShape(f, hasCert)
  {
  }

  lemma SameAfterVerify(f: Fields, hasCert: bool)
    ensures JointShape(f.(gotVerify := true), hasCert) == JointShape(f, hasCert)
  {
  }

  lemma SameAfterFinish(f: Fields, hasCert: bool)
    ensures JointShape(f.(newSession := false), hasCert) == JointShape(f, hasCert)
  {
  }

  /** The script fits what the ServerHello announces. */
  lemma ShapeFits(s: Server, hasCert: bool)
    requires Ready(s) && s.tape.slot >= 1
    ensures HonestClient.Fits(JointShape(s.f, hasCert), s.f.hello, hasCert)
  {
  }

  lemma HonestStartAccept(s: Server, m: Option<Msg>, e: Env, offered: bool) returns (a: Act)
    requires Honest(s, m, e, offered) && s.state == StartAccept
    ensures Behaves(s, DoStartAccept(s), m, a, e.hasCert, offered)
    ensures SameScript(s, DoStartAccept(s), e.hasCert)
  {
    var sh := JointShape(s.f, e.hasCert);
    a := Idle(sh, s.tape, true);
  }

  lemma HonestReadClientHello(s: Server, m: Option<Msg>, e: Env, offered: bool) returns (a: Act)
    requires Honest(s, m, e, offered) && s.state == ReadClientHello
    ensures Behaves(s, DoReadClientHello(s, m, e), m, a, e.hasCert, offered)
    ensures SameScript(s, DoReadClientHello(s, m, e), e.hasCert)
  {
    var sh := JointShape(s.f, e.hasCert);
    if m.Some? {
      MessageHere(sh, s.tape, m.value, false, s.f.hello, e.hasCert, offered);
    }
    NextOf(sh, 0);
    a := Idle(sh, s.tape, true);
  }

  lemma HonestSelectCertificate(s: Server, m: Option<Msg>, e: Env, offered: bool) returns (a: Act)
    requires Honest(s, m, e, offered) && s.state == SelectCertificate
    ensures Behaves(s, DoSelectCertificate(s, m, e), m, a, e.hasCert, offered)
    ensures SameScript(s, DoSelectCertificate(s, m, e), e.hasCert)
  {
    var sh := JointShape(s.f, e.hasCert);
    if m.Some? {
      MessageHere(sh, s.tape, m.value, false, s.f.hello, e.hasCert, offered);
    }
    NextOf(sh, 0);
    a := Idle(sh, s.tape, true);
  }

  lemma HonestSelectParameters(s: Server, m: Option<Msg>, e: Env, offered: bool) returns (a: Act)
    requires Honest(s, m, e, offered) && s.state == SelectParameters
    ensures Behaves(s, DoSelectParameters(s, m, e), m, a, e.hasCert, offered)
  {
    var sh := JointShape(s.f, e.hasCert);
    if m.Some? {
      MessageHere(sh, s.tape, m.value, false, s.f.hello, e.hasCert, offered);
    }
    if m.Some? && !e.retry {
      a := Hear(m.value);
    } else {
      NextOf(sh, 0);
      a := Idle(sh, s.tape, true);
    }
  }

  lemma HonestSendServerHello(s: Server, m: Option<Msg>, e: Env, offered: bool) returns (a: Act)
    requires Honest(s, m, e, offered) && s.state == SendServerHello
    ensures Behaves(s, DoSendServerHello(s, e), m, a, e.hasCert, offered)
  {
    var f := Announced(s.f, e.hashes);
    a := Sent(JointShape(f, e.hasCert), s.tape, Msg(ServerHello, Chosen(f.hello, e.data)), true);
  }

  lemma EmitTwo(sh: Shape, t: Tape, p: bool, m: Msg, q: bool, n: Msg)
    requires t.slot + 2 <= End(sh.resumed) && m.tag != Finished && n.tag != Finished
    requires SlotAt(sh, t.slot) == If(p, true, Some(m.tag)) && SlotAt(sh, t.slot + 1) == If(q, true, Some(n.tag))
    ensures Emits(sh, t, t.AddIf(p, true, m).AddIf(q, true, n), Maybe(p, m) + Maybe(q, n), true)
  {
    var t1 := t.AddIf(p, true, m);
    EmitMaybe(sh, t, p, m, true);
    EmitMaybe(sh, t1, q, n, true);
    EmitThen(sh, t, t1, t1.AddIf(q, true, n), Maybe(p, m), Maybe(q, n), true);
  }

  lemma TwoAct(sh: Shape, t: Tape, p: bool, m: Msg, q: bool, n: Msg, hello: Params, hasCert: bool, offered: bool) returns (a: Act)
    requires t.slot + 2 <= End(sh.resumed) && m.tag != Finished && n.tag != Finished
    requires SlotAt(sh, t.slot) == If(p, true, Some(m.tag)) && SlotAt(sh, t.slot + 1) == If(q, true, Some(n.tag))
    requires Proper(Hs(m), true, hello, hasCert, offered) && Proper(Hs(n), true, hello, hasCert, offered)
    ensures a.Emit? && Did(sh, t, t.AddIf(p, true, m).AddIf(q, true, n), a, true) && AllProper(a.out, true, hello, hasCert, offered)
  {
    EmitTwo(sh, t, p, m, q, n);
    a := Emit(Maybe(p, m) + Maybe(q, n));
  }

  lemma HonestSendServerCertificate(s: Server, m: Option<Msg>, e: Env, offered: bool) returns (a: Act)
    requires Honest(s, m, e, offered) && s.state == SendServerCertificate
    ensures Behaves(s, DoSendServerCertificate(s, e), m, a, e.hasCert, offered)
    ensures SameScript(s, DoSendServerCertificate(s, e), e.hasCert)
  {
    var cert, status := Msg(Certificate, Chain(false, e.data)), Msg(CertificateStatus, Opaque(e.data));
    a := TwoAct(JointShape(s.f, e.hasCert), s.tape, s.f.hello.cert, cert, s.f.hello.cert && s.f.hello.status, status, s.f.hello, e.hasCert, offered);
  }

  lemma HonestSendServerKeyExchange(s: Server, m: Option<Msg>, e: Env, offered: bool) returns (a: Act)
    requires Honest(s, m, e, offered) && s.state == SendServerKeyExchange
    ensures Behaves(s, DoSendServerKeyExchange(s, e), m, a, e.hasCert, offered)
    ensures SameScript(s, DoSendServerKeyExchange(s, e), e.hasCert)
  {
    var sh := JointShape(s.f, e.hasCert);
    SameAfterKeyExchange(s.f, e.hasCert);
    assert SlotAt(sh, 4) == If(sh.ske, true, Some(ServerKeyExchange));
    if !sh.ske {
      a := Skipped(sh, s.tape, true);
    } else if s.f.hello.cert && e.retry {
      a := Idle(sh, s.tape, true);
    } else {
      a := Sent(sh, s.tape, Msg(ServerKeyExchange, Opaque(e.data)), true);
    }
  }

  lemma HonestSendServerHelloDone(s: Server, m: Option<Msg>, e: Env, offered: bool) returns (a: Act)
    requires Honest(s, m, e, offered) && s.state == SendServerHelloDone
    ensures Behaves(s, DoSendServerHelloDone(s, e), m, a, e.hasCert, offered)
    ensures SameScript(s, DoSendServerHelloDone(s, e), e.hasCert)
  {
    var req, done := Msg(CertificateRequest, Opaque(e.data)), Msg(ServerHelloDone, Opaque(e.data));
    a := TwoAct(JointShape(s.f, e.hasCert), s.tape, s.f.certRequest, req, true, done, s.f.hello, e.hasCert, offered);
  }

  lemma HonestReadClientCertificate(s: Server, m: Option<Msg>, e: Env, offered: bool) returns (a: Act)
    requires Honest(s, m, e, offered) && s.state == ReadClientCertificate
    ensures Behaves(s, DoReadClientCertificate(s, m, e), m, a, e.hasCert, offered)
    ensures SameScript(s, DoReadClientCertificate(s, m, e), e.hasCert)
  {
    var sh := JointShape(s.f, e.hasCert);
    SameAfterCertificate(s.f, e.hasCert);
    if !sh.certRequest {
      a := Skipped(sh, s.tape, true);
    } else if m.None? {
      NextOf(sh, 7);
      NextOf(sh, 8);
      a := Idle(sh, s.tape, true);
    } else if sh.clientCert {
      MessageHere(sh, s.tape, m.value, false, s.f.hello, e.hasCert, offered);
      a := Hear(m.value);
    } else {
      NextOf(sh, 7);
      NextOf(sh, 8);
      a := Skipped(sh, s.tape, true);
    }
  }

  lemma HonestVerifyClientCertificate(s: Server, m: Option<Msg>, e: Env, offered: bool) returns (a: Act)
    requires Honest(s, m, e, offered) && s.state == VerifyClientCertificate
    ensures Behaves(s, DoVerifyClientCertificate(s, e), m, a, e.hasCert, offered)
    ensures SameScript(s, DoVerifyClientCertificate(s, e), e.hasCert)
  {
    var sh := JointShape(s.f, e.hasCert);
    a := Idle(sh, s.tape, true);
  }

  lemma HonestReadClientKeyExchange(s: Server, m: Option<Msg>, e: Env, offered: bool) returns (a: Act)
    requires Honest(s, m, e, offered) && s.state == ReadClientKeyExchange
    ensures Behaves(s, DoReadClientKeyExchange(s, m, e), m, a, e.hasCert, offered)
    ensures SameScript(s, DoReadClientKeyExchange(s, m, e), e.hasCert)
  {
    var sh := JointShape(s.f, e.hasCert);
    if m.Some? {
      MessageHere(sh, s.tape, m.value, false, s.f.hello, e.hasCert, offered);
    }
    if m.Some? && !(s.f.hello.kx == RSA && e.retry) {
      a := Hear(m.value);
    } else {
      NextOf(sh, 8);
      a := Idle(sh, s.tape, true);
    }
  }

  lemma HonestVerifyAbsent(s: Server, m: Option<Msg>, e: Env, offered: bool) returns (a: Act)
    requires Honest(s, m, e, offered) && s.state == ReadClientCertificateVerify && !s.o.peerPubkey
    ensures Behaves(s, DoReadClientCertificateVerify(s, m, e), m, a, e.hasCert, offered)
    ensures SameScript(s, DoReadClientCertificateVerify(s, m, e), e.hasCert)
  {
    a := Skipped(JointShape(s.f, e.hasCert), s.tape, true);
  }

  lemma HonestReadClientCertificateVerify(s: Server, m: Option<Msg>, e: Env, offered: bool) returns (a: Act)
    requires Honest(s, m, e, offered) && s.state == ReadClientCertificateVerify
    ensures Behaves(s, DoReadClientCertificateVerify(s, m, e), m, a, e.hasCert, offered)
    ensures SameScript(s, DoReadClientCertificateVerify(s, m, e), e.hasCert)
  {
    var sh := JointShape(s.f, e.hasCert);
    if !s.o.peerPubkey {
      a := HonestVerifyAbsent(s, m, e, offered);
    } else if m.None? {
      NextOf(sh, 9);
      a := Idle(sh, s.tape, true);
    } else {
      SameAfterVerify(s.f, e.hasCert);
      MessageHere(sh, s.tape, m.value, false, s.f.hello, e.hasCert, offered);
      a := Hear(m.value);
    }
  }

  lemma HonestReadChangeCipherSpecMessage(s: Server, m: Option<Msg>, e: Env, offered: bool) returns (a: Act)
    requires Honest(s, m, e, offered) && s.state == ReadChangeCipherSpecMessage
    ensures Behaves(s, DoReadChangeCipherSpecMessage(s), m, a, e.hasCert, offered)
    ensures SameScript(s, DoReadChangeCipherSpecMessage(s), e.hasCert)
  {
    var sh := JointShape(s.f, e.hasCert);
    a := Idle(sh, s.tape, true);
  }

  lemma HonestProcessChangeCipherSpec(s: Server, m: Option<Msg>, e: Env, offered: bool) returns (a: Act)
    requires Honest(s, m, e, offered) && s.state == ProcessChangeCipherSpec
    ensures Behaves(s, DoProcessChangeCipherSpec(s, e), m, a, e.hasCert, offered)
    ensures SameScript(s, DoProcessChangeCipherSpec(s, e), e.hasCert)
  {
    a := HearChangeCipherSpec;
  }

  lemma HonestReadNextProto(s: Server, m: Option<Msg>, e: Env, offered: bool) returns (a: Act)
    requires Honest(s, m, e, offered) && s.state == ReadNextProto
    ensures Behaves(s, DoReadNextProto(s, m, e), m, a, e.hasCert, offered)
    ensures SameScript(s, DoReadNextProto(s, m, e), e.hasCert)
  {
    var sh := JointShape(s.f, e.hasCert);
    assert SlotAt(sh, s.tape.slot) == If(sh.npn, false, Some(NextProto));
    if !sh.npn {
      a := Skipped(sh, s.tape, true);
    } else if m.None? {
      NextOf(sh, s.tape.slot);
      a := Idle(sh, s.tape, true);
    } else {
      MessageHere(sh, s.tape, m.value, false, s.f.hello, e.hasCert, offered);
      a := Hear(m.value);
    }
  }

  lemma HonestReadChannelId(s: Server, m: Option<Msg>, e: Env, offered: bool) returns (a: Act)
    requires Honest(s, m, e, offered) && s.state == ReadChannelId
    ensures Behaves(s, DoReadChannelId(s, m, e), m, a, e.hasCert, offered)
    ensures SameScript(s, DoReadChannelId(s, m, e), e.hasCert)
  {
    var sh := JointShape(s.f, e.hasCert);
    assert SlotAt(sh, s.tape.slot) == If(sh.channelId, false, Some(ChannelId));
    if !sh.channelId {
      a := Skipped(sh, s.tape, true);
    } else if m.None? {
      NextOf(sh, s.tape.slot);
      a := Idle(sh, s.tape, true);
    } else {
      MessageHere(sh, s.tape, m.value, false, s.f.hello, e.hasCert, offered);
      a := Hear(m.value);
    }
  }

  lemma HonestReadClientFinished(s: Server, m: Option<Msg>, e: Env, offered: bool) returns (a: Act)
    requires Honest(s, m, e, offered) && s.state == ReadClientFinished
    ensures Behaves(s, DoReadClientFinished(s, m, e), m, a, e.hasCert, offered)
    ensures SameScript(s, DoReadClientFinished(s, m, e), e.hasCert)
  {
    var sh := JointShape(s.f, e.hasCert);
    assert SlotAt(sh, s.tape.slot) == Some(Label(false, Some(Finished)));
    if m.None? {
      NextOf(sh, s.tape.slot);
      a := Idle(sh, s.tape, true);
    } else {
      MessageHere(sh, s.tape, m.value, false, s.f.hello, e.hasCert, offered);
      a := Hear(m.value);
    }
  }

  /** What the server's last messages are. */
  predicate LastItem(x: Item) {
    x.Ccs? || (x.msg.tag == NewSessionTicket && x.msg.body.Ticket?) || (x.msg.tag == Finished && x.msg.body.Mac? && x.msg.body.byServer)
  }

  ghost predicate AllLast(items: seq<Item>) {
    forall i | 0 <= i < |items| :: LastItem(items[i])
  }

  /** The server's last messages, in their three slots. */
  lemma LastEmitted(sh: Shape, t: Tape, e: Env) returns (out: seq<Item>)
    requires LastSlots(sh, t.slot) && t.slot + 3 <= End(sh.resumed)
    ensures Emits(sh, t, AddLast(t, sh.ticket, e), out, true) && AllLast(out)
  {
    var nst := Msg(NewSessionTicket, Ticket(e.emptyTicket, e.data));
    var t1 := t.AddIf(sh.ticket, true, nst);
    EmitMaybe(sh, t, sh.ticket, nst, true);
    var end := EndEmitted(sh, t1);
    EmitThen(sh, t, t1, t1.AddChangeCipherSpec(true).AddFinished(true), Maybe(sh.ticket, nst), end, true);
    out := Maybe(sh.ticket, nst) + end;
  }

  lemma EndEmitted(sh: Shape, t: Tape) returns (out: seq<Item>)
    requires t.slot + 2 <= End(sh.resumed) && SlotAt(sh, t.slot) == Some(Label(true, None))
    requires SlotAt(sh, t.slot + 1) == Some(Label(true, Some(Finished)))
    ensures Emits(sh, t, t.AddChangeCipherSpec(true).AddFinished(true), out, true) && AllLast(out)
  {
    var t1 := t.AddChangeCipherSpec(true);
    EmitChangeCipherSpec(sh, t, true);
    EmitFinished(sh, t1, true);
    var fin := [Hs(Msg(Finished, Mac(true, t1.transcript)))];
    EmitThen(sh, t, t1, t1.AddFinished(true), [Ccs], fin, true);
    out := [Ccs] + fin;
  }

  lemma LastIsProper(items: seq<Item>, hello: Params, hasCert: bool, offered: bool)
    requires AllLast(items)
    ensures AllProper(items, true, hello, hasCert, offered)
  {
  }

  lemma LastAct(sh: Shape, t: Tape, e: Env, hello: Params, offered: bool) returns (a: Act)
    requires t.slot == if sh.resumed then 2 else 14
    ensures a.Emit? && Did(sh, t, AddLast(t, sh.ticket, e), a, true) && AllProper(a.out, true, hello, e.hasCert, offered)
  {
    LastSlotsHere(sh);
    var out := LastEmitted(sh, t, e);
    LastIsProper(out, hello, e.hasCert, offered);
    a := Emit(out);
  }

  lemma HonestSendServerFinished(s: Server, m: Option<Msg>, e: Env, offered: bool) returns (a: Act)
    requires Honest(s, m, e, offered) && s.state == SendServerFinished
    ensures Behaves(s, DoSendServerFinished(s, e), m, a, e.hasCert, offered)
    ensures SameScript(s, DoSendServerFinished(s, e), e.hasCert)
  {
    a := LastAct(JointShape(s.f, e.hasCert), s.tape, e, s.f.hello, offered);
  }

  lemma HonestFinishServerHandshake(s: Server, m: Option<Msg>, e: Env, offered: bool) returns (a: Act)
    requires Honest(s, m, e, offered) && s.state == FinishServerHandshake
    ensures Behaves(s, DoFinishServerHandshake(s), m, a, e.hasCert, offered)
    ensures SameScript(s, DoFinishServerHandshake(s), e.hasCert)
  {
    var sh := JointShape(s.f, e.hasCert);
    SameAfterFinish(s.f, e.hasCert);
    a := Idle(sh, s.tape, true);
  }

  lemma HonestStart(s: Server, m: Option<Msg>, e: Env, offered: bool) returns (a: Act)
    requires Honest(s, m, e, offered) && (s.state.StartAccept? || s.state.ReadClientHello? || s.state.SelectCertificate?)
    ensures Behaves(s, Step(s, m, e), m, a, e.hasCert, offered) && SameScript(s, Step(s, m, e), e.hasCert)
  {
    match s.state {
      case StartAccept => a := HonestStartAccept(s, m, e, offered);
      case ReadClientHello => a := HonestReadClientHello(s, m, e, offered);
      case SelectCertificate => a := HonestSelectCertificate(s, m, e, offered);
    }
  }

  lemma HonestKeys(s: Server, m: Option<Msg>, e: Env, offered: bool) returns (a: Act)
    requires Honest(s, m, e, offered) && Keys(s.state)
    ensures Behaves(s, Step(s, m, e), m, a, e.hasCert, offered) && SameScript(s, Step(s, m, e), e.hasCert)
  {
    match s.state {
      case SendServerCertificate => a := HonestSendServerCertificate(s, m, e, offered);
      case SendServerKeyExchange => a := HonestSendServerKeyExchange(s, m, e, offered);
      case SendServerHelloDone => a := HonestSendServerHelloDone(s, m, e, offered);
      case ReadClientCertificate => a := HonestReadClientCertificate(s, m, e, offered);
      case VerifyClientCertificate => a := HonestVerifyClientCertificate(s, m, e, offered);
      case ReadClientKeyExchange => a := HonestReadClientKeyExchange(s, m, e, offered);
      case ReadClientCertificateVerify => a := HonestReadClientCertificateVerify(s, m, e, offered);
    }
  }

  lemma HonestLate(s: Server, m: Option<Msg>, e: Env, offered: bool) returns (a: Act)
    requires Honest(s, m, e, offered) && !Hellos(s.state) && !Keys(s.state) && s.state != Done
    ensures Behaves(s, Step(s, m, e), m, a, e.hasCert, offered) && SameScript(s, Step(s, m, e), e.hasCert)
  {
    match s.state {
      case ReadChangeCipherSpecMessage => a := HonestReadChangeCipherSpecMessage(s, m, e, offered);
      case ProcessChangeCipherSpec => a := HonestProcessChangeCipherSpec(s, m, e, offered);
      case ReadNextProto => a := HonestReadNextProto(s, m, e, offered);
      case ReadChannelId => a := HonestReadChannelId(s, m, e, offered);
      case ReadClientFinished => a := HonestReadClientFinished(s, m, e, offered);
      case SendServerFinished => a := HonestSendServerFinished(s, m, e, offered);
      case FinishServerHandshake => a := HonestFinishServerHandshake(s, m, e, offered);
    }
  }

  /** The two states that settle the script. */
  predicate Settling(st: State) {
    st.SelectParameters? || st.SendServerHello?
  }

  /** A resumed session is one the client offered. */
  predicate Offered(f: Fields, offered: bool) {
    f.hello.resumed ==> offered
  }

  lemma HonestSettling(s: Server, m: Option<Msg>, e: Env, offered: bool) returns (a: Act)
    requires Honest(s, m, e, offered) && Settling(s.state)
    ensures Behaves(s, Step(s, m, e), m, a, e.hasCert, offered)
    ensures s.state == SelectParameters && !a.Hear? ==> Step(s, m, e).s == s
    ensures Offered(s.f, offered) || a.Hear? ==> Offered(Step(s, m, e).s.f, offered)
  {
    match s.state {
      case SelectParameters => a := HonestSelectParameters(s, m, e, offered);
      case SendServerHello => a := HonestSendServerHello(s, m, e, offered);
    }
  }

  /** Every step of a server whose next message is the script's does what the script says. */
  lemma HonestStep(s: Server, m: Option<Msg>, e: Env, offered: bool) returns (a: Act)
    requires Honest(s, m, e, offered) && s.state != Done
    ensures Behaves(s, Step(s, m, e), m, a, e.hasCert, offered)
    ensures !Settling(s.state) ==> SameScript(s, Step(s, m, e), e.hasCert)
    ensures s.state == SelectParameters && !a.Hear? ==> Step(s, m, e).s == s
    ensures Settling(s.state) && (Offered(s.f, offered) || a.Hear?) ==> Offered(Step(s, m, e).s.f, offered)
  {
    if Settling(s.state) {
      a := HonestSettling(s, m, e, offered);
    } else if Hellos(s.state) {
      a := HonestStart(s, m, e, offered);
    } else if Keys(s.state) {
      a := HonestKeys(s, m, e, offered);
    } else {
      a := HonestLate(s, m, e, offered);
    }
  }
}
