/**
 * What a completed handshake has checked, against any peer: both Finished
 * messages are over exactly what was exchanged before them, and a client that
 * showed a certificate has had it verified and has proved to hold its key.
 */
module HandshakeChecks {
  import opened Bytes
  import opened HandshakeTypes
  import C = HandshakeClient
  import S = HandshakeServer

  /** Every Finished of a log is its sender's, over exactly the messages before it. */
  ghost predicate Authentic(log: seq<Said>) {
    forall i | 0 <= i < |log| && log[i].item.Hs? && log[i].item.msg.tag == Finished ::
      log[i].item.msg.body == Mac(log[i].byServer, Hashed(log[..i]))
  }

  ghost predicate Sound(t: Tape) {
    t.transcript == Hashed(t.log) && Authentic(t.log)
  }

  lemma AuthenticSnoc(log: seq<Said>, x: Said)
    requires Authentic(log)
    requires x.item.Hs? && x.item.msg.tag == Finished ==> x.item.msg.body == Mac(x.byServer, Hashed(log))
    ensures Authentic(log + [x])
  {
    forall i | 0 <= i < |log + [x]| && (log + [x])[i].item.Hs? && (log + [x])[i].item.msg.tag == Finished
      ensures (log + [x])[i].item.msg.body == Mac((log + [x])[i].byServer, Hashed((log + [x])[..i]))
    {
      assert (log + [x])[..i] == log[..i];
      assert i == |log| ==> log[..i] == log;
    }
  }

  lemma SoundMessage(t: Tape, byServer: bool, m: Msg)
    requires Sound(t) && (m.tag == Finished ==> m.body == Mac(byServer, t.transcript))
    ensures Sound(t.Take(byServer, m)) && Sound(t.Add(byServer, m))
  {
    LogSnoc(t.log, Said(byServer, Hs(m)));
    AuthenticSnoc(t.log, Said(byServer, Hs(m)));
  }

  lemma SoundChangeCipherSpec(t: Tape, byServer: bool)
    requires Sound(t)
    ensures Sound(t.TakeChangeCipherSpec(byServer)) && Sound(t.AddChangeCipherSpec(byServer))
  {
    LogSnoc(t.log, Said(byServer, Ccs));
    AuthenticSnoc(t.log, Said(byServer, Ccs));
  }

  lemma SoundIf(t: Tape, present: bool, byServer: bool, m: Msg)
    requires Sound(t) && m.tag != Finished
    ensures Sound(t.AddIf(present, byServer, m))
  {
    if present {
      SoundMessage(t, byServer, m);
    }
  }

  /** The peer's message as a machine may take it: a Finished only if its MAC is right. */
  lemma SoundTake(t: Tape, byServer: bool, m: Option<Msg>)
    requires Sound(t)
    ensures m.Some? && (m.value.tag != Finished || m.value.body == Mac(byServer, t.transcript)) ==> Sound(t.Take(byServer, m.value))
  {
    if m.Some? && (m.value.tag != Finished || m.value.body == Mac(byServer, t.transcript)) {
      SoundMessage(t, byServer, m.value);
    }
  }

  // The client

  predicate Failed(w: Wait) {
    w == Error || w == Crash
  }

  lemma ClientLastSound(t: Tape, p: Params, data: nat)
    requires Sound(t)
    ensures Sound(C.AddLast(t, p, data))
  {
    SoundChangeCipherSpec(t, false);
    var t1 := t.AddChangeCipherSpec(false);
    SoundIf(t1, p.npn, false, Msg(NextProto, Opaque(data)));
    var t2 := t1.AddIf(p.npn, false, Msg(NextProto, Opaque(data)));
    SoundIf(t2, p.channelId, false, Msg(ChannelId, Opaque(data)));
    var t3 := t2.AddIf(p.channelId, false, Msg(ChannelId, Opaque(data)));
    SoundMessage(t3, false, Msg(Finished, Mac(false, t3.transcript)));
  }

  /** The states that read a message up to the server's hello done. */
  predicate Reads(st: C.State) {
    st.EnterEarlyData? || st.ReadServerHello? || st.ReadServerCertificate? || st.ReadCertificateStatus?
  }

  predicate ReadsKeys(st: C.State) {
    st.VerifyServerCertificate? || st.ReadServerKeyExchange? || st.ReadCertificateRequest? || st.ReadServerHelloDone?
  }

  predicate Sends(st: C.State) {
    st.SendClientCertificate? || st.SendClientKeyExchange? || st.SendClientCertificateVerify?
  }

  predicate SendsHello(st: C.State) {
    st.StartConnect? || st.ReadHelloVerifyRequest?
  }

  lemma ClientReadsSound(c: C.Client, m: Option<Msg>, e: Env)
    requires Sound(c.tape) && Reads(c.state)
    ensures Failed(C.Step(c, m, e).wait) || Sound(C.Step(c, m, e).c.tape)
  {
    SoundTake(c.tape, true, m);
  }

  lemma ClientReadsKeysSound(c: C.Client, m: Option<Msg>, e: Env)
    requires Sound(c.tape) && ReadsKeys(c.state)
    ensures Failed(C.Step(c, m, e).wait) || Sound(C.Step(c, m, e).c.tape)
  {
    SoundTake(c.tape, true, m);
  }

  lemma ClientHellosSound(c: C.Client, m: Option<Msg>, e: Env)
    requires Sound(c.tape) && SendsHello(c.state)
    ensures Failed(C.Step(c, m, e).wait) || Sound(C.Step(c, m, e).c.tape)
  {
    if c.state.StartConnect? {
      SoundMessage(c.tape, false, C.Hello(c.f.(session := c.f.session && !e.dropSession), e));
    } else {
      SoundMessage(c.tape.Reset(), false, C.Hello(c.f.(gotVerifyRequest := true), e));
    }
  }

  lemma ClientCertificateSound(c: C.Client, e: Env)
    requires Sound(c.tape)
    ensures Failed(C.DoSendClientCertificate(c, e).wait) || Sound(C.DoSendClientCertificate(c, e).c.tape)
  {
    SoundMessage(c.tape, false, Msg(Certificate, Chain(!e.hasCert, e.data)));
  }

  lemma ClientKeyExchangeSound(c: C.Client, e: Env)
    requires Sound(c.tape)
    ensures Failed(C.DoSendClientKeyExchange(c, e).wait) || Sound(C.DoSendClientKeyExchange(c, e).c.tape)
  {
    SoundMessage(c.tape, false, Msg(ClientKeyExchange, Opaque(e.data)));
  }

  lemma ClientVerifySound(c: C.Client, e: Env)
    requires Sound(c.tape)
    ensures Failed(C.DoSendClientCertificateVerify(c, e).wait) || Sound(C.DoSendClientCertificateVerify(c, e).c.tape)
  {
    SoundMessage(c.tape, false, Msg(CertificateVerify, Opaque(e.data)));
  }

  lemma ClientSendsSound(c: C.Client, m: Option<Msg>, e: Env)
    requires Sound(c.tape) && Sends(c.state)
    ensures Failed(C.Step(c, m, e).wait) || Sound(C.Step(c, m, e).c.tape)
  {
    match c.state {
      case SendClientCertificate => ClientCertificateSound(c, e);
      case SendClientKeyExchange => ClientKeyExchangeSound(c, e);
      case SendClientCertificateVerify => ClientVerifySound(c, e);
    }
  }

  lemma ClientFinishedSound(c: C.Client, e: Env)
    requires Sound(c.tape)
    ensures Failed(C.DoSendClientFinished(c, e).wait) || Sound(C.DoSendClientFinished(c, e).c.tape)
  {
    ClientLastSound(c.tape, c.f.hello, e.data);
  }

  lemma ClientLateSound(c: C.Client, m: Option<Msg>, e: Env)
    requires Sound(c.tape) && !Reads(c.state) && !ReadsKeys(c.state) && !Sends(c.state) && !SendsHello(c.state)
    ensures Failed(C.Step(c, m, e).wait) || Sound(C.Step(c, m, e).c.tape)
  {
    match c.state {
      case SendClientFinished => ClientFinishedSound(c, e);
      case ProcessChangeCipherSpec => SoundChangeCipherSpec(c.tape, true);
      case _ => SoundTake(c.tape, true, m);
    }
  }

  lemma ClientStepSound(c: C.Client, m: Option<Msg>, e: Env)
    requires Sound(c.tape)
    ensures Failed(C.Step(c, m, e).wait) || Sound(C.Step(c, m, e).c.tape)
  {
    if Reads(c.state) {
      ClientReadsSound(c, m, e);
    } else if ReadsKeys(c.state) {
      ClientReadsKeysSound(c, m, e);
    } else if Sends(c.state) {
      ClientSendsSound(c, m, e);
    } else if SendsHello(c.state) {
      ClientHellosSound(c, m, e);
    } else {
      ClientLateSound(c, m, e);
    }
  }

  lemma ClientTurnSound(c: C.Client, x: C.Input)
    requires Sound(c.tape)
    ensures Failed(C.Turn(c, x).wait) || Sound(C.Turn(c, x).c.tape)
  {
    var m := if c.state == C.ProcessChangeCipherSpec then None else C.Message(x.item);
    C.TurnIsStep(c, x, m);
    ClientStepSound(c, m, x.e);
  }

  lemma {:induction false} ClientRunSound(c: C.Client, w: Wait, ins: seq<C.Input>)
    requires Failed(w) || Sound(c.tape)
    ensures var r := C.Run(c, w, ins); Failed(r.wait) || Sound(r.c.tape)
    decreases |ins|
  {
    if ins != [] && !Failed(w) && c.state != C.Done {
      ClientTurnSound(c, ins[0]);
      ClientRunSound(C.Turn(c, ins[0]).c, C.Turn(c, ins[0]).wait, ins[1..]);
    }
  }

  /** The Finished of one side is in the log. */
  ghost predicate Heard(log: seq<Said>, byServer: bool) {
    exists i | 0 <= i < |log| :: log[i].byServer == byServer && log[i].item.Hs? && log[i].item.msg.tag == Finished
  }

  lemma {:induction false} HeardLabel(log: seq<Said>, byServer: bool)
    requires Label(byServer, Some(Finished)) in LogLabels(log)
    ensures Heard(log, byServer)
  {
    var n := |log| - 1;
    if LabelOf(log[n].byServer, log[n].item) != Label(byServer, Some(Finished)) {
      HeardLabel(log[..n], byServer);
      var i :| 0 <= i < n && log[..n][i].byServer == byServer && log[..n][i].item.Hs? && log[..n][i].item.msg.tag == Finished;
      assert log[i].byServer == byServer;
    }
  }

  /**
   * Against any peer: a client that completes has both Finished messages, each
   * over exactly the messages exchanged before it.
   */
  lemma ClientFinishedChecked(c: C.Client, ins: seq<C.Input>)
    requires C.Initial(c)
    ensures var r := C.Run(c, Ok, ins);
            !Failed(r.wait) && r.c.state == C.Done ==>
              Authentic(r.c.tape.log) && Heard(r.c.tape.log, true) && Heard(r.c.tape.log, false)
  {
    ClientRunSound(c, Ok, ins);
    C.CompletedRun(c, ins);
    var r := C.Run(c, Ok, ins);
    if !Failed(r.wait) && r.c.state == C.Done {
      HeardLabel(r.c.tape.log, true);
      HeardLabel(r.c.tape.log, false);
    }
  }

  // The server

  lemma ServerLastSound(t: Tape, ticket: bool, e: Env)
    requires Sound(t)
    ensures Sound(S.AddLast(t, ticket, e))
  {
    SoundIf(t, ticket, true, Msg(NewSessionTicket, Ticket(e.emptyTicket, e.data)));
    var t1 := t.AddIf(ticket, true, Msg(NewSessionTicket, Ticket(e.emptyTicket, e.data)));
    SoundChangeCipherSpec(t1, true);
    var t2 := t1.AddChangeCipherSpec(true);
    SoundMessage(t2, true, Msg(Finished, Mac(true, t2.transcript)));
  }

  lemma ServerHellosSound(s: S.Server, m: Option<Msg>, e: Env)
    requires Sound(s.tape) && S.Hellos(s.state)
    ensures Failed(S.Step(s, m, e).wait) || Sound(S.Step(s, m, e).s.tape)
  {
    SoundTake(s.tape, false, m);
    match s.state {
      case SendServerHello => SoundMessage(s.tape, true, Msg(ServerHello, Chosen(S.Announced(s.f, e.hashes).hello, e.data)));
      case _ =>
    }
  }

  lemma ServerCertificateSound(s: S.Server, e: Env)
    requires Sound(s.tape)
    ensures Failed(S.DoSendServerCertificate(s, e).wait) || Sound(S.DoSendServerCertificate(s, e).s.tape)
  {
    var chain := Msg(Certificate, Chain(false, e.data));
    SoundIf(s.tape, s.f.hello.cert, true, chain);
    SoundIf(s.tape.AddIf(s.f.hello.cert, true, chain), s.f.hello.cert && s.f.hello.status, true, Msg(CertificateStatus, Opaque(e.data)));
  }

  lemma ServerHelloDoneSound(s: S.Server, e: Env)
    requires Sound(s.tape)
    ensures Failed(S.DoSendServerHelloDone(s, e).wait) || Sound(S.DoSendServerHelloDone(s, e).s.tape)
  {
    var request := Msg(CertificateRequest, Opaque(e.data));
    SoundIf(s.tape, s.f.certRequest, true, request);
    SoundMessage(s.tape.AddIf(s.f.certRequest, true, request), true, Msg(ServerHelloDone, Opaque(e.data)));
  }

  lemma ServerKeyExchangeSound(s: S.Server, e: Env)
    requires Sound(s.tape)
    ensures Failed(S.DoSendServerKeyExchange(s, e).wait) || Sound(S.DoSendServerKeyExchange(s, e).s.tape)
  {
    SoundMessage(s.tape, true, Msg(ServerKeyExchange, Opaque(e.data)));
  }

  lemma ServerKeysSound(s: S.Server, m: Option<Msg>, e: Env)
    requires Sound(s.tape) && S.Keys(s.state)
    ensures Failed(S.Step(s, m, e).wait) || Sound(S.Step(s, m, e).s.tape)
  {
    match s.state {
      case SendServerCertificate => ServerCertificateSound(s, e);
      case SendServerKeyExchange => ServerKeyExchangeSound(s, e);
      case SendServerHelloDone => ServerHelloDoneSound(s, e);
      case _ => SoundTake(s.tape, false, m);
    }
  }

  lemma ServerLateSound(s: S.Server, m: Option<Msg>, e: Env)
    requires Sound(s.tape) && !S.Hellos(s.state) && !S.Keys(s.state)
    ensures Failed(S.Step(s, m, e).wait) || Sound(S.Step(s, m, e).s.tape)
  {
    SoundTake(s.tape, false, m);
    match s.state {
      case ProcessChangeCipherSpec => SoundChangeCipherSpec(s.tape, false);
      case SendServerFinished => ServerLastSound(s.tape, s.f.hello.ticket, e);
      case _ =>
    }
  }

  lemma ServerStepSound(s: S.Server, m: Option<Msg>, e: Env)
    requires Sound(s.tape)
    ensures Failed(S.Step(s, m, e).wait) || Sound(S.Step(s, m, e).s.tape)
  {
    if S.Hellos(s.state) {
      ServerHellosSound(s, m, e);
    } else if S.Keys(s.state) {
      ServerKeysSound(s, m, e);
    } else {
      ServerLateSound(s, m, e);
    }
  }

  lemma ServerTurnSound(s: S.Server, x: S.Input)
    requires Sound(s.tape)
    ensures Failed(S.Turn(s, x).wait) || Sound(S.Turn(s, x).s.tape)
  {
    var m := if s.state == S.ProcessChangeCipherSpec then None else S.Message(x.item);
    S.TurnIsStep(s, x, m);
    ServerStepSound(s, m, x.e);
  }

  lemma {:induction false} ServerRunSound(s: S.Server, w: Wait, ins: seq<S.Input>)
    requires Failed(w) || Sound(s.tape)
    ensures var r := S.Run(s, w, ins); Failed(r.wait) || Sound(r.s.tape)
    decreases |ins|
  {
    if ins != [] && !Failed(w) && s.state != S.Done {
      ServerTurnSound(s, ins[0]);
      ServerRunSound(S.Turn(s, ins[0]).s, S.Turn(s, ins[0]).wait, ins[1..]);
    }
  }

  /** Against any peer: a server that completes has both Finished messages, each over what came before it. */
  lemma ServerFinishedChecked(s: S.Server, ins: seq<S.Input>)
    requires S.Initial(s)
    ensures var r := S.Run(s, Ok, ins);
            !Failed(r.wait) && r.s.state == S.Done ==>
              Authentic(r.s.tape.log) && Heard(r.s.tape.log, true) && Heard(r.s.tape.log, false)
  {
    ServerRunSound(s, Ok, ins);
    S.CompletedRun(s, ins);
    var r := S.Run(s, Ok, ins);
    if !Failed(r.wait) && r.s.state == S.Done {
      HeardLabel(r.s.tape.log, true);
      HeardLabel(r.s.tape.log, false);
    }
  }

  // The client's certificate

  predicate NotShown(s: S.Server) {
    !s.o.peerPubkey && !s.f.gotVerify && (s.f.session ==> !s.f.certRequest)
  }

  /** A certificate that was insisted on is there. */
  predicate Insisted(s: S.Server, insist: bool) {
    insist && s.f.certRequest ==> s.o.peerPubkey
  }

  /** A certificate that is there passed its check. */
  predicate Verified(s: S.Server, insist: bool) {
    Insisted(s, insist) && (s.o.peerPubkey ==> s.o.verified)
  }

  /** How far the client's certificate has been checked in each state. */
  predicate Vetted(s: S.Server, insist: bool) {
    match s.state
    case StartAccept => NotShown(s) && !s.f.certRequest
    case ReadClientHello => NotShown(s) && !s.f.certRequest
    case SelectCertificate => NotShown(s) && !s.f.certRequest
    case SelectParameters => NotShown(s) && !s.f.certRequest
    case SendServerHello => NotShown(s)
    case SendServerCertificate => NotShown(s)
    case SendServerKeyExchange => NotShown(s)
    case SendServerHelloDone => NotShown(s)
    case ReadClientCertificate => NotShown(s)
    case VerifyClientCertificate => Insisted(s, insist) && !s.f.gotVerify
    case ReadClientKeyExchange => Verified(s, insist) && !s.f.gotVerify
    case ReadClientCertificateVerify => Verified(s, insist) && !s.f.gotVerify
    case _ => Verified(s, insist) && s.f.gotVerify == s.o.peerPubkey
  }

  lemma HellosVet(s: S.Server, m: Option<Msg>, e: Env)
    requires Vetted(s, e.requireCert) && S.Hellos(s.state)
    ensures Failed(S.Step(s, m, e).wait) || Vetted(S.Step(s, m, e).s, e.requireCert)
  {
  }

  lemma KeysVet(s: S.Server, m: Option<Msg>, e: Env)
    requires Vetted(s, e.requireCert) && S.Keys(s.state)
    ensures Failed(S.Step(s, m, e).wait) || Vetted(S.Step(s, m, e).s, e.requireCert)
  {
  }

  /** The later states that read, or prepare to. */
  predicate Awaits(st: S.State) {
    st.ReadChangeCipherSpecMessage? || st.ProcessChangeCipherSpec? || st.ReadNextProto? || st.ReadChannelId?
  }

  lemma AwaitsVet(s: S.Server, m: Option<Msg>, e: Env)
    requires Vetted(s, e.requireCert) && Awaits(s.state)
    ensures Failed(S.Step(s, m, e).wait) || Vetted(S.Step(s, m, e).s, e.requireCert)
  {
  }

  lemma LastVet(s: S.Server, m: Option<Msg>, e: Env)
    requires Vetted(s, e.requireCert) && !S.Hellos(s.state) && !S.Keys(s.state) && !Awaits(s.state)
    ensures Failed(S.Step(s, m, e).wait) || Vetted(S.Step(s, m, e).s, e.requireCert)
  {
  }

  /** Whether the server insists on a certificate does not change during the handshake. */
  ghost predicate Constant(ins: seq<S.Input>, insist: bool) {
    forall i | 0 <= i < |ins| :: ins[i].e.requireCert == insist
  }

  lemma TurnVets(s: S.Server, x: S.Input)
    requires Vetted(s, x.e.requireCert)
    ensures Failed(S.Turn(s, x).wait) || Vetted(S.Turn(s, x).s, x.e.requireCert)
  {
    var m := if s.state == S.ProcessChangeCipherSpec then None else S.Message(x.item);
    S.TurnIsStep(s, x, m);
    if S.Hellos(s.state) {
      HellosVet(s, m, x.e);
    } else if S.Keys(s.state) {
      KeysVet(s, m, x.e);
    } else if Awaits(s.state) {
      AwaitsVet(s, m, x.e);
    } else {
      LastVet(s, m, x.e);
    }
  }

  lemma {:induction false} RunVets(s: S.Server, w: Wait, ins: seq<S.Input>, insist: bool)
    requires Constant(ins, insist) && (Failed(w) || Vetted(s, insist))
    ensures var r := S.Run(s, w, ins); Failed(r.wait) || Vetted(r.s, insist)
    decreases |ins|
  {
    if ins != [] && !Failed(w) && s.state != S.Done {
      TurnVets(s, ins[0]);
      RunVets(S.Turn(s, ins[0]).s, S.Turn(s, ins[0]).wait, ins[1..], insist);
    }
  }

  /**
   * Against any peer: when a server completes, a client key is known exactly if
   * a CertificateVerify was received, its certificate then passed the check,
   * and a server that asked for a certificate and insists on one has one.
   */
  lemma ClientCertificateChecked(s: S.Server, ins: seq<S.Input>, insist: bool)
    requires S.Initial(s) && Constant(ins, insist)
    ensures var r := S.Run(s, Ok, ins);
            !Failed(r.wait) && r.s.state == S.Done ==>
              && (r.s.o.peerPubkey <==> r.s.f.gotVerify)
              && (r.s.o.peerPubkey ==> r.s.o.verified)
              && (insist && r.s.f.certRequest ==> r.s.o.peerPubkey)
  {
    RunVets(s, Ok, ins, insist);
  }
}
