/**
 * The server's handshake state machine up to TLS 1.2: one function per state,
 * the loop over them, and what holds in every run against any peer. Outcomes
 * that the machine does not determine, such as the choice of parameters or a
 * pending private key operation, come with each step. Using an object that is
 * not there is an outcome of its own, shown never to occur.
 */
module HandshakeServer {
  import opened Bytes
  import opened HandshakeTypes

  datatype State =
    | StartAccept | ReadClientHello | SelectCertificate | SelectParameters | SendServerHello | SendServerCertificate
    | SendServerKeyExchange | SendServerHelloDone | ReadClientCertificate | VerifyClientCertificate
    | ReadClientKeyExchange | ReadClientCertificateVerify | ReadChangeCipherSpecMessage | ProcessChangeCipherSpec
    | ReadNextProto | ReadChannelId | ReadClientFinished | SendServerFinished | FinishServerHandshake | Done

  /** The fields of the handshake and connection objects that the states look at. */
  datatype Fields = Fields(
    /** a PSK identity hint is configured */
    hint: bool,
    /** whether ssl->session and hs->new_session are set */
    session: bool, newSession: bool,
    /** what the server has settled on, and announces */
    hello: Params,
    certRequest: bool,
    /** which optional messages were sent or received */
    sentKeyExchange: bool, gotCert: bool, gotVerify: bool)

  /**
   * Objects that come and go: the key share, the signed parameters, the client's key, the transcript's buffer.
   * verified says that the client's certificate passed its check.
   */
  datatype Objs = Objs(keyShare: bool, serverParams: bool, peerPubkey: bool, buffer: bool, verified: bool)

  datatype Server = Server(state: State, f: Fields, o: Objs, tape: Tape)

  /** The state after a step, what the loop is told, and whether the message was consumed. */
  datatype Result = Result(s: Server, wait: Wait, took: bool)

  function Stop(s: Server, w: Wait): Result {
    Result(s, w, false)
  }

  /** On to the next state. */
  function Next(s: Server, f: Fields, o: Objs, st: State): Result {
    Result(Server(st, f, o, s.tape), Ok, false)
  }

  /** On to the next state, leaving out an optional message. */
  function Pass(s: Server, f: Fields, o: Objs, st: State): Result {
    Result(Server(st, f, o, s.tape.Skip()), Ok, false)
  }

  /** ssl_hash_message */
  function Hashing(s: Server, m: Msg): Server {
    s.(tape := s.tape.Hash(m))
  }

  /** The message, hashed before, is done with. */
  function Consume(s: Server, f: Fields, o: Objs, m: Msg, st: State): Result {
    Result(Server(st, f, o, s.tape.NextMessage(false, m)), Ok, true)
  }

  function DoStartAccept(s: Server): Result {
    Next(s, s.f, s.o, ReadClientHello)
  }

  /** The ClientHello is looked at here and in the next two states, and consumed in the last. */
  function DoReadClientHello(s: Server, m: Option<Msg>, e: Env): Result {
    if m.None? then Stop(s, ReadMessage)
    else if m.value.tag != ClientHello || !m.value.body.Offer? then Stop(s, Error)
    else if e.retry then Stop(s, Suspended)
    else if e.fail then Stop(s, Error)
    else Next(s, s.f, s.o, SelectCertificate)
  }

  function DoSelectCertificate(s: Server, m: Option<Msg>, e: Env): Result {
    if m.None? then Stop(s, ReadMessage)
    else if e.fail then Stop(s, Error)
    else if e.retry then Stop(s, Suspended)
    else Next(s, s.f, s.o, SelectParameters)
  }

  /** A session is resumed only if the client offered one; only a full handshake asks for a certificate. */
  function Selected(f: Fields, offered: bool, p: Params, certRequest: bool): Fields {
    var reuse := p.resumed && offered;
    f.(session := reuse, newSession := !reuse, hello := p.(resumed := reuse), certRequest := !reuse && certRequest && p.cert)
  }

  function DoSelectParameters(s: Server, m: Option<Msg>, e: Env): Result {
    if m.None? then Stop(s, ReadMessage)
    else if m.value.tag != ClientHello || !m.value.body.Offer? || !e.params.Supported() || e.fail then Stop(s, Error)
    else if e.retry then Stop(s, Suspended)
    else
      var f := Selected(s.f, m.value.body.session, e.params, e.certRequest);
      Consume(Hashing(s, m.value), f, s.o.(buffer := s.o.buffer && f.certRequest), m.value, SendServerHello)
  }

  /** Channel IDs need ECDHE, and hashes recorded with a session that is resumed. */
  function Announced(f: Fields, hashes: bool): Fields {
    f.(hello := f.hello.(channelId := f.hello.channelId && f.hello.kx == ECDHE && (f.session ==> hashes)))
  }

  function DoSendServerHello(s: Server, e: Env): Result {
    if e.fail then Stop(s, Error)
    else if !s.f.session && !s.f.newSession then Stop(s, Crash)
    else
      var f := Announced(s.f, e.hashes);
      Result(Server(if f.session then SendServerFinished else SendServerCertificate, f, s.o,
                    s.tape.Add(true, Msg(ServerHello, Chosen(f.hello, e.data)))), Ok, false)
  }

  predicate NeedsParams(f: Fields) {
    f.hello.kx == ECDHE || (!f.hello.cert && f.hint)
  }

  function DoSendServerCertificate(s: Server, e: Env): Result {
    if e.fail then Stop(s, Error)
    else if s.f.hello.kx == ECDHE && !s.f.newSession then Stop(s, Crash)
    else
      var tape := s.tape.AddIf(s.f.hello.cert, true, Msg(Certificate, Chain(false, e.data)))
                        .AddIf(s.f.hello.cert && s.f.hello.status, true, Msg(CertificateStatus, Opaque(e.data)));
      Result(Server(SendServerKeyExchange, s.f, s.o.(serverParams := NeedsParams(s.f), keyShare := s.f.hello.kx == ECDHE), tape), Ok, false)
  }

  function DoSendServerKeyExchange(s: Server, e: Env): Result {
    if !s.o.serverParams then Pass(s, s.f, s.o, SendServerHelloDone)
    else if e.fail then Stop(s, Error)
    else if s.f.hello.cert && e.retry then Stop(s, Suspended)
    else
      Result(Server(SendServerHelloDone, s.f.(sentKeyExchange := true), s.o.(serverParams := false),
                    s.tape.Add(true, Msg(ServerKeyExchange, Opaque(e.data)))), Ok, false)
  }

  function DoSendServerHelloDone(s: Server, e: Env): Result {
    if e.fail then Stop(s, Error)
    else
      Result(Server(ReadClientCertificate, s.f, s.o,
                    s.tape.AddIf(s.f.certRequest, true, Msg(CertificateRequest, Opaque(e.data)))
                          .Add(true, Msg(ServerHelloDone, Opaque(e.data)))), Flush, false)
  }

  /** In SSL 3.0 a client without a certificate leaves the message out. */
  function DoReadClientCertificate(s: Server, m: Option<Msg>, e: Env): Result {
    if !s.f.certRequest then Pass(s, s.f, s.o, VerifyClientCertificate)
    else if m.None? then Stop(s, ReadMessage)
    else if !s.f.newSession then Stop(s, Crash)
    else if m.value.tag != Certificate then
      if s.f.hello.ssl3 && m.value.tag == ClientKeyExchange && !e.requireCert then Pass(s, s.f, s.o, VerifyClientCertificate)
      else Stop(s, Error)
    else if !m.value.body.Chain? || e.fail || (m.value.body.empty && (s.f.hello.ssl3 || e.requireCert)) then Stop(Hashing(s, m.value), Error)
    else
      var there := !m.value.body.empty;
      Consume(Hashing(s, m.value), s.f.(gotCert := true), s.o.(peerPubkey := there, buffer := s.o.buffer && there), m.value, VerifyClientCertificate)
  }

  function DoVerifyClientCertificate(s: Server, e: Env): Result {
    if !s.f.newSession then Stop(s, Crash)
    else if s.o.peerPubkey && e.fail then Stop(s, Error)
    else if s.o.peerPubkey && e.retry then Stop(s, Suspended)
    else Next(s, s.f, s.o.(verified := s.o.peerPubkey), ReadClientKeyExchange)
  }

  /** The message is hashed only once a pending private key operation is over. */
  function DoReadClientKeyExchange(s: Server, m: Option<Msg>, e: Env): Result {
    if m.None? then Stop(s, ReadMessage)
    else if m.value.tag != ClientKeyExchange || e.fail then Stop(s, Error)
    else if !s.f.newSession || (s.f.hello.kx == ECDHE && !s.o.keyShare) then Stop(s, Crash)
    else if s.f.hello.kx == RSA && e.retry then Stop(s, Suspended)
    else Consume(Hashing(s, m.value), s.f, s.o.(keyShare := false), m.value, ReadClientCertificateVerify)
  }

  /** A CertificateVerify is required if and only if there is a client certificate. */
  function DoReadClientCertificateVerify(s: Server, m: Option<Msg>, e: Env): Result {
    if !s.o.peerPubkey then Pass(s, s.f, s.o.(buffer := false), ReadChangeCipherSpecMessage)
    else if m.None? then Stop(s, ReadMessage)
    else if m.value.tag != CertificateVerify || e.fail then Stop(s, Error)
    else if !s.o.buffer then Stop(s, Crash)
    else Consume(Hashing(s, m.value), s.f.(gotVerify := true), s.o.(buffer := false), m.value, ReadChangeCipherSpecMessage)
  }

  function DoReadChangeCipherSpecMessage(s: Server): Result {
    Next(s, s.f, s.o, ProcessChangeCipherSpec).(wait := ReadChangeCipherSpec)
  }

  /** The ChangeCipherSpec this state waited for has been read. */
  function DoProcessChangeCipherSpec(s: Server, e: Env): Result {
    if e.fail then Stop(s, Error)
    else Result(Server(ReadNextProto, s.f, s.o, s.tape.TakeChangeCipherSpec(false)), Ok, false)
  }

  function DoReadNextProto(s: Server, m: Option<Msg>, e: Env): Result {
    if !s.f.hello.npn then Pass(s, s.f, s.o, ReadChannelId)
    else if m.None? then Stop(s, ReadMessage)
    else if m.value.tag != NextProto then Stop(s, Error)
    else
      var s' := Hashing(s, m.value);
      if e.fail then Stop(s', Error) else Consume(s', s.f, s.o, m.value, ReadChannelId)
  }

  function DoReadChannelId(s: Server, m: Option<Msg>, e: Env): Result {
    if !s.f.hello.channelId then Pass(s, s.f, s.o, ReadClientFinished)
    else if m.None? then Stop(s, ReadMessage)
    else if m.value.tag != ChannelId then Stop(s, Error)
    else
      var s' := Hashing(s, m.value);
      if e.fail then Stop(s', Error) else Consume(s', s.f, s.o, m.value, ReadClientFinished)
  }

  /** The MAC is computed before the message itself is hashed. */
  function DoReadClientFinished(s: Server, m: Option<Msg>, e: Env): Result {
    if m.None? then Stop(s, ReadMessage)
    else if m.value.tag != Finished then Stop(s, Error)
    else if !s.f.session && !s.f.newSession then Stop(s, Crash)
    else
      var s' := Hashing(s, m.value);
      if m.value.body != Mac(false, s.tape.transcript) || e.fail then Stop(s', Error)
      else Consume(s', s.f, s.o, m.value, if s.f.session then FinishServerHandshake else SendServerFinished)
  }

  /** A ticket if one was announced, ChangeCipherSpec, and Finished over everything before it. */
  function AddLast(tape: Tape, ticket: bool, e: Env): Tape {
    tape.AddIf(ticket, true, Msg(NewSessionTicket, Ticket(e.emptyTicket, e.data))).AddChangeCipherSpec(true).AddFinished(true)
  }

  function DoSendServerFinished(s: Server, e: Env): Result {
    if e.fail then Stop(s, Error)
    else if !s.f.session && !s.f.newSession then Stop(s, Crash)
    else
      Result(Server(if s.f.session then ReadChangeCipherSpecMessage else FinishServerHandshake, s.f, s.o,
                    AddLast(s.tape, s.f.hello.ticket, e)), Flush, false)
  }

  function DoFinishServerHandshake(s: Server): Result {
    if !s.f.session && !s.f.newSession then Stop(s, Crash)
    else Next(s, s.f.(newSession := false), s.o, Done)
  }

  /** One round of ssl_server_handshake's loop. */
  function Step(s: Server, m: Option<Msg>, e: Env): Result {
    match s.state
    case StartAccept => DoStartAccept(s)
    case ReadClientHello => DoReadClientHello(s, m, e)
    case SelectCertificate => DoSelectCertificate(s, m, e)
    case SelectParameters => DoSelectParameters(s, m, e)
    case SendServerHello => DoSendServerHello(s, e)
    case SendServerCertificate => DoSendServerCertificate(s, e)
    case SendServerKeyExchange => DoSendServerKeyExchange(s, e)
    case SendServerHelloDone => DoSendServerHelloDone(s, e)
    case ReadClientCertificate => DoReadClientCertificate(s, m, e)
    case VerifyClientCertificate => DoVerifyClientCertificate(s, e)
    case ReadClientKeyExchange => DoReadClientKeyExchange(s, m, e)
    case ReadClientCertificateVerify => DoReadClientCertificateVerify(s, m, e)
    case ReadChangeCipherSpecMessage => DoReadChangeCipherSpecMessage(s)
    case ProcessChangeCipherSpec => DoProcessChangeCipherSpec(s, e)
    case ReadNextProto => DoReadNextProto(s, m, e)
    case ReadChannelId => DoReadChannelId(s, m, e)
    case ReadClientFinished => DoReadClientFinished(s, m, e)
    case SendServerFinished => DoSendServerFinished(s, e)
    case FinishServerHandshake => DoFinishServerHandshake(s)
    case Done => Stop(s, Ok)
  }

  /** What the server sent and saw of the optional messages. */
  function ShapeOf(f: Fields): Shape {
    Shape(f.session, f.hello.cert, f.hello.cert && f.hello.status, f.sentKeyExchange, f.certRequest, f.gotCert, f.gotVerify,
          f.hello.npn, f.hello.channelId, f.hello.ticket)
  }

  // What holds in each state

  predicate Fresh(f: Fields) {
    !f.newSession && !f.certRequest && Untouched(f)
  }

  predicate Untouched(f: Fields) {
    !f.sentKeyExchange && !f.gotCert && !f.gotVerify
  }

  predicate Settled(f: Fields) {
    f.hello.Supported() && f.session == f.hello.resumed && (f.certRequest ==> f.hello.cert && !f.session)
  }

  /** A full handshake: a new session is being made, no old one is used. */
  predicate Full(f: Fields) {
    Settled(f) && !f.session && f.newSession
  }

  /** The key exchange was sent exactly where the suite or a hint calls for it. */
  predicate Keyed(f: Fields) {
    f.sentKeyExchange == NeedsParams(f)
  }

  predicate Middle(f: Fields) {
    Full(f) && Keyed(f)
  }

  /** Everything up to the key exchange is in order for the handshake's mode. */
  predicate Passed(f: Fields) {
    Settled(f) && (if f.session then Untouched(f) else Keyed(f) && (f.gotVerify ==> f.gotCert) && (f.gotCert ==> f.certRequest))
  }

  /** Exactly one session object is there. */
  predicate Late(f: Fields) {
    f.newSession == !f.session && Passed(f)
  }

  predicate Kept(f: Fields, o: Objs) {
    f.certRequest ==> o.buffer
  }

  predicate Sharing(f: Fields, o: Objs) {
    f.hello.kx == ECDHE ==> o.keyShare
  }

  /** The client's key is there exactly with its certificate, and then the transcript's buffer is too. */
  predicate Presented(f: Fields, o: Objs) {
    (o.peerPubkey ==> o.buffer && f.gotCert) && (f.gotCert ==> f.certRequest)
  }

  /** Which objects exist in which state, which messages have been seen by then, and the script's slot. */
  predicate Objects(st: State, f: Fields, o: Objs, slot: nat) {
    match st
    case StartAccept => slot == 0 && Fresh(f) && o.buffer && !o.peerPubkey
    case ReadClientHello => slot == 0 && Fresh(f) && o.buffer && !o.peerPubkey
    case SelectCertificate => slot == 0 && Fresh(f) && o.buffer && !o.peerPubkey
    case SelectParameters => slot == 0 && Fresh(f) && o.buffer && !o.peerPubkey
    case SendServerHello => slot == 1 && Settled(f) && f.newSession == !f.session && Untouched(f) && Kept(f, o) && !o.peerPubkey
    case SendServerCertificate => slot == 2 && Full(f) && Untouched(f) && Kept(f, o) && !o.peerPubkey
    case SendServerKeyExchange =>
      slot == 4 && Full(f) && Untouched(f) && Kept(f, o) && !o.peerPubkey && Sharing(f, o) && o.serverParams == NeedsParams(f)
    case SendServerHelloDone => slot == 5 && Middle(f) && !f.gotCert && !f.gotVerify && Kept(f, o) && !o.peerPubkey && Sharing(f, o)
    case ReadClientCertificate => slot == 7 && Middle(f) && !f.gotCert && !f.gotVerify && Kept(f, o) && !o.peerPubkey && Sharing(f, o)
    case VerifyClientCertificate => slot == 8 && Middle(f) && !f.gotVerify && Presented(f, o) && Sharing(f, o)
    case ReadClientKeyExchange => slot == 8 && Middle(f) && !f.gotVerify && Presented(f, o) && Sharing(f, o)
    case ReadClientCertificateVerify => slot == 9 && Middle(f) && !f.gotVerify && Presented(f, o)
    case ReadChangeCipherSpecMessage => slot == (if f.session then 5 else 10) && Late(f)
    case ProcessChangeCipherSpec => slot == (if f.session then 5 else 10) && Late(f)
    case ReadNextProto => slot == (if f.session then 6 else 11) && Late(f)
    case ReadChannelId => slot == (if f.session then 7 else 12) && Late(f)
    case ReadClientFinished => slot == (if f.session then 8 else 13) && Late(f)
    case SendServerFinished => slot == (if f.session then 2 else 14) && Late(f)
    case FinishServerHandshake => slot == End(f.session) && Late(f)
    case Done => slot == End(f.session) && !f.newSession && Passed(f)
  }

  predicate Ready(s: Server) {
    Objects(s.state, s.f, s.o, s.tape.slot)
  }

  /** The invariant of every run, against any peer. */
  ghost predicate Inv(s: Server) {
    Ready(s) && s.tape.Follows(ShapeOf(s.f))
  }

  // What every step keeps, whatever the peer sends

  /** No step uses a missing object; a step that does not fail leaves the objects its next state needs. */
  ghost predicate Keeps(r: Result) {
    r.wait != Crash && (r.wait != Error ==> Ready(r.s))
  }

  /** A step that does not fail follows the script. */
  ghost predicate Follows(r: Result) {
    r.wait == Error || r.wait == Crash || r.s.tape.Follows(ShapeOf(r.s.f))
  }

  lemma KeepStartAccept(s: Server)
    requires Ready(s) && s.state == StartAccept
    ensures Keeps(DoStartAccept(s))
  {
  }

  lemma KeepReadClientHello(s: Server, m: Option<Msg>, e: Env)
    requires Ready(s) && s.state == ReadClientHello
    ensures Keeps(DoReadClientHello(s, m, e))
  {
  }

  lemma KeepSelectCertificate(s: Server, m: Option<Msg>, e: Env)
    requires Ready(s) && s.state == SelectCertificate
    ensures Keeps(DoSelectCertificate(s, m, e))
  {
  }

  lemma KeepSelectParameters(s: Server, m: Option<Msg>, e: Env)
    requires Ready(s) && s.state == SelectParameters
    ensures Keeps(DoSelectParameters(s, m, e))
  {
  }

  lemma KeepSendServerHello(s: Server, e: Env)
    requires Ready(s) && s.state == SendServerHello
    ensures Keeps(DoSendServerHello(s, e))
  {
  }

  lemma KeepSendServerCertificate(s: Server, e: Env)
    requires Ready(s) && s.state == SendServerCertificate
    ensures Keeps(DoSendServerCertificate(s, e))
  {
  }

  lemma KeepSendServerKeyExchange(s: Server, e: Env)
    requires Ready(s) && s.state == SendServerKeyExchange
    ensures Keeps(DoSendServerKeyExchange(s, e))
  {
  }

  lemma KeepSendServerHelloDone(s: Server, e: Env)
    requires Ready(s) && s.state == SendServerHelloDone
    ensures Keeps(DoSendServerHelloDone(s, e))
  {
  }

  lemma KeepReadClientCertificate(s: Server, m: Option<Msg>, e: Env)
    requires Ready(s) && s.state == ReadClientCertificate
    ensures Keeps(DoReadClientCertificate(s, m, e))
  {
  }

  lemma KeepVerifyClientCertificate(s: Server, e: Env)
    requires Ready(s) && s.state == VerifyClientCertificate
    ensures Keeps(DoVerifyClientCertificate(s, e))
  {
  }

  lemma KeepReadClientKeyExchange(s: Server, m: Option<Msg>, e: Env)
    requires Ready(s) && s.state == ReadClientKeyExchange
    ensures Keeps(DoReadClientKeyExchange(s, m, e))
  {
  }

  lemma KeepReadClientCertificateVerify(s: Server, m: Option<Msg>, e: Env)
    requires Ready(s) && s.state == ReadClientCertificateVerify
    ensures Keeps(DoReadClientCertificateVerify(s, m, e))
  {
  }

  lemma KeepReadChangeCipherSpecMessage(s: Server)
    requires Ready(s) && s.state == ReadChangeCipherSpecMessage
    ensures Keeps(DoReadChangeCipherSpecMessage(s))
  {
  }

  lemma KeepProcessChangeCipherSpec(s: Server, e: Env)
    requires Ready(s) && s.state == ProcessChangeCipherSpec
    ensures Keeps(DoProcessChangeCipherSpec(s, e))
  {
  }

  lemma KeepReadNextProto(s: Server, m: Option<Msg>, e: Env)
    requires Ready(s) && s.state == ReadNextProto
    ensures Keeps(DoReadNextProto(s, m, e))
  {
  }

  lemma KeepReadChannelId(s: Server, m: Option<Msg>, e: Env)
    requires Ready(s) && s.state == ReadChannelId
    ensures Keeps(DoReadChannelId(s, m, e))
  {
  }

  lemma KeepReadClientFinished(s: Server, m: Option<Msg>, e: Env)
    requires Ready(s) && s.state == ReadClientFinished
    ensures Keeps(DoReadClientFinished(s, m, e))
  {
  }

  lemma KeepSendServerFinished(s: Server, e: Env)
    requires Ready(s) && s.state == SendServerFinished
    ensures Keeps(DoSendServerFinished(s, e))
  {
  }

  lemma KeepFinishServerHandshake(s: Server)
    requires Ready(s) && s.state == FinishServerHandshake
    ensures Keeps(DoFinishServerHandshake(s))
  {
  }

  lemma FollowSelectParameters(s: Server, m: Option<Msg>, e: Env)
    requires s.tape.Follows(ShapeOf(s.f)) && s.tape.slot == 0
    ensures Follows(DoSelectParameters(s, m, e))
  {
    if DoSelectParameters(s, m, e).took {
      Fills(ShapeOf(s.f), ShapeOf(Selected(s.f, m.value.body.session, e.params, e.certRequest)), s.tape, false, m.value);
    }
  }

  lemma FollowSendServerHello(s: Server, e: Env)
    requires s.tape.Follows(ShapeOf(s.f)) && s.tape.slot == 1
    ensures Follows(DoSendServerHello(s, e))
  {
    var f := Announced(s.f, e.hashes);
    Fills(ShapeOf(s.f), ShapeOf(f), s.tape, true, Msg(ServerHello, Chosen(f.hello, e.data)));
  }

  lemma FollowSendServerCertificate(s: Server, e: Env)
    requires s.tape.Follows(ShapeOf(s.f)) && s.tape.slot == 2 && !s.f.session
    ensures Follows(DoSendServerCertificate(s, e))
  {
    var sh, m := ShapeOf(s.f), Msg(Certificate, Chain(false, e.data));
    MaybeFills(sh, s.tape, s.f.hello.cert, true, m);
    MaybeFills(sh, s.tape.AddIf(s.f.hello.cert, true, m), s.f.hello.cert && s.f.hello.status, true, Msg(CertificateStatus, Opaque(e.data)));
  }

  lemma KeyExchangeSlot(f: Fields, t: Tape, m: Msg)
    requires t.Follows(ShapeOf(f)) && t.slot == 4 && !f.session && !f.sentKeyExchange && m.tag == ServerKeyExchange
    ensures t.Skip().Follows(ShapeOf(f)) && t.Add(true, m).Follows(ShapeOf(f.(sentKeyExchange := true)))
  {
    Skips(ShapeOf(f), ShapeOf(f), t);
    Fills(ShapeOf(f), ShapeOf(f.(sentKeyExchange := true)), t, true, m);
  }

  lemma FollowSendServerKeyExchange(s: Server, e: Env)
    requires s.tape.Follows(ShapeOf(s.f)) && s.tape.slot == 4 && !s.f.session && !s.f.sentKeyExchange
    ensures Follows(DoSendServerKeyExchange(s, e))
  {
    KeyExchangeSlot(s.f, s.tape, Msg(ServerKeyExchange, Opaque(e.data)));
  }

  lemma FollowSendServerHelloDone(s: Server, e: Env)
    requires s.tape.Follows(ShapeOf(s.f)) && s.tape.slot == 5 && !s.f.session
    ensures Follows(DoSendServerHelloDone(s, e))
  {
    var sh, m := ShapeOf(s.f), Msg(CertificateRequest, Opaque(e.data));
    MaybeFills(sh, s.tape, s.f.certRequest, true, m);
    Fills(sh, sh, s.tape.AddIf(s.f.certRequest, true, m), true, Msg(ServerHelloDone, Opaque(e.data)));
  }

  lemma CertificateSlot(f: Fields, t: Tape, m: Msg)
    requires t.Follows(ShapeOf(f)) && t.slot == 7 && !f.session && !f.gotCert && m.tag == Certificate
    ensures t.Skip().Follows(ShapeOf(f)) && t.Take(false, m).Follows(ShapeOf(f.(gotCert := true)))
  {
    Skips(ShapeOf(f), ShapeOf(f), t);
    Fills(ShapeOf(f), ShapeOf(f.(gotCert := true)), t, false, m);
  }

  lemma FollowReadClientCertificate(s: Server, m: Option<Msg>, e: Env)
    requires s.tape.Follows(ShapeOf(s.f)) && s.tape.slot == 7 && !s.f.session && !s.f.gotCert
    ensures Follows(DoReadClientCertificate(s, m, e))
  {
    var m' := if DoReadClientCertificate(s, m, e).took then m.value else Msg(Certificate, Opaque(0));
    CertificateSlot(s.f, s.tape, m');
  }

  lemma FollowReadClientKeyExchange(s: Server, m: Option<Msg>, e: Env)
    requires s.tape.Follows(ShapeOf(s.f)) && s.tape.slot == 8 && !s.f.session
    ensures Follows(DoReadClientKeyExchange(s, m, e))
  {
    assert SlotAt(ShapeOf(s.f), 8) == Some(Label(false, Some(ClientKeyExchange)));
    if DoReadClientKeyExchange(s, m, e).took {
      Fills(ShapeOf(s.f), ShapeOf(s.f), s.tape, false, m.value);
    }
  }

  lemma VerifySlot(f: Fields, t: Tape, m: Msg)
    requires t.Follows(ShapeOf(f)) && t.slot == 9 && !f.session && !f.gotVerify && m.tag == CertificateVerify
    ensures t.Skip().Follows(ShapeOf(f)) && t.Take(false, m).Follows(ShapeOf(f.(gotVerify := true)))
  {
    Skips(ShapeOf(f), ShapeOf(f), t);
    Fills(ShapeOf(f), ShapeOf(f.(gotVerify := true)), t, false, m);
  }

  lemma FollowReadClientCertificateVerify(s: Server, m: Option<Msg>, e: Env)
    requires s.tape.Follows(ShapeOf(s.f)) && s.tape.slot == 9 && !s.f.session && !s.f.gotVerify
    ensures Follows(DoReadClientCertificateVerify(s, m, e))
  {
    var m' := if DoReadClientCertificateVerify(s, m, e).took then m.value else Msg(CertificateVerify, Opaque(0));
    VerifySlot(s.f, s.tape, m');
  }

  lemma FollowProcessChangeCipherSpec(s: Server, e: Env)
    requires s.tape.Follows(ShapeOf(s.f)) && s.tape.slot == (if s.f.session then 5 else 10)
    ensures Follows(DoProcessChangeCipherSpec(s, e))
  {
    FillsChangeCipherSpec(ShapeOf(s.f), s.tape, false);
  }

  lemma FollowReadNextProto(s: Server, m: Option<Msg>, e: Env)
    requires s.tape.Follows(ShapeOf(s.f)) && s.tape.slot == (if s.f.session then 6 else 11)
    ensures Follows(DoReadNextProto(s, m, e))
  {
    var sh := ShapeOf(s.f);
    assert SlotAt(sh, s.tape.slot) == If(s.f.hello.npn, false, Some(NextProto));
    if DoReadNextProto(s, m, e).took {
      Fills(sh, sh, s.tape, false, m.value);
    } else if !s.f.hello.npn {
      Skips(sh, sh, s.tape);
    }
  }

  lemma FollowReadChannelId(s: Server, m: Option<Msg>, e: Env)
    requires s.tape.Follows(ShapeOf(s.f)) && s.tape.slot == (if s.f.session then 7 else 12)
    ensures Follows(DoReadChannelId(s, m, e))
  {
    var sh := ShapeOf(s.f);
    assert SlotAt(sh, s.tape.slot) == If(s.f.hello.channelId, false, Some(ChannelId));
    if DoReadChannelId(s, m, e).took {
      Fills(sh, sh, s.tape, false, m.value);
    } else if !s.f.hello.channelId {
      Skips(sh, sh, s.tape);
    }
  }

  lemma FollowReadClientFinished(s: Server, m: Option<Msg>, e: Env)
    requires s.tape.Follows(ShapeOf(s.f)) && s.tape.slot == (if s.f.session then 8 else 13)
    ensures Follows(DoReadClientFinished(s, m, e))
  {
    var sh := ShapeOf(s.f);
    assert SlotAt(sh, s.tape.slot) == Some(Label(false, Some(Finished)));
    if DoReadClientFinished(s, m, e).took {
      Fills(sh, sh, s.tape, false, m.value);
    }
  }

  /** The three slots of the server's last messages. */
  predicate LastSlots(sh: Shape, n: nat) {
    && SlotAt(sh, n) == If(sh.ticket, true, Some(NewSessionTicket))
    && SlotAt(sh, n + 1) == Some(Label(true, None))
    && SlotAt(sh, n + 2) == Some(Label(true, Some(Finished)))
  }

  lemma LastSlotsHere(sh: Shape)
    ensures LastSlots(sh, if sh.resumed then 2 else 14)
  {
  }

  lemma LastAdded(sh: Shape, t: Tape, e: Env)
    requires t.Follows(sh) && LastSlots(sh, t.slot)
    ensures AddLast(t, sh.ticket, e).Follows(sh)
  {
    var nst := Msg(NewSessionTicket, Ticket(e.emptyTicket, e.data));
    MaybeFills(sh, t, sh.ticket, true, nst);
    var t1 := t.AddIf(sh.ticket, true, nst);
    FillsChangeCipherSpec(sh, t1, true);
    var t2 := t1.AddChangeCipherSpec(true);
    Fills(sh, sh, t2, true, Msg(Finished, Mac(true, t2.transcript)));
  }

  lemma FollowSendServerFinished(s: Server, e: Env)
    requires s.tape.Follows(ShapeOf(s.f)) && s.tape.slot == (if s.f.session then 2 else 14)
    ensures Follows(DoSendServerFinished(s, e))
  {
    LastSlotsHere(ShapeOf(s.f));
    LastAdded(ShapeOf(s.f), s.tape, e);
  }

  lemma SessionShape(f: Fields)
    ensures ShapeOf(f.(newSession := false)) == ShapeOf(f)
  {
  }

  lemma FollowFinishServerHandshake(s: Server)
    requires s.tape.Follows(ShapeOf(s.f))
    ensures Follows(DoFinishServerHandshake(s))
  {
    SessionShape(s.f);
  }

  /** The states up to the server's hello. */
  predicate Hellos(st: State) {
    st.StartAccept? || st.ReadClientHello? || st.SelectCertificate? || st.SelectParameters? || st.SendServerHello?
  }

  /** The states of the key exchange. */
  predicate Keys(st: State) {
    st.SendServerCertificate? || st.SendServerKeyExchange? || st.SendServerHelloDone? || st.ReadClientCertificate?
    || st.VerifyClientCertificate? || st.ReadClientKeyExchange? || st.ReadClientCertificateVerify?
  }

  lemma HelloSteps(s: Server, m: Option<Msg>, e: Env)
    requires Inv(s) && Hellos(s.state)
    ensures Keeps(Step(s, m, e)) && Follows(Step(s, m, e))
  {
    match s.state {
      case StartAccept => KeepStartAccept(s);
      case ReadClientHello => KeepReadClientHello(s, m, e);
      case SelectCertificate => KeepSelectCertificate(s, m, e);
      case SelectParameters => KeepSelectParameters(s, m, e); FollowSelectParameters(s, m, e);
      case SendServerHello => KeepSendServerHello(s, e); FollowSendServerHello(s, e);
    }
  }

  lemma KeySteps(s: Server, m: Option<Msg>, e: Env)
    requires Inv(s) && Keys(s.state)
    ensures Keeps(Step(s, m, e)) && Follows(Step(s, m, e))
  {
    match s.state {
      case SendServerCertificate => KeepSendServerCertificate(s, e); FollowSendServerCertificate(s, e);
      case SendServerKeyExchange => KeepSendServerKeyExchange(s, e); FollowSendServerKeyExchange(s, e);
      case SendServerHelloDone => KeepSendServerHelloDone(s, e); FollowSendServerHelloDone(s, e);
      case ReadClientCertificate => KeepReadClientCertificate(s, m, e); FollowReadClientCertificate(s, m, e);
      case VerifyClientCertificate => KeepVerifyClientCertificate(s, e);
      case ReadClientKeyExchange => KeepReadClientKeyExchange(s, m, e); FollowReadClientKeyExchange(s, m, e);
      case ReadClientCertificateVerify => KeepReadClientCertificateVerify(s, m, e); FollowReadClientCertificateVerify(s, m, e);
    }
  }

  lemma LateSteps(s: Server, m: Option<Msg>, e: Env)
    requires Inv(s) && !Hellos(s.state) && !Keys(s.state) && s.state != Done
    ensures Keeps(Step(s, m, e)) && Follows(Step(s, m, e))
  {
    match s.state {
      case ReadChangeCipherSpecMessage => KeepReadChangeCipherSpecMessage(s);
      case ProcessChangeCipherSpec => KeepProcessChangeCipherSpec(s, e); FollowProcessChangeCipherSpec(s, e);
      case ReadNextProto => KeepReadNextProto(s, m, e); FollowReadNextProto(s, m, e);
      case ReadChannelId => KeepReadChannelId(s, m, e); FollowReadChannelId(s, m, e);
      case ReadClientFinished => KeepReadClientFinished(s, m, e); FollowReadClientFinished(s, m, e);
      case SendServerFinished => KeepSendServerFinished(s, e); FollowSendServerFinished(s, e);
      case FinishServerHandshake => KeepFinishServerHandshake(s); FollowFinishServerHandshake(s);
    }
  }

  /** No step ever uses a missing object, and every step that does not fail keeps the invariant. */
  lemma StepKeepsInv(s: Server, m: Option<Msg>, e: Env)
    requires Inv(s) && s.state != Done
    ensures Keeps(Step(s, m, e)) && Follows(Step(s, m, e))
  {
    if Hellos(s.state) {
      HelloSteps(s, m, e);
    } else if Keys(s.state) {
      KeySteps(s, m, e);
    } else {
      LateSteps(s, m, e);
    }
  }

  // Whole runs

  /** A connection before its handshake. */
  predicate Initial(s: Server) {
    s.state == StartAccept && Fresh(s.f) && s.o.buffer && !s.o.peerPubkey && s.tape == Tape([], [], [], 0)
  }

  /** What a round finds: the next item from the peer, if there is one, and the outcomes of its operations. */
  datatype Input = Input(item: Option<Item>, e: Env)

  function Message(x: Option<Item>): Option<Msg> {
    if x.Some? && x.value.Hs? then Some(x.value.msg) else None
  }

  /**
   * One round of ssl_run_handshake: what the state waits for is read, and the
   * state is run. An item of another kind than the one waited for is an error.
   */
  function Turn(s: Server, x: Input): Result {
    if s.state == ProcessChangeCipherSpec then
      if x.item.None? then Stop(s, ReadChangeCipherSpec)
      else if x.item.value.Hs? then Stop(s, Error)
      else Step(s, None, x.e).(took := true)
    else
      var r := Step(s, Message(x.item), x.e);
      if r.wait == ReadMessage && x.item == Some(Ccs) then Stop(s, Error) else r
  }

  /** A run against a peer that sends anything, suspended and resumed anywhere. */
  ghost function Run(s: Server, w: Wait, ins: seq<Input>): Result
    decreases |ins|
  {
    if ins == [] || w == Error || w == Crash || s.state == Done then Stop(s, w)
    else
      var r := Turn(s, ins[0]);
      Run(r.s, r.wait, ins[1..])
  }

  /** A round is a step, or waits, or refuses what came. */
  lemma TurnIsStep(s: Server, x: Input, m: Option<Msg>)
    requires m == if s.state == ProcessChangeCipherSpec then None else Message(x.item)
    ensures var r, q := Turn(s, x), Step(s, m, x.e);
            (r.s == q.s && r.wait == q.wait) || (r.s == s && (r.wait == Error || r.wait == ReadChangeCipherSpec))
  {
  }

  lemma TurnKeepsInv(s: Server, x: Input)
    requires Inv(s) && s.state != Done
    ensures Keeps(Turn(s, x)) && Follows(Turn(s, x))
  {
    StepKeepsInv(s, if s.state == ProcessChangeCipherSpec then None else Message(x.item), x.e);
  }

  /** In every run no missing object is used, and the invariant holds until a failure. */
  lemma {:induction false} RunKeepsInv(s: Server, w: Wait, ins: seq<Input>)
    requires w != Crash && (w != Error ==> Inv(s))
    ensures var r := Run(s, w, ins); r.wait != Crash && (r.wait != Error ==> Inv(r.s))
    decreases |ins|
  {
    if ins != [] && w != Error && s.state != Done {
      TurnKeepsInv(s, ins[0]);
      var r := Turn(s, ins[0]);
      RunKeepsInv(r.s, r.wait, ins[1..]);
    }
  }

  lemma InitialHolds(s: Server)
    requires Initial(s)
    ensures Inv(s)
  {
  }

  /**
   * In every state reached, however often states were suspended and entered
   * again, the log is the script up to there, and the transcript holds each of
   * its messages once and in order.
   */
  lemma HashedOnce(s: Server, ins: seq<Input>)
    requires Initial(s)
    ensures var r := Run(s, Ok, ins);
            && r.wait != Crash
            && (r.wait != Error ==>
                  && r.s.tape.transcript == Hashed(r.s.tape.log)
                  && LogLabels(r.s.tape.log) == Past(ShapeOf(r.s.f), r.s.tape.slot))
  {
    InitialHolds(s);
    RunKeepsInv(s, Ok, ins);
    var r := Run(s, Ok, ins);
    if r.wait != Error {
      var t := r.s.tape;
      RecordLabels(ShapeOf(r.s.f), t.slot, t.log, t.transcript);
      RecordHashed(ShapeOf(r.s.f), t.slot, t.log, t.transcript);
    }
  }

  /** What a completed handshake's optional messages tell. */
  predicate Lawful(f: Fields) {
    && (f.certRequest ==> f.hello.cert && !f.session)
    && (f.gotCert ==> f.certRequest) && (f.gotVerify ==> f.gotCert)
    && (!f.session ==> f.sentKeyExchange == (f.hello.kx == ECDHE || (!f.hello.cert && f.hint)))
  }

  lemma DoneIsLawful(s: Server)
    requires Ready(s) && s.state == Done
    ensures s.tape.slot == End(s.f.session) && Lawful(s.f)
  {
  }

  /** Against any peer: a server that completes a handshake has exchanged exactly the messages of its script. */
  lemma CompletedRun(s: Server, ins: seq<Input>)
    requires Initial(s)
    ensures var r := Run(s, Ok, ins);
            var sh := ShapeOf(r.s.f);
            r.wait != Error && r.s.state == Done ==>
              && LogLabels(r.s.tape.log) == (
                if sh.resumed then [Label(false, Some(ClientHello)), Label(true, Some(ServerHello))] + ServerLast(sh) + ClientLast(sh)
                else HelloFlight(sh) + KeyFlight(sh) + ClientLast(sh) + ServerLast(sh))
              && Lawful(r.s.f)
  {
    InitialHolds(s);
    RunKeepsInv(s, Ok, ins);
    HashedOnce(s, ins);
    var r := Run(s, Ok, ins);
    if r.wait != Error && r.s.state == Done {
      DoneIsLawful(r.s);
      Script(ShapeOf(r.s.f));
    }
  }

  // Termination

  /** Orders the states that share a slot. */
  function Minor(st: State): nat {
    if st.StartAccept? then 3
    else if st.ReadClientHello? then 2
    else if st.SelectCertificate? || st.VerifyClientCertificate? || st.ReadChangeCipherSpecMessage? || st.FinishServerHandshake? then 1
    else 0
  }

  /** A step that goes on passes a slot, or sinks within one; one that cannot go on changes nothing. */
  ghost predicate Sinks(s: Server, m: Option<Msg>, e: Env, r: Result) {
    if r.wait == Ok || r.wait == Flush || r.wait == ReadChangeCipherSpec || r.wait == EarlyReturn then
      r.s.tape.slot > s.tape.slot || (r.s.tape.slot == s.tape.slot && Minor(r.s.state) < Minor(s.state))
    else if r.wait == ReadMessage then r.s == s && m.None?
    else r.wait == Suspended ==> r.s == s && e.retry
  }

  /** The states that may be entered with messages not yet flushed; none of them reads. */
  predicate Holding(st: State) {
    st.SendServerCertificate? || st.SendServerKeyExchange? || st.SendServerHelloDone? || st.SendServerFinished?
  }

  ghost predicate Flushed(s: Server) {
    s.tape.pending == [] || Holding(s.state)
  }

  /** Unflushed messages are never left behind by a step that waits for the peer, or by the last step. */
  ghost predicate StaysFlushed(s: Server, r: Result) {
    Flushed(s) ==>
      && (r.wait != Flush && r.wait != Error && r.wait != Crash ==> Flushed(r.s))
      && (r.wait == ReadMessage || r.wait == ReadChangeCipherSpec || r.s.state == Done ==> r.s.tape.pending == [])
      && (r.wait != Error && r.wait != Crash ==> (r.wait == ReadChangeCipherSpec <==> r.s.state == ProcessChangeCipherSpec))
  }

  lemma HelloSinks(s: Server, m: Option<Msg>, e: Env)
    requires Hellos(s.state)
    ensures Sinks(s, m, e, Step(s, m, e))
  {
  }

  lemma KeySinks(s: Server, m: Option<Msg>, e: Env)
    requires Keys(s.state)
    ensures Sinks(s, m, e, Step(s, m, e))
  {
  }

  lemma LateSinks(s: Server, m: Option<Msg>, e: Env)
    requires !Hellos(s.state) && !Keys(s.state) && s.state != Done
    ensures Sinks(s, m, e, Step(s, m, e))
  {
  }

  /** Steps that do not suspend strictly decrease the slots left, or the states left within a slot. */
  lemma StepSinks(s: Server, m: Option<Msg>, e: Env)
    requires s.state != Done
    ensures Sinks(s, m, e, Step(s, m, e))
  {
    if Hellos(s.state) {
      HelloSinks(s, m, e);
    } else if Keys(s.state) {
      KeySinks(s, m, e);
    } else {
      LateSinks(s, m, e);
    }
  }

  lemma HelloFlushed(s: Server, m: Option<Msg>, e: Env)
    requires Hellos(s.state)
    ensures StaysFlushed(s, Step(s, m, e))
  {
  }

  lemma KeyFlushed(s: Server, m: Option<Msg>, e: Env)
    requires Keys(s.state)
    ensures StaysFlushed(s, Step(s, m, e))
  {
  }

  lemma LateFlushed(s: Server, m: Option<Msg>, e: Env)
    requires !Hellos(s.state) && !Keys(s.state) && s.state != Done && s.state != ProcessChangeCipherSpec
    ensures StaysFlushed(s, Step(s, m, e))
  {
  }

  lemma StepFlushed(s: Server, m: Option<Msg>, e: Env)
    requires s.state != Done
    ensures StaysFlushed(s, Step(s, m, e))
  {
    if Hellos(s.state) {
      HelloFlushed(s, m, e);
    } else if Keys(s.state) {
      KeyFlushed(s, m, e);
    } else if s.state != ProcessChangeCipherSpec {
      LateFlushed(s, m, e);
    }
  }

  lemma SlotBound(s: Server)
    requires Ready(s)
    ensures s.tape.slot <= 17
  {
  }

  /** The server's handshake object and what it has received but not consumed. */
  class ServerHandshake {
    var hs: Server
    var inbox: seq<Item>

    constructor (s: Server)
      ensures hs == s && inbox == []
    {
      hs, inbox := s, [];
    }

    /** One round of the loop; what the state took is gone from the inbox. */
    method Round(e: Env) returns (wait: Wait, ghost x: Input)
      modifies this
      ensures x == Input(if old(inbox) == [] then None else Some(old(inbox)[0]), e)
      ensures Stop(hs, wait) == Stop(Turn(old(hs), x).s, Turn(old(hs), x).wait)
      ensures inbox == if old(inbox) != [] && Turn(old(hs), x).took then old(inbox)[1..] else old(inbox)
    {
      var item := if inbox == [] then None else Some(inbox[0]);
      x := Input(item, e);
      var r := Turn(hs, Input(item, e));
      hs, wait := r.s, r.wait;
      if r.took && inbox != [] {
        inbox := inbox[1..];
      }
    }

    /**
     * ssl_server_handshake: runs states until one does not return ok. It is
     * some run of the machine, ends, and never uses a missing object.
     */
    method Handshake(env: nat -> Env) returns (wait: Wait, ghost ins: seq<Input>)
      requires Inv(hs)
      modifies this
      ensures Run(old(hs), Ok, ins) == Stop(hs, wait)
      ensures wait != Crash && (wait != Error ==> Inv(hs))
      ensures wait == Ok ==> hs.state == Done
    {
      var i: nat := 0;
      ins := [];
      wait := Ok;
      SlotBound(hs);
      while hs.state != Done
        invariant wait == Ok && Running(old(hs), hs, ins) && hs.tape.slot <= 17
        decreases 17 - hs.tape.slot, Minor(hs.state)
      {
        ghost var x, before := Input(None, env(i)), hs;
        wait, x := Round(env(i));
        RoundRuns(old(hs), before, ins, x);
        ins := ins + [x];
        if wait != Ok {
          return;
        }
        i := i + 1;
      }
    }
  }

  /** s is where the run that began at start has got to. */
  ghost predicate Running(start: Server, s: Server, ins: seq<Input>) {
    Inv(s) && Run(start, Ok, ins) == Stop(s, Ok)
  }

  /** A round that goes on passes a slot, or sinks within one. */
  lemma TurnSinks(s: Server, x: Input)
    requires s.state != Done
    ensures var r := Turn(s, x);
            r.wait == Ok ==> r.s.tape.slot > s.tape.slot || (r.s.tape.slot == s.tape.slot && Minor(r.s.state) < Minor(s.state))
  {
    StepSinks(s, if s.state == ProcessChangeCipherSpec then None else Message(x.item), x.e);
  }

  lemma RoundRuns(start: Server, s: Server, ins: seq<Input>, x: Input)
    requires Running(start, s, ins) && s.state != Done
    ensures var r := Turn(s, x);
            && Run(start, Ok, ins + [x]) == Stop(r.s, r.wait)
            && r.wait != Crash && (r.wait != Error ==> Inv(r.s) && r.s.tape.slot <= 17)
            && (r.wait == Ok ==> r.s.tape.slot > s.tape.slot || (r.s.tape.slot == s.tape.slot && Minor(r.s.state) < Minor(s.state)))
  {
    TurnKeepsInv(s, x);
    TurnSinks(s, x);
    RunSnoc(start, Ok, ins, x);
    var r := Turn(s, x);
    if r.wait != Error {
      SlotBound(r.s);
    }
  }

  lemma {:induction false} RunSnoc(s: Server, w: Wait, ins: seq<Input>, x: Input)
    requires var r := Run(s, w, ins); r.wait != Error && r.wait != Crash && r.s.state != Done
    ensures var r := Run(s, w, ins);
            var q := Turn(r.s, x);
            Run(s, w, ins + [x]) == Stop(q.s, q.wait)
    decreases |ins|
  {
    if ins == [] {
      assert ins + [x] == [x] && [x][1..] == [];
      var q := Turn(s, x);
      assert Run(q.s, q.wait, []) == Stop(q.s, q.wait);
    } else {
      assert (ins + [x])[1..] == ins[1..] + [x];
      var r := Turn(s, ins[0]);
      RunSnoc(r.s, r.wait, ins[1..], x);
    }
  }
}
