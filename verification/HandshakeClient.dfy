/**
 * The client's handshake state machine up to TLS 1.2: one function per state,
 * the loop over them, and what holds in every run against any peer. Outcomes
 * that the machine does not determine, such as the result of a certificate
 * check or a callback that asks to be called again, come with each step. Using
 * an object that is not there is an outcome of its own, shown to occur in one
 * case only.
 */
module HandshakeClient {
  import opened Bytes
  import opened HandshakeTypes

  datatype State =
    | StartConnect | EnterEarlyData | ReadHelloVerifyRequest | ReadServerHello | ReadServerCertificate
    | ReadCertificateStatus | VerifyServerCertificate | ReadServerKeyExchange | ReadCertificateRequest
    | ReadServerHelloDone | SendClientCertificate | SendClientKeyExchange | SendClientCertificateVerify
    | SendClientFinished | FinishFlight | ReadSessionTicket | ProcessChangeCipherSpec | ReadServerFinished
    | FinishClientHandshake | Done

  /** The fields of the handshake and connection objects that the states look at. */
  datatype Fields = Fields(
    dtls: bool,
    /** whether ssl->session, hs->new_session, hs->key_share, hs->peer_pubkey are set */
    session: bool, newSession: bool, keyShare: bool, peerPubkey: bool,
    /** what the ServerHello settled */
    hello: Params,
    certRequest: bool,
    /** the server's certificate passed its check */
    verified: bool,
    /** which optional messages were received or sent */
    gotVerifyRequest: bool, gotStatus: bool, gotKeyExchange: bool, sentCert: bool, sentVerify: bool)

  /** What proving a certificate takes: the transcript's buffer, and hs->local_pubkey. */
  datatype Own = Own(buffer: bool, localPubkey: bool)

  /** ticketExpected is hs->ticket_expected */
  datatype Client = Client(state: State, f: Fields, ticketExpected: bool, own: Own, tape: Tape)

  /** The state after a step, what the loop is told, and whether the message was consumed. */
  datatype Result = Result(c: Client, wait: Wait, took: bool)

  function Stop(c: Client, w: Wait): Result {
    Result(c, w, false)
  }

  /** On to the next state, with these fields. */
  function Next(c: Client, f: Fields, s: State): Result {
    Result(Client(s, f, c.ticketExpected, c.own, c.tape), Ok, false)
  }

  /** On to the next state, leaving out an optional message. */
  function Pass(c: Client, f: Fields, s: State): Result {
    Result(Client(s, f, c.ticketExpected, c.own, c.tape.Skip()), Ok, false)
  }

  /** ssl_hash_message */
  function Hashing(c: Client, m: Msg): Client {
    c.(tape := c.tape.Hash(m))
  }

  /** The message, hashed before, is done with. */
  function Consume(c: Client, f: Fields, m: Msg, s: State): Result {
    Result(Client(s, f, c.ticketExpected, c.own, c.tape.NextMessage(true, m)), Ok, true)
  }

  /** A message is queued. */
  function Send(c: Client, f: Fields, m: Msg, s: State): Result {
    Result(Client(s, f, c.ticketExpected, c.own, c.tape.Add(false, m)), Ok, false)
  }

  /** The transcript's buffer is kept only if it may still be needed. */
  function Keeping(c: Client, needed: bool): Client {
    c.(own := Own(c.own.buffer && needed, c.own.localPubkey))
  }

  /** ssl_on_certificate_selected: the key of a configured certificate is kept; without one the buffer is not needed. */
  function Selecting(c: Client, hasCert: bool): Client {
    c.(own := if hasCert then Own(c.own.buffer, true) else Own(false, c.own.localPubkey))
  }

  function Hello(f: Fields, e: Env): Msg {
    Msg(ClientHello, Offer(f.session, e.data))
  }

  function DoStartConnect(c: Client, e: Env): Result {
    if e.fail then Stop(c, Error)
    else
      var f := c.f.(session := c.f.session && !e.dropSession);
      Result(Client(EnterEarlyData, f, c.ticketExpected, c.own, c.tape.Add(false, Hello(f, e))), Flush, false)
  }

  function DoEnterEarlyData(c: Client): Result {
    Next(c, c.f, if c.f.dtls then ReadHelloVerifyRequest else ReadServerHello)
  }

  /** A HelloVerifyRequest is not hashed: it resets the transcript, and the hello is sent again. */
  function DoReadHelloVerifyRequest(c: Client, m: Option<Msg>, e: Env): Result {
    if m.None? then Stop(c, ReadMessage)
    else if m.value.tag != HelloVerifyRequest then Next(c, c.f, ReadServerHello)
    else if e.fail then Stop(c, Error)
    else
      var f := c.f.(gotVerifyRequest := true);
      Result(Client(ReadServerHello, f, c.ticketExpected, c.own, c.tape.NextMessage(true, m.value).Reset().Add(false, Hello(f, e))), Flush, true)
  }

  /** The hello is taken over; a session that was not resumed is replaced by a fresh one. */
  function Settled(f: Fields, p: Params): Fields {
    var reused := f.session && p.resumed;
    f.(session := reused, newSession := !reused, keyShare := false, hello := p)
  }

  function DoReadServerHello(c: Client, m: Option<Msg>, e: Env): Result {
    if m.None? then Stop(c, ReadMessage)
    else if m.value.tag != ServerHello || !m.value.body.Chosen? || !m.value.body.params.Supported() || e.fail then Stop(c, Error)
    else
      var f := Settled(c.f, m.value.body.params);
      var c' := Keeping(Hashing(c, m.value), !f.session && f.hello.cert).(ticketExpected := f.hello.ticket);
      Consume(c', f, m.value, if f.session then ReadSessionTicket else ReadServerCertificate)
  }

  function DoReadServerCertificate(c: Client, m: Option<Msg>, e: Env): Result {
    if !c.f.hello.cert then Pass(c, c.f, ReadCertificateStatus)
    else if m.None? then Stop(c, ReadMessage)
    else if m.value.tag != Certificate then Stop(c, Error)
    else
      var c' := Hashing(c, m.value);
      if !m.value.body.Chain? || m.value.body.empty || e.fail then Stop(c', Error)
      else if !c.f.newSession then Stop(c', Crash)
      else Consume(c', c.f.(peerPubkey := true), m.value, ReadCertificateStatus)
  }

  function DoReadCertificateStatus(c: Client, m: Option<Msg>, e: Env): Result {
    if !c.f.hello.status then Pass(c, c.f, VerifyServerCertificate)
    else if m.None? then Stop(c, ReadMessage)
    else if m.value.tag != CertificateStatus then Pass(c, c.f, VerifyServerCertificate)
    else
      var c' := Hashing(c, m.value);
      if e.fail then Stop(c', Error)
      else if !c.f.newSession then Stop(c', Crash)
      else Consume(c', c.f.(gotStatus := true), m.value, VerifyServerCertificate)
  }

  function DoVerifyServerCertificate(c: Client, e: Env): Result {
    if !c.f.hello.cert then Next(c, c.f, ReadServerKeyExchange)
    else if !c.f.newSession then Stop(c, Crash)
    else if e.fail then Stop(c, Error)
    else if e.retry then Stop(c, Suspended)
    else Next(c, c.f.(verified := true), ReadServerKeyExchange)
  }

  function DoReadServerKeyExchange(c: Client, m: Option<Msg>, e: Env): Result {
    if m.None? then Stop(c, ReadMessage)
    else if m.value.tag != ServerKeyExchange then
      if c.f.hello.kx == ECDHE then Stop(c, Error) else Pass(c, c.f, ReadCertificateRequest)
    else
      var c' := Hashing(c, m.value);
      if e.fail || c.f.hello.kx == RSA then Stop(c', Error)
      else if (c.f.hello.kx == ECDHE && !c.f.newSession) || (c.f.hello.cert && !c.f.peerPubkey) then Stop(c', Crash)
      else Consume(c', c.f.(gotKeyExchange := true, keyShare := c.f.hello.kx == ECDHE), m.value, ReadCertificateRequest)
  }

  function DoReadCertificateRequest(c: Client, m: Option<Msg>, e: Env): Result {
    if !c.f.hello.cert then Pass(c, c.f, ReadServerHelloDone)
    else if m.None? then Stop(c, ReadMessage)
    else if m.value.tag == ServerHelloDone then Pass(Keeping(c, false), c.f, ReadServerHelloDone)
    else if m.value.tag != CertificateRequest then Stop(c, Error)
    else
      var c' := Hashing(c, m.value);
      if e.fail then Stop(c', Error) else Consume(c', c.f.(certRequest := true), m.value, ReadServerHelloDone)
  }

  function DoReadServerHelloDone(c: Client, m: Option<Msg>, e: Env): Result {
    if m.None? then Stop(c, ReadMessage)
    else if m.value.tag != ServerHelloDone then Stop(c, Error)
    else
      var c' := Hashing(c, m.value);
      if e.fail then Stop(c', Error) else Consume(c', c.f, m.value, SendClientCertificate)
  }

  /** Without a certificate an empty chain is sent; SSL 3.0 sends a warning alert instead. */
  function DoSendClientCertificate(c: Client, e: Env): Result {
    if !c.f.certRequest then Pass(c, c.f, SendClientKeyExchange)
    else if e.fail then Stop(c, Error)
    else if e.retry then Stop(c, Suspended)
    else if !e.hasCert && c.f.hello.ssl3 then Pass(Keeping(c, false), c.f, SendClientKeyExchange)
    else
      Send(Selecting(c, e.hasCert), c.f.(sentCert := true), Msg(Certificate, Chain(!e.hasCert, e.data)), SendClientKeyExchange)
  }

  function DoSendClientKeyExchange(c: Client, e: Env): Result {
    if e.fail then Stop(c, Error)
    else if !c.f.newSession || (c.f.hello.kx == RSA && !c.f.peerPubkey) || (c.f.hello.kx == ECDHE && !c.f.keyShare) then Stop(c, Crash)
    else Send(c, c.f.(keyShare := false), Msg(ClientKeyExchange, Opaque(e.data)), SendClientCertificateVerify)
  }

  /**
   * The signature algorithm is chosen by the key that was kept, and all but SSL
   * 3.0 then sign what the transcript's buffer holds.
   */
  function DoSendClientCertificateVerify(c: Client, e: Env): Result {
    if !c.f.certRequest || !e.hasCert then Pass(c, c.f, SendClientFinished)
    else if e.fail then Stop(c, Error)
    else if !c.own.localPubkey || (!c.f.hello.ssl3 && !c.own.buffer) then Stop(c, Crash)
    else if e.retry && !c.f.hello.ssl3 then Stop(c, Suspended)
    else Send(Keeping(c, false), c.f.(sentVerify := true), Msg(CertificateVerify, Opaque(e.data)), SendClientFinished)
  }

  /** ChangeCipherSpec, the two optional messages, and Finished over everything before it. */
  function AddLast(tape: Tape, p: Params, data: nat): Tape {
    tape.AddChangeCipherSpec(false)
        .AddIf(p.npn, false, Msg(NextProto, Opaque(data)))
        .AddIf(p.channelId, false, Msg(ChannelId, Opaque(data)))
        .AddFinished(false)
  }

  function DoSendClientFinished(c: Client, e: Env): Result {
    if c.f.hello.channelId && e.retry && !e.fail then Stop(c, Suspended)
    else if e.fail then Stop(c, Error)
    else if !c.f.session && !c.f.newSession then Stop(c, Crash)
    else Result(Client(FinishFlight, c.f, c.ticketExpected, c.own, AddLast(c.tape, c.f.hello, e.data)), Flush, false)
  }

  function DoFinishFlight(c: Client, e: Env): Result {
    if c.f.session then Next(c, c.f, FinishClientHandshake)
    else if e.fail then Stop(c, Error)
    else
      Result(Client(ReadSessionTicket, c.f, c.ticketExpected, c.own, c.tape), if e.falseStart then EarlyReturn else Ok, false)
  }

  /** An empty ticket means the server changed its mind. */
  function DoReadSessionTicket(c: Client, m: Option<Msg>, e: Env): Result {
    if !c.ticketExpected then Result(Client(ProcessChangeCipherSpec, c.f, c.ticketExpected, c.own, c.tape.Skip()), ReadChangeCipherSpec, false)
    else if m.None? then Stop(c, ReadMessage)
    else if m.value.tag != NewSessionTicket then Stop(c, Error)
    else
      var c' := Hashing(c, m.value);
      if !m.value.body.Ticket? || e.fail then Stop(c', Error)
      else if !c.f.session && !c.f.newSession then Stop(c', Crash)
      else
        Result(Client(ProcessChangeCipherSpec, c.f, !m.value.body.empty, c.own, c'.tape.NextMessage(true, m.value)), ReadChangeCipherSpec, true)
  }

  /** The ChangeCipherSpec this state waited for has been read. */
  function DoProcessChangeCipherSpec(c: Client, e: Env): Result {
    if e.fail then Stop(c, Error)
    else Result(Client(ReadServerFinished, c.f, c.ticketExpected, c.own, c.tape.TakeChangeCipherSpec(true)), Ok, false)
  }

  /** The MAC is computed before the message itself is hashed. */
  function DoReadServerFinished(c: Client, m: Option<Msg>, e: Env): Result {
    if m.None? then Stop(c, ReadMessage)
    else if m.value.tag != Finished then Stop(c, Error)
    else if !c.f.session && !c.f.newSession then Stop(c, Crash)
    else
      var c' := Hashing(c, m.value);
      if m.value.body != Mac(true, c.tape.transcript) || e.fail then Stop(c', Error)
      else Consume(c', c.f, m.value, if c.f.session then SendClientFinished else FinishClientHandshake)
  }

  function DoFinishClientHandshake(c: Client, e: Env): Result {
    if !c.f.session && !c.f.newSession then Stop(c, Crash)
    else if !c.f.session && e.fail then Stop(c, Error)
    else Next(c, c.f.(newSession := false), Done)
  }

  /** One round of ssl_client_handshake's loop. */
  function Step(c: Client, m: Option<Msg>, e: Env): Result {
    match c.state
    case StartConnect => DoStartConnect(c, e)
    case EnterEarlyData => DoEnterEarlyData(c)
    case ReadHelloVerifyRequest => DoReadHelloVerifyRequest(c, m, e)
    case ReadServerHello => DoReadServerHello(c, m, e)
    case ReadServerCertificate => DoReadServerCertificate(c, m, e)
    case ReadCertificateStatus => DoReadCertificateStatus(c, m, e)
    case VerifyServerCertificate => DoVerifyServerCertificate(c, e)
    case ReadServerKeyExchange => DoReadServerKeyExchange(c, m, e)
    case ReadCertificateRequest => DoReadCertificateRequest(c, m, e)
    case ReadServerHelloDone => DoReadServerHelloDone(c, m, e)
    case SendClientCertificate => DoSendClientCertificate(c, e)
    case SendClientKeyExchange => DoSendClientKeyExchange(c, e)
    case SendClientCertificateVerify => DoSendClientCertificateVerify(c, e)
    case SendClientFinished => DoSendClientFinished(c, e)
    case FinishFlight => DoFinishFlight(c, e)
    case ReadSessionTicket => DoReadSessionTicket(c, m, e)
    case ProcessChangeCipherSpec => DoProcessChangeCipherSpec(c, e)
    case ReadServerFinished => DoReadServerFinished(c, m, e)
    case FinishClientHandshake => DoFinishClientHandshake(c, e)
    case Done => Stop(c, Ok)
  }

  /** What the client saw and sent of the optional messages. */
  function ShapeOf(f: Fields): Shape {
    Shape(f.session, f.hello.cert, f.gotStatus, f.gotKeyExchange, f.certRequest, f.sentCert, f.sentVerify,
          f.hello.npn, f.hello.channelId, f.hello.ticket)
  }

  // What holds in each state

  predicate Fresh(f: Fields) {
    !f.newSession && !f.certRequest && !f.gotStatus && !f.gotKeyExchange && !f.sentCert && !f.sentVerify
    && (f.gotVerifyRequest ==> f.dtls)
  }

  /** A full handshake: a new session is being made, no old one is used. */
  predicate Full(f: Fields) {
    f.newSession && Whole(f)
  }

  predicate Whole(f: Fields) {
    f.hello.Supported() && !f.session && (f.gotStatus ==> f.hello.status) && (f.certRequest ==> f.hello.cert)
    && (f.hello.kx == RSA ==> !f.gotKeyExchange) && (f.gotVerifyRequest ==> f.dtls)
  }

  /** The server's certificate was received. */
  predicate HasKey(f: Fields) {
    f.hello.cert ==> f.peerPubkey
  }

  /** The server's certificate was received and checked. */
  predicate Checked(f: Fields) {
    f.hello.cert ==> f.peerPubkey && f.verified
  }

  /** The server's key exchange was received wherever the suite demands it. */
  predicate Keyed(f: Fields) {
    f.hello.kx == ECDHE ==> f.gotKeyExchange
  }

  /** The key share received is still there. */
  predicate Sharing(f: Fields) {
    f.hello.kx == ECDHE ==> f.keyShare
  }

  predicate NothingSent(f: Fields) {
    !f.sentCert && !f.sentVerify
  }

  /** Before the server's key exchange. */
  predicate Early(f: Fields) {
    Full(f) && !f.gotKeyExchange && !f.certRequest && NothingSent(f)
  }

  /** After the server's key exchange. */
  predicate Middle(f: Fields) {
    Full(f) && Checked(f) && Keyed(f)
  }

  /** All checks of the handshake's mode have been passed. */
  predicate Passed(f: Fields) {
    if f.session then !f.certRequest && NothingSent(f) && f.hello.Supported() && (f.gotVerifyRequest ==> f.dtls)
    else Whole(f) && Checked(f) && Keyed(f)
  }

  /** Exactly one session object is there. */
  predicate Late(f: Fields) {
    f.newSession == !f.session && Passed(f)
  }

  /** Which objects exist in which state, which messages have been seen by then, and the script's slot. */
  predicate Objects(s: State, f: Fields, slot: nat) {
    match s
    case StartConnect => slot == 0 && Fresh(f) && !f.gotVerifyRequest
    case EnterEarlyData => slot == 1 && Fresh(f)
    case ReadHelloVerifyRequest => slot == 1 && Fresh(f) && f.dtls
    case ReadServerHello => slot == 1 && Fresh(f)
    case ReadServerCertificate => slot == 2 && Early(f) && !f.gotStatus
    case ReadCertificateStatus => slot == 3 && Early(f) && HasKey(f) && !f.gotStatus
    case VerifyServerCertificate => slot == 4 && Early(f) && HasKey(f)
    case ReadServerKeyExchange => slot == 4 && Early(f) && Checked(f)
    case ReadCertificateRequest =>
      slot == 5 && Middle(f) && Sharing(f) && !f.certRequest && NothingSent(f)
    case ReadServerHelloDone => slot == 6 && Middle(f) && Sharing(f) && NothingSent(f)
    case SendClientCertificate => slot == 7 && Middle(f) && Sharing(f) && NothingSent(f)
    case SendClientKeyExchange => slot == 8 && Middle(f) && Sharing(f) && !f.sentVerify
    case SendClientCertificateVerify => slot == 9 && Middle(f) && !f.sentVerify
    case SendClientFinished => slot == (if f.session then 5 else 10) && Late(f)
    case FinishFlight => slot == (if f.session then 9 else 14) && Late(f)
    case ReadSessionTicket => slot == (if f.session then 2 else 14) && Late(f)
    case ProcessChangeCipherSpec => slot == (if f.session then 3 else 15) && Late(f)
    case ReadServerFinished => slot == (if f.session then 4 else 16) && Late(f)
    case FinishClientHandshake => slot == End(f.session) && Late(f)
    case Done => slot == End(f.session) && !f.newSession && Passed(f)
  }

  /** The transcript's buffer is held as long as a client certificate may have to be proved; a kept key needs it. */
  predicate Buffered(s: State, f: Fields, own: Own) {
    match s
    case StartConnect => own == Own(true, false)
    case EnterEarlyData => own == Own(true, false)
    case ReadHelloVerifyRequest => own == Own(true, false)
    case ReadServerHello => own == Own(true, false)
    case ReadServerCertificate => (f.hello.cert ==> own.buffer) && !own.localPubkey
    case ReadCertificateStatus => (f.hello.cert ==> own.buffer) && !own.localPubkey
    case VerifyServerCertificate => (f.hello.cert ==> own.buffer) && !own.localPubkey
    case ReadServerKeyExchange => (f.hello.cert ==> own.buffer) && !own.localPubkey
    case ReadCertificateRequest => (f.hello.cert ==> own.buffer) && !own.localPubkey
    case ReadServerHelloDone => (f.certRequest ==> own.buffer) && !own.localPubkey
    case SendClientCertificate => (f.certRequest ==> own.buffer) && !own.localPubkey
    case SendClientKeyExchange => own.localPubkey ==> own.buffer
    case SendClientCertificateVerify => own.localPubkey ==> own.buffer
    case _ => true
  }

  /** Up to the state that reads it, a ticket is expected exactly if the hello announced one. */
  predicate TicketOpen(s: State, f: Fields, expected: bool) {
    match s
    case StartConnect => true
    case EnterEarlyData => true
    case ReadHelloVerifyRequest => true
    case ReadServerHello => true
    case ProcessChangeCipherSpec => true
    case ReadServerFinished => true
    case SendClientFinished => f.session || expected == f.hello.ticket
    case FinishFlight => f.session || expected == f.hello.ticket
    case FinishClientHandshake => true
    case Done => true
    case _ => expected == f.hello.ticket
  }

  /** The objects, the transcript's buffer and the expectation of a ticket are what the state needs. */
  predicate Held(c: Client) {
    Objects(c.state, c.f, c.tape.slot) && Buffered(c.state, c.f, c.own) && TicketOpen(c.state, c.f, c.ticketExpected)
  }

  /** The invariant of every run, against any peer. */
  ghost predicate Inv(c: Client) {
    Held(c) && c.tape.Follows(ShapeOf(c.f))
  }

  // With a client certificate that does not come or go

  /** A requested certificate was sent, if only to say there is none, and one that was sent was proved. */
  predicate Answers(c: Client, hasCert: bool) {
    match c.state
    case SendClientKeyExchange => Chose(c.f, c.own, hasCert)
    case SendClientCertificateVerify => Chose(c.f, c.own, hasCert)
    case SendClientFinished => SentProof(c.f, hasCert)
    case FinishFlight => SentProof(c.f, hasCert)
    case ReadSessionTicket => SentProof(c.f, hasCert)
    case ProcessChangeCipherSpec => SentProof(c.f, hasCert)
    case ReadServerFinished => SentProof(c.f, hasCert)
    case FinishClientHandshake => SentProof(c.f, hasCert)
    case Done => SentProof(c.f, hasCert)
    case _ => true
  }

  predicate SentCert(f: Fields, hasCert: bool) {
    f.sentCert == (f.certRequest && (hasCert || !f.hello.ssl3))
  }

  predicate Chose(f: Fields, own: Own, hasCert: bool) {
    SentCert(f, hasCert) && (f.certRequest ==> own.localPubkey == hasCert)
  }

  predicate SentProof(f: Fields, hasCert: bool) {
    !f.session ==> SentCert(f, hasCert) && f.sentVerify == (f.certRequest && hasCert)
  }

  predicate Ready(c: Client, hasCert: bool) {
    Held(c) && Answers(c, hasCert)
  }

  // What every step keeps, whatever the peer sends

  /** A certificate is to be proved whose key was not kept. */
  predicate LateProof(c: Client, e: Env) {
    c.state == SendClientCertificateVerify && c.f.certRequest && !c.own.localPubkey && e.hasCert && !e.fail
  }

  /** A step uses a missing object in that one case only; one that does not fail leaves what its next state needs. */
  ghost predicate Keeps(c: Client, e: Env, r: Result) {
    (r.wait == Crash <==> LateProof(c, e)) && (r.wait != Error && r.wait != Crash ==> Held(r.c))
  }

  /** A step that does not fail follows the script. */
  ghost predicate Follows(r: Result) {
    r.wait == Error || r.wait == Crash || r.c.tape.Follows(ShapeOf(r.c.f))
  }

  lemma KeepStartConnect(c: Client, e: Env)
    requires Held(c) && c.state == StartConnect
    ensures Keeps(c, e, DoStartConnect(c, e))
  {
  }

  lemma KeepEnterEarlyData(c: Client, e: Env)
    requires Held(c) && c.state == EnterEarlyData
    ensures Keeps(c, e, DoEnterEarlyData(c))
  {
  }

  lemma KeepReadHelloVerifyRequest(c: Client, m: Option<Msg>, e: Env)
    requires Held(c) && c.state == ReadHelloVerifyRequest
    ensures Keeps(c, e, DoReadHelloVerifyRequest(c, m, e))
  {
  }

  lemma KeepReadServerHello(c: Client, m: Option<Msg>, e: Env)
    requires Held(c) && c.state == ReadServerHello
    ensures Keeps(c, e, DoReadServerHello(c, m, e))
  {
  }

  lemma KeepReadServerCertificate(c: Client, m: Option<Msg>, e: Env)
    requires Held(c) && c.state == ReadServerCertificate
    ensures Keeps(c, e, DoReadServerCertificate(c, m, e))
  {
  }

  lemma KeepReadCertificateStatus(c: Client, m: Option<Msg>, e: Env)
    requires Held(c) && c.state == ReadCertificateStatus
    ensures Keeps(c, e, DoReadCertificateStatus(c, m, e))
  {
  }

  lemma KeepVerifyServerCertificate(c: Client, e: Env)
    requires Held(c) && c.state == VerifyServerCertificate
    ensures Keeps(c, e, DoVerifyServerCertificate(c, e))
  {
  }

  lemma TookKeyExchange(f: Fields)
    requires Early(f) && Checked(f) && f.hello.kx != RSA
    ensures var f := f.(gotKeyExchange := true, keyShare := f.hello.kx == ECDHE);
            Middle(f) && Sharing(f) && !f.certRequest && NothingSent(f)
  {
  }

  lemma KeepReadServerKeyExchange(c: Client, m: Option<Msg>, e: Env)
    requires Held(c) && c.state == ReadServerKeyExchange
    ensures Keeps(c, e, DoReadServerKeyExchange(c, m, e))
  {
    if DoReadServerKeyExchange(c, m, e).took {
      TookKeyExchange(c.f);
    }
  }

  lemma KeepReadCertificateRequest(c: Client, m: Option<Msg>, e: Env)
    requires Held(c) && c.state == ReadCertificateRequest
    ensures Keeps(c, e, DoReadCertificateRequest(c, m, e))
  {
  }

  lemma KeepReadServerHelloDone(c: Client, m: Option<Msg>, e: Env)
    requires Held(c) && c.state == ReadServerHelloDone
    ensures Keeps(c, e, DoReadServerHelloDone(c, m, e))
  {
  }

  lemma KeepSendClientCertificate(c: Client, e: Env)
    requires Held(c) && c.state == SendClientCertificate
    ensures Keeps(c, e, DoSendClientCertificate(c, e))
  {
  }

  lemma KeepSendClientKeyExchange(c: Client, e: Env)
    requires Held(c) && c.state == SendClientKeyExchange
    ensures Keeps(c, e, DoSendClientKeyExchange(c, e))
  {
  }

  lemma KeepSendClientCertificateVerify(c: Client, e: Env)
    requires Held(c) && c.state == SendClientCertificateVerify
    ensures Keeps(c, e, DoSendClientCertificateVerify(c, e))
  {
  }

  lemma KeepSendClientFinished(c: Client, e: Env)
    requires Held(c) && c.state == SendClientFinished
    ensures Keeps(c, e, DoSendClientFinished(c, e))
  {
  }

  lemma KeepFinishFlight(c: Client, e: Env)
    requires Held(c) && c.state == FinishFlight
    ensures Keeps(c, e, DoFinishFlight(c, e))
  {
  }

  lemma KeepReadSessionTicket(c: Client, m: Option<Msg>, e: Env)
    requires Held(c) && c.state == ReadSessionTicket
    ensures Keeps(c, e, DoReadSessionTicket(c, m, e))
  {
  }

  lemma KeepProcessChangeCipherSpec(c: Client, e: Env)
    requires Held(c) && c.state == ProcessChangeCipherSpec
    ensures Keeps(c, e, DoProcessChangeCipherSpec(c, e))
  {
  }

  lemma KeepReadServerFinished(c: Client, m: Option<Msg>, e: Env)
    requires Held(c) && c.state == ReadServerFinished
    ensures Keeps(c, e, DoReadServerFinished(c, m, e))
  {
  }

  lemma KeepFinishClientHandshake(c: Client, e: Env)
    requires Held(c) && c.state == FinishClientHandshake
    ensures Keeps(c, e, DoFinishClientHandshake(c, e))
  {
  }

  lemma FollowReadServerCertificate(c: Client, m: Option<Msg>, e: Env)
    requires c.tape.Follows(ShapeOf(c.f)) && c.tape.slot == 2 && !c.f.session
    ensures Follows(DoReadServerCertificate(c, m, e))
  {
    if DoReadServerCertificate(c, m, e).took {
      Fills(ShapeOf(c.f), ShapeOf(c.f), c.tape, true, m.value);
    } else if !c.f.hello.cert {
      Skips(ShapeOf(c.f), ShapeOf(c.f), c.tape);
    }
  }

  lemma FollowReadCertificateStatus(c: Client, m: Option<Msg>, e: Env)
    requires c.tape.Follows(ShapeOf(c.f)) && c.tape.slot == 3 && !c.f.session && !c.f.gotStatus
    ensures Follows(DoReadCertificateStatus(c, m, e))
  {
    var sh := ShapeOf(c.f);
    if DoReadCertificateStatus(c, m, e).took {
      Fills(sh, ShapeOf(c.f.(gotStatus := true)), c.tape, true, m.value);
    } else {
      Skips(sh, sh, c.tape);
    }
  }

  lemma FollowReadServerKeyExchange(c: Client, m: Option<Msg>, e: Env)
    requires c.tape.Follows(ShapeOf(c.f)) && c.tape.slot == 4 && !c.f.session && !c.f.gotKeyExchange
    ensures Follows(DoReadServerKeyExchange(c, m, e))
  {
    var r := DoReadServerKeyExchange(c, m, e);
    if r.took {
      Fills(ShapeOf(c.f), ShapeOf(r.c.f), c.tape, true, m.value);
    } else if r.wait == Ok {
      Skips(ShapeOf(c.f), ShapeOf(r.c.f), c.tape);
    }
  }

  lemma FollowReadCertificateRequest(c: Client, m: Option<Msg>, e: Env)
    requires c.tape.Follows(ShapeOf(c.f)) && c.tape.slot == 5 && !c.f.session && !c.f.certRequest
    ensures Follows(DoReadCertificateRequest(c, m, e))
  {
    var r := DoReadCertificateRequest(c, m, e);
    if r.took {
      Fills(ShapeOf(c.f), ShapeOf(r.c.f), c.tape, true, m.value);
    } else if r.wait == Ok {
      Skips(ShapeOf(c.f), ShapeOf(r.c.f), c.tape);
    }
  }

  lemma FollowReadServerHelloDone(c: Client, m: Option<Msg>, e: Env)
    requires c.tape.Follows(ShapeOf(c.f)) && c.tape.slot == 6 && !c.f.session
    ensures Follows(DoReadServerHelloDone(c, m, e))
  {
    if DoReadServerHelloDone(c, m, e).took {
      Fills(ShapeOf(c.f), ShapeOf(c.f), c.tape, true, m.value);
    }
  }

  lemma CertificateSlot(f: Fields, t: Tape, m: Msg)
    requires t.Follows(ShapeOf(f)) && t.slot == 7 && !f.session && NothingSent(f) && m.tag == Certificate
    ensures t.Skip().Follows(ShapeOf(f)) && t.Add(false, m).Follows(ShapeOf(f.(sentCert := true)))
  {
    Skips(ShapeOf(f), ShapeOf(f), t);
    Fills(ShapeOf(f), ShapeOf(f.(sentCert := true)), t, false, m);
  }

  lemma FollowSendClientCertificate(c: Client, e: Env)
    requires c.tape.Follows(ShapeOf(c.f)) && c.tape.slot == 7 && !c.f.session && NothingSent(c.f)
    ensures Follows(DoSendClientCertificate(c, e))
  {
    var r := DoSendClientCertificate(c, e);
    if r.wait == Ok {
      CertificateSlot(c.f, c.tape, Msg(Certificate, Chain(!e.hasCert, e.data)));
      assert r.c.f == c.f || r.c.f == c.f.(sentCert := true);
    }
  }

  lemma FollowSendClientKeyExchange(c: Client, e: Env)
    requires c.tape.Follows(ShapeOf(c.f)) && c.tape.slot == 8 && !c.f.session
    ensures Follows(DoSendClientKeyExchange(c, e))
  {
    Fills(ShapeOf(c.f), ShapeOf(c.f), c.tape, false, Msg(ClientKeyExchange, Opaque(e.data)));
  }

  lemma FollowSendClientCertificateVerify(c: Client, e: Env)
    requires c.tape.Follows(ShapeOf(c.f)) && c.tape.slot == 9 && !c.f.session && !c.f.sentVerify
    ensures Follows(DoSendClientCertificateVerify(c, e))
  {
    var sh := ShapeOf(c.f);
    if c.f.certRequest && e.hasCert {
      Fills(sh, ShapeOf(c.f.(sentVerify := true)), c.tape, false, Msg(CertificateVerify, Opaque(e.data)));
    } else {
      Skips(sh, sh, c.tape);
    }
  }

  lemma FollowStartConnect(c: Client, e: Env)
    requires c.tape.Follows(ShapeOf(c.f)) && c.tape.slot == 0
    ensures Follows(DoStartConnect(c, e))
  {
    var f := c.f.(session := c.f.session && !e.dropSession);
    FillsHello(ShapeOf(f), c.tape, Hello(f, e));
  }

  lemma FollowReadHelloVerifyRequest(c: Client, m: Option<Msg>, e: Env)
    requires c.tape.Follows(ShapeOf(c.f))
    ensures Follows(DoReadHelloVerifyRequest(c, m, e))
  {
    var f := c.f.(gotVerifyRequest := true);
    FillsHello(ShapeOf(f), c.tape.Reset(), Hello(f, e));
  }

  lemma FollowReadServerHello(c: Client, m: Option<Msg>, e: Env)
    requires c.tape.Follows(ShapeOf(c.f)) && c.tape.slot == 1
    ensures Follows(DoReadServerHello(c, m, e))
  {
    if DoReadServerHello(c, m, e).took {
      Fills(ShapeOf(c.f), ShapeOf(Settled(c.f, m.value.body.params)), c.tape, true, m.value);
    }
  }

  lemma TicketSlot(f: Fields, t: Tape, m: Msg)
    requires t.Follows(ShapeOf(f)) && t.slot == (if f.session then 2 else 14) && m.tag == NewSessionTicket
    ensures if f.hello.ticket then t.Take(true, m).Follows(ShapeOf(f)) else t.Skip().Follows(ShapeOf(f))
  {
    if f.hello.ticket {
      Fills(ShapeOf(f), ShapeOf(f), t, true, m);
    } else {
      Skips(ShapeOf(f), ShapeOf(f), t);
    }
  }

  lemma FollowReadSessionTicket(c: Client, m: Option<Msg>, e: Env)
    requires c.tape.Follows(ShapeOf(c.f)) && c.tape.slot == (if c.f.session then 2 else 14) && c.ticketExpected == c.f.hello.ticket
    ensures Follows(DoReadSessionTicket(c, m, e))
  {
    if DoReadSessionTicket(c, m, e).took {
      TicketSlot(c.f, c.tape, m.value);
    } else if !c.ticketExpected {
      TicketSlot(c.f, c.tape, Msg(NewSessionTicket, Opaque(0)));
    }
  }

  lemma FollowProcessChangeCipherSpec(c: Client, e: Env)
    requires c.tape.Follows(ShapeOf(c.f)) && c.tape.slot == (if c.f.session then 3 else 15)
    ensures Follows(DoProcessChangeCipherSpec(c, e))
  {
    FillsChangeCipherSpec(ShapeOf(c.f), c.tape, true);
  }

  lemma FollowReadServerFinished(c: Client, m: Option<Msg>, e: Env)
    requires c.tape.Follows(ShapeOf(c.f)) && c.tape.slot == (if c.f.session then 4 else 16)
    ensures Follows(DoReadServerFinished(c, m, e))
  {
    var sh := ShapeOf(c.f);
    assert SlotAt(sh, c.tape.slot) == Some(Label(true, Some(Finished)));
    if DoReadServerFinished(c, m, e).took {
      Fills(sh, sh, c.tape, true, m.value);
    }
  }

  lemma SessionShape(f: Fields)
    ensures ShapeOf(f.(newSession := false)) == ShapeOf(f)
  {
  }

  lemma FollowFinishClientHandshake(c: Client, e: Env)
    requires c.tape.Follows(ShapeOf(c.f))
    ensures Follows(DoFinishClientHandshake(c, e))
  {
    SessionShape(c.f);
  }

  /** The four slots of the client's last messages. */
  predicate LastSlots(sh: Shape, n: nat) {
    && SlotAt(sh, n) == Some(Label(false, None))
    && SlotAt(sh, n + 1) == If(sh.npn, false, Some(NextProto))
    && SlotAt(sh, n + 2) == If(sh.channelId, false, Some(ChannelId))
    && SlotAt(sh, n + 3) == Some(Label(false, Some(Finished)))
  }

  lemma LastSlotsHere(sh: Shape)
    ensures LastSlots(sh, if sh.resumed then 5 else 10)
  {
  }

  lemma LastAdded(sh: Shape, t: Tape, p: Params, data: nat)
    requires t.Follows(sh) && LastSlots(sh, t.slot) && sh.npn == p.npn && sh.channelId == p.channelId
    ensures AddLast(t, p, data).Follows(sh)
  {
    var np, id := Msg(NextProto, Opaque(data)), Msg(ChannelId, Opaque(data));
    FillsChangeCipherSpec(sh, t, false);
    MaybeFills(sh, t.AddChangeCipherSpec(false), p.npn, false, np);
    EndAdded(sh, t.AddChangeCipherSpec(false).AddIf(p.npn, false, np), p.channelId, id);
  }

  lemma EndAdded(sh: Shape, t: Tape, present: bool, id: Msg)
    requires t.Follows(sh) && SlotAt(sh, t.slot) == If(present, false, Some(id.tag))
    requires SlotAt(sh, t.slot + 1) == Some(Label(false, Some(Finished)))
    ensures t.AddIf(present, false, id).AddFinished(false).Follows(sh)
  {
    MaybeFills(sh, t, present, false, id);
    var t' := t.AddIf(present, false, id);
    Fills(sh, sh, t', false, Msg(Finished, Mac(false, t'.transcript)));
  }

  lemma FollowSendClientFinished(c: Client, e: Env)
    requires c.tape.Follows(ShapeOf(c.f)) && c.tape.slot == if c.f.session then 5 else 10
    ensures Follows(DoSendClientFinished(c, e))
  {
    LastSlotsHere(ShapeOf(c.f));
    LastAdded(ShapeOf(c.f), c.tape, c.f.hello, e.data);
  }

  /** The states up to the check of the server's certificate. */
  predicate Hellos(s: State) {
    s.StartConnect? || s.EnterEarlyData? || s.ReadHelloVerifyRequest? || s.ReadServerHello? || s.ReadServerCertificate?
    || s.ReadCertificateStatus? || s.VerifyServerCertificate?
  }

  /** The states of the key exchange. */
  predicate Keys(s: State) {
    s.ReadServerKeyExchange? || s.ReadCertificateRequest? || s.ReadServerHelloDone? || s.SendClientCertificate?
    || s.SendClientKeyExchange? || s.SendClientCertificateVerify?
  }

  lemma HelloSteps(c: Client, m: Option<Msg>, e: Env)
    requires Inv(c) && Hellos(c.state)
    ensures Keeps(c, e, Step(c, m, e)) && Follows(Step(c, m, e))
  {
    match c.state {
      case StartConnect => KeepStartConnect(c, e); FollowStartConnect(c, e);
      case EnterEarlyData => KeepEnterEarlyData(c, e);
      case ReadHelloVerifyRequest => KeepReadHelloVerifyRequest(c, m, e); FollowReadHelloVerifyRequest(c, m, e);
      case ReadServerHello => KeepReadServerHello(c, m, e); FollowReadServerHello(c, m, e);
      case ReadServerCertificate => KeepReadServerCertificate(c, m, e); FollowReadServerCertificate(c, m, e);
      case ReadCertificateStatus => KeepReadCertificateStatus(c, m, e); FollowReadCertificateStatus(c, m, e);
      case VerifyServerCertificate => KeepVerifyServerCertificate(c, e);
    }
  }

  lemma KeySteps(c: Client, m: Option<Msg>, e: Env)
    requires Inv(c) && Keys(c.state)
    ensures Keeps(c, e, Step(c, m, e)) && Follows(Step(c, m, e))
  {
    match c.state {
      case ReadServerKeyExchange => KeepReadServerKeyExchange(c, m, e); FollowReadServerKeyExchange(c, m, e);
      case ReadCertificateRequest => KeepReadCertificateRequest(c, m, e); FollowReadCertificateRequest(c, m, e);
      case ReadServerHelloDone => KeepReadServerHelloDone(c, m, e); FollowReadServerHelloDone(c, m, e);
      case SendClientCertificate => KeepSendClientCertificate(c, e); FollowSendClientCertificate(c, e);
      case SendClientKeyExchange => KeepSendClientKeyExchange(c, e); FollowSendClientKeyExchange(c, e);
      case SendClientCertificateVerify => KeepSendClientCertificateVerify(c, e); FollowSendClientCertificateVerify(c, e);
    }
  }

  /** The states around the client's last flight. */
  predicate Flights(s: State) {
    s.SendClientFinished? || s.FinishFlight? || s.ReadSessionTicket?
  }

  lemma FlightSteps(c: Client, m: Option<Msg>, e: Env)
    requires Inv(c) && Flights(c.state)
    ensures Keeps(c, e, Step(c, m, e)) && Follows(Step(c, m, e))
  {
    match c.state {
      case SendClientFinished => KeepSendClientFinished(c, e); FollowSendClientFinished(c, e);
      case FinishFlight => KeepFinishFlight(c, e);
      case ReadSessionTicket => KeepReadSessionTicket(c, m, e); FollowReadSessionTicket(c, m, e);
    }
  }

  /** The states from the server's ChangeCipherSpec on. */
  predicate Lasts(s: State) {
    s.ProcessChangeCipherSpec? || s.ReadServerFinished? || s.FinishClientHandshake?
  }

  lemma LastSteps(c: Client, m: Option<Msg>, e: Env)
    requires Inv(c) && Lasts(c.state)
    ensures Keeps(c, e, Step(c, m, e)) && Follows(Step(c, m, e))
  {
    match c.state {
      case ProcessChangeCipherSpec => KeepProcessChangeCipherSpec(c, e); FollowProcessChangeCipherSpec(c, e);
      case ReadServerFinished => KeepReadServerFinished(c, m, e); FollowReadServerFinished(c, m, e);
      case FinishClientHandshake => KeepFinishClientHandshake(c, e); FollowFinishClientHandshake(c, e);
    }
  }

  /** Whatever the peer sends, no step uses a missing object but in that one case, and none that does not fail breaks the invariant. */
  lemma StepKeepsInv(c: Client, m: Option<Msg>, e: Env)
    requires Inv(c) && c.state != Done
    ensures Keeps(c, e, Step(c, m, e)) && Follows(Step(c, m, e))
  {
    if Hellos(c.state) {
      HelloSteps(c, m, e);
    } else if Keys(c.state) {
      KeySteps(c, m, e);
    } else if Flights(c.state) {
      FlightSteps(c, m, e);
    } else {
      LastSteps(c, m, e);
    }
  }

  // With a client certificate that does not come or go, the last states know what was sent

  lemma HelloAnswers(c: Client, m: Option<Msg>, e: Env)
    requires Held(c) && Hellos(c.state)
    ensures var r := Step(c, m, e); r.wait == Error || r.wait == Crash || Answers(r.c, e.hasCert)
  {
  }

  lemma KeyAnswers(c: Client, m: Option<Msg>, e: Env)
    requires Ready(c, e.hasCert) && Keys(c.state)
    ensures var r := Step(c, m, e); r.wait != Crash && (r.wait == Error || Answers(r.c, e.hasCert))
  {
  }

  lemma FlightAnswers(c: Client, m: Option<Msg>, e: Env)
    requires Answers(c, e.hasCert) && Flights(c.state)
    ensures var r := Step(c, m, e); r.wait == Error || r.wait == Crash || Answers(r.c, e.hasCert)
  {
  }

  lemma LastAnswers(c: Client, m: Option<Msg>, e: Env)
    requires Answers(c, e.hasCert) && Lasts(c.state)
    ensures var r := Step(c, m, e); r.wait == Error || r.wait == Crash || Answers(r.c, e.hasCert)
  {
  }

  /** With the same certificate as before, no missing object is used at all. */
  lemma StepAnswers(c: Client, m: Option<Msg>, e: Env)
    requires Inv(c) && Answers(c, e.hasCert) && c.state != Done
    ensures var r := Step(c, m, e); r.wait != Crash && (r.wait != Error ==> Answers(r.c, e.hasCert))
  {
    StepKeepsInv(c, m, e);
    if Hellos(c.state) {
      HelloAnswers(c, m, e);
    } else if Keys(c.state) {
      KeyAnswers(c, m, e);
    } else if Flights(c.state) {
      FlightAnswers(c, m, e);
    } else {
      LastAnswers(c, m, e);
    }
  }

  // Whole runs

  /** A connection before its handshake, with or without a session to offer. */
  predicate Initial(c: Client) {
    && c.state == StartConnect && c.own == Own(true, false) && Fresh(c.f) && !c.f.gotVerifyRequest
    && c.tape == Tape([], [], [], 0)
  }

  /** What a round finds: the next item from the peer, if there is one, and the outcomes of its operations. */
  datatype Input = Input(item: Option<Item>, e: Env)

  function Message(x: Option<Item>): Option<Msg> {
    if x.Some? && x.value.Hs? then Some(x.value.msg) else None
  }

  /**
   * One round of ssl_run_handshake: what the state waits for is read, and the
   * state is run. An item of another kind than the one waited for is an error.
   */
  function Turn(c: Client, x: Input): Result {
    if c.state == ProcessChangeCipherSpec then
      if x.item.None? then Stop(c, ReadChangeCipherSpec)
      else if x.item.value.Hs? then Stop(c, Error)
      else Step(c, None, x.e).(took := true)
    else
      var r := Step(c, Message(x.item), x.e);
      if r.wait == ReadMessage && x.item == Some(Ccs) then Stop(c, Error) else r
  }

  /** A run against a peer that sends anything, suspended and resumed anywhere. */
  ghost function Run(c: Client, w: Wait, ins: seq<Input>): Result
    decreases |ins|
  {
    if ins == [] || w == Error || w == Crash || c.state == Done then Stop(c, w)
    else
      var r := Turn(c, ins[0]);
      Run(r.c, r.wait, ins[1..])
  }

  /** The configured client certificate does not come or go during the handshake. */
  ghost predicate Stable(ins: seq<Input>, hasCert: bool) {
    forall i | 0 <= i < |ins| :: ins[i].e.hasCert == hasCert
  }

  /** A round is a step, or waits, or refuses what came. */
  lemma TurnIsStep(c: Client, x: Input, m: Option<Msg>)
    requires m == if c.state == ProcessChangeCipherSpec then None else Message(x.item)
    ensures var r, s := Turn(c, x), Step(c, m, x.e);
            (r.c == s.c && r.wait == s.wait) || (r.c == c && (r.wait == Error || r.wait == ReadChangeCipherSpec))
  {
  }

  lemma TurnKeepsInv(c: Client, x: Input)
    requires Inv(c) && c.state != Done
    ensures Keeps(c, x.e, Turn(c, x)) && Follows(Turn(c, x))
  {
    StepKeepsInv(c, if c.state == ProcessChangeCipherSpec then None else Message(x.item), x.e);
  }

  lemma TurnAnswers(c: Client, x: Input)
    requires Inv(c) && Answers(c, x.e.hasCert) && c.state != Done
    ensures var r := Turn(c, x); r.wait != Crash && (r.wait != Error ==> Answers(r.c, x.e.hasCert))
  {
    var m := if c.state == ProcessChangeCipherSpec then None else Message(x.item);
    TurnIsStep(c, x, m);
    StepAnswers(c, m, x.e);
  }

  /** In every run the invariant holds until a failure. */
  lemma {:induction false} RunKeepsInv(c: Client, w: Wait, ins: seq<Input>)
    requires w == Error || w == Crash || Inv(c)
    ensures var r := Run(c, w, ins); r.wait == Error || r.wait == Crash || Inv(r.c)
    decreases |ins|
  {
    if ins != [] && w != Error && w != Crash && c.state != Done {
      TurnKeepsInv(c, ins[0]);
      var r := Turn(c, ins[0]);
      RunKeepsInv(r.c, r.wait, ins[1..]);
    }
  }

  /** While the client certificate stays as configured, no missing object is ever used. */
  lemma {:induction false} StableRun(c: Client, w: Wait, ins: seq<Input>, hasCert: bool)
    requires w != Crash && (w != Error ==> Inv(c) && Answers(c, hasCert)) && Stable(ins, hasCert)
    ensures var r := Run(c, w, ins); r.wait != Crash && (r.wait != Error ==> Inv(r.c) && Answers(r.c, hasCert))
    decreases |ins|
  {
    if ins != [] && w != Error && c.state != Done {
      TurnKeepsInv(c, ins[0]);
      TurnAnswers(c, ins[0]);
      var r := Turn(c, ins[0]);
      StableRun(r.c, r.wait, ins[1..], hasCert);
    }
  }

  lemma InitialHolds(c: Client, hasCert: bool)
    requires Initial(c)
    ensures Inv(c) && Answers(c, hasCert)
  {
  }

  /**
   * In every state reached, however often states were suspended and entered
   * again, the log is the script up to there, and the transcript holds each of
   * its messages once and in order.
   */
  lemma HashedOnce(c: Client, ins: seq<Input>)
    requires Initial(c)
    ensures var r := Run(c, Ok, ins);
            r.wait != Error && r.wait != Crash ==>
              && r.c.tape.transcript == Hashed(r.c.tape.log)
              && LogLabels(r.c.tape.log) == Past(ShapeOf(r.c.f), r.c.tape.slot)
  {
    InitialHolds(c, false);
    RunKeepsInv(c, Ok, ins);
    var r := Run(c, Ok, ins);
    if r.wait != Error && r.wait != Crash {
      var t := r.c.tape;
      RecordLabels(ShapeOf(r.c.f), t.slot, t.log, t.transcript);
      RecordHashed(ShapeOf(r.c.f), t.slot, t.log, t.transcript);
    }
  }

  /** What a full handshake's optional messages tell, against any peer. */
  predicate Lawful(f: Fields) {
    && (f.gotVerifyRequest ==> f.dtls)
    && (f.gotStatus ==> f.hello.status)
    && (f.hello.kx == ECDHE ==> f.gotKeyExchange)
    && (f.hello.kx == RSA ==> !f.gotKeyExchange)
    && (f.certRequest ==> f.hello.cert)
    && (f.hello.cert ==> f.verified)
  }

  lemma DoneIsLawful(c: Client)
    requires Held(c) && c.state == Done
    ensures c.tape.slot == End(c.f.session) && (!c.f.session ==> Lawful(c.f))
  {
  }

  /**
   * Against any peer: a client that reaches the end of a full handshake has
   * exchanged exactly the messages of the full script, and a resumed one those
   * of the resumed script.
   */
  lemma CompletedRun(c: Client, ins: seq<Input>)
    requires Initial(c)
    ensures var r := Run(c, Ok, ins);
            var sh := ShapeOf(r.c.f);
            r.wait != Error && r.wait != Crash && r.c.state == Done ==>
              && LogLabels(r.c.tape.log) == (
                if sh.resumed then [Label(false, Some(ClientHello)), Label(true, Some(ServerHello))] + ServerLast(sh) + ClientLast(sh)
                else HelloFlight(sh) + KeyFlight(sh) + ClientLast(sh) + ServerLast(sh))
              && (!sh.resumed ==> Lawful(r.c.f))
  {
    InitialHolds(c, false);
    RunKeepsInv(c, Ok, ins);
    HashedOnce(c, ins);
    var r := Run(c, Ok, ins);
    if r.wait != Error && r.wait != Crash && r.c.state == Done {
      DoneIsLawful(r.c);
      Script(ShapeOf(r.c.f));
    }
  }

  /**
   * With the client certificate as configured throughout: the client never uses
   * a missing object, and a completed full handshake has sent a certificate and
   * its proof exactly as requested and configured.
   */
  lemma CertificateAnswered(c: Client, ins: seq<Input>, hasCert: bool)
    requires Initial(c) && Stable(ins, hasCert)
    ensures var r := Run(c, Ok, ins); r.wait != Crash && (r.wait != Error && r.c.state == Done ==> SentProof(r.c.f, hasCert))
  {
    InitialHolds(c, hasCert);
    StableRun(c, Ok, ins, hasCert);
  }

  // Termination

  /** Orders the states that share a slot. */
  function Minor(s: State): nat {
    if s.EnterEarlyData? then 3
    else if s.ReadHelloVerifyRequest? || s.FinishFlight? then 2
    else if s.ReadServerHello? || s.VerifyServerCertificate? || s.ReadSessionTicket? || s.FinishClientHandshake? then 1
    else 0
  }

  /** A step that goes on passes a slot, or sinks within one; one that cannot go on changes nothing. */
  ghost predicate Sinks(c: Client, m: Option<Msg>, e: Env, r: Result) {
    if r.wait == Ok || r.wait == Flush || r.wait == ReadChangeCipherSpec || r.wait == EarlyReturn then
      r.c.tape.slot > c.tape.slot || (r.c.tape.slot == c.tape.slot && Minor(r.c.state) < Minor(c.state))
    else if r.wait == ReadMessage then r.c == c && m.None?
    else r.wait == Suspended ==> r.c == c && e.retry
  }

  /** The states that may be entered with messages not yet flushed; none of them reads. */
  predicate Holding(s: State) {
    s.SendClientKeyExchange? || s.SendClientCertificateVerify? || s.SendClientFinished?
  }

  ghost predicate Flushed(c: Client) {
    c.tape.pending == [] || Holding(c.state)
  }

  /** Unflushed messages are never left behind by a step that waits for the peer, or by the last step. */
  ghost predicate StaysFlushed(c: Client, r: Result) {
    Flushed(c) ==>
      && (r.wait != Flush && r.wait != Error && r.wait != Crash ==> Flushed(r.c))
      && (r.wait == ReadMessage || r.wait == ReadChangeCipherSpec || r.c.state == Done ==> r.c.tape.pending == [])
      && (r.wait != Error && r.wait != Crash ==> (r.wait == ReadChangeCipherSpec <==> r.c.state == ProcessChangeCipherSpec))
  }

  lemma HelloSinks(c: Client, m: Option<Msg>, e: Env)
    requires Hellos(c.state) && (c.state == ReadHelloVerifyRequest ==> c.tape.slot == 1)
    ensures Sinks(c, m, e, Step(c, m, e))
  {
  }

  lemma KeySinks(c: Client, m: Option<Msg>, e: Env)
    requires Keys(c.state)
    ensures Sinks(c, m, e, Step(c, m, e))
  {
  }

  lemma LateSinks(c: Client, m: Option<Msg>, e: Env)
    requires !Hellos(c.state) && !Keys(c.state) && c.state != Done
    ensures Sinks(c, m, e, Step(c, m, e))
  {
  }

  /** Steps that do not suspend strictly decrease the slots left, or the states left within a slot. */
  lemma StepSinks(c: Client, m: Option<Msg>, e: Env)
    requires c.state != Done && (c.state == ReadHelloVerifyRequest ==> c.tape.slot == 1)
    ensures Sinks(c, m, e, Step(c, m, e))
  {
    if Hellos(c.state) {
      HelloSinks(c, m, e);
    } else if Keys(c.state) {
      KeySinks(c, m, e);
    } else {
      LateSinks(c, m, e);
    }
  }

  lemma HelloFlushed(c: Client, m: Option<Msg>, e: Env)
    requires Hellos(c.state)
    ensures StaysFlushed(c, Step(c, m, e))
  {
  }

  lemma KeyFlushed(c: Client, m: Option<Msg>, e: Env)
    requires Keys(c.state)
    ensures StaysFlushed(c, Step(c, m, e))
  {
  }

  lemma LateFlushed(c: Client, m: Option<Msg>, e: Env)
    requires !Hellos(c.state) && !Keys(c.state) && c.state != Done && c.state != ProcessChangeCipherSpec
    ensures StaysFlushed(c, Step(c, m, e))
  {
  }

  lemma StepFlushed(c: Client, m: Option<Msg>, e: Env)
    requires c.state != Done
    ensures StaysFlushed(c, Step(c, m, e))
  {
    if Hellos(c.state) {
      HelloFlushed(c, m, e);
    } else if Keys(c.state) {
      KeyFlushed(c, m, e);
    } else if c.state != ProcessChangeCipherSpec {
      LateFlushed(c, m, e);
    }
  }

  lemma SlotBound(c: Client)
    requires Held(c)
    ensures c.tape.slot <= 17
  {
  }

  /** The client's handshake object and what it has received but not consumed. */
  class ClientHandshake {
    var hs: Client
    var inbox: seq<Item>

    constructor (c: Client)
      ensures hs == c && inbox == []
    {
      hs, inbox := c, [];
    }

    /** One round of the loop; what the state took is gone from the inbox. */
    method Round(e: Env) returns (wait: Wait, ghost x: Input)
      modifies this
      ensures x == Input(if old(inbox) == [] then None else Some(old(inbox)[0]), e)
      ensures Stop(hs, wait) == Stop(Turn(old(hs), x).c, Turn(old(hs), x).wait)
      ensures inbox == if old(inbox) != [] && Turn(old(hs), x).took then old(inbox)[1..] else old(inbox)
    {
      var item := if inbox == [] then None else Some(inbox[0]);
      x := Input(item, e);
      var r := Turn(hs, Input(item, e));
      hs, wait := r.c, r.wait;
      if r.took && inbox != [] {
        inbox := inbox[1..];
      }
    }

    /**
     * ssl_client_handshake: runs states until one does not return ok. It is
     * some run of the machine, and ends.
     */
    method Handshake(env: nat -> Env) returns (wait: Wait, ghost ins: seq<Input>)
      requires Inv(hs)
      modifies this
      ensures Run(old(hs), Ok, ins) == Stop(hs, wait)
      ensures wait == Error || wait == Crash || Inv(hs)
      ensures wait == Ok ==> hs.state == Done
    {
      var i: nat := 0;
      ins := [];
      wait := Ok;
      SlotBound(hs);
      while hs.state != Done
        invariant wait == Ok && Running(old(hs), hs, ins) && hs.tape.slot <= 17
        decreases 17 - hs.tape.slot, Minor(hs.state)
      {
        ghost var x, before := Input(None, env(i)), hs;
        wait, x := Round(env(i));
        RoundRuns(old(hs), before, ins, x);
        ins := ins + [x];
        if wait != Ok {
          return;
        }
        i := i + 1;
      }
    }
  }

  /** c is where the run that began at start has got to. */
  ghost predicate Running(start: Client, c: Client, ins: seq<Input>) {
    Inv(c) && Run(start, Ok, ins) == Stop(c, Ok)
  }

  /** A round that goes on passes a slot, or sinks within one. */
  lemma TurnSinks(c: Client, x: Input)
    requires Inv(c) && c.state != Done
    ensures var r := Turn(c, x);
            r.wait == Ok ==> r.c.tape.slot > c.tape.slot || (r.c.tape.slot == c.tape.slot && Minor(r.c.state) < Minor(c.state))
  {
    StepSinks(c, if c.state == ProcessChangeCipherSpec then None else Message(x.item), x.e);
  }

  lemma RoundRuns(start: Client, c: Client, ins: seq<Input>, x: Input)
    requires Running(start, c, ins) && c.state != Done
    ensures var r := Turn(c, x);
            && Run(start, Ok, ins + [x]) == Stop(r.c, r.wait)
            && (r.wait != Error && r.wait != Crash ==> Inv(r.c) && r.c.tape.slot <= 17)
            && (r.wait == Ok ==> r.c.tape.slot > c.tape.slot || (r.c.tape.slot == c.tape.slot && Minor(r.c.state) < Minor(c.state)))
  {
    TurnKeepsInv(c, x);
    TurnSinks(c, x);
    RunSnoc(start, Ok, ins, x);
    var r := Turn(c, x);
    if r.wait != Error && r.wait != Crash {
      SlotBound(r.c);
    }
  }

  lemma {:induction false} RunSnoc(c: Client, w: Wait, ins: seq<Input>, x: Input)
    requires var r := Run(c, w, ins); r.wait != Error && r.wait != Crash && r.c.state != Done
    ensures var r := Run(c, w, ins);
            var s := Turn(r.c, x);
            Run(c, w, ins + [x]) == Stop(s.c, s.wait)
    decreases |ins|
  {
    if ins == [] {
      assert ins + [x] == [x] && [x][1..] == [];
      var s := Turn(c, x);
      assert Run(s.c, s.wait, []) == Stop(s.c, s.wait);
    } else {
      assert (ins + [x])[1..] == ins[1..] + [x];
      var r := Turn(c, ins[0]);
      RunSnoc(r.c, r.wait, ins[1..], x);
    }
  }

  /** A run that goes on. */
  predicate Live(r: Result) {
    r.wait != Error && r.wait != Crash && r.c.state != Done
  }

  /** A run that has ended stays as it is. */
  lemma {:induction false} EndedStays(c: Client, w: Wait, ins: seq<Input>, i: nat)
    requires i <= |ins| && !Live(Run(c, w, ins[..i]))
    ensures Run(c, w, ins) == Run(c, w, ins[..i])
    decreases |ins|
  {
    if i > 0 && w != Error && w != Crash && c.state != Done {
      var front := ins[..i];
      assert front[1..] == ins[1..][..i - 1] && front[0] == ins[0];
      var r := Turn(c, ins[0]);
      assert Run(c, w, front) == Run(r.c, r.wait, front[1..]);
      EndedStays(r.c, r.wait, ins[1..], i - 1);
    }
  }
}
