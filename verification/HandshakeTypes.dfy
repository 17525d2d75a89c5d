/**
 * Handshake messages up to TLS 1.2, and the one script that full and resumed
 * handshakes follow: numbered slots, each absent or filled by one side.
 */
module HandshakeTypes {
  import opened Bytes

  datatype Tag =
    | ClientHello | HelloVerifyRequest | ServerHello | Certificate | CertificateStatus
    | ServerKeyExchange | CertificateRequest | ServerHelloDone | ClientKeyExchange | CertificateVerify
    | NewSessionTicket | NextProto | ChannelId | Finished

  datatype KeyExchange = RSA | ECDHE | PSK

  /** What a ServerHello settles. */
  datatype Params = Params(resumed: bool, kx: KeyExchange, cert: bool, ssl3: bool, status: bool, ticket: bool, npn: bool, channelId: bool) {
    /** The kinds of cipher suite there are: plain RSA needs a certificate, plain PSK has none. */
    predicate Supported() {
      (kx == RSA ==> cert) && (kx == PSK ==> !cert)
    }
  }

  /** What a message's body parses to. A Finished carries what its MAC was computed over. */
  datatype Body =
    | Offer(session: bool, random: nat)
    | Chosen(params: Params, random: nat)
    | Chain(empty: bool, data: nat)
    | Ticket(empty: bool, data: nat)
    | Mac(byServer: bool, over: seq<Msg>)
    | Opaque(data: nat)

  datatype Msg = Msg(tag: Tag, body: Body)

  /** What travels: handshake messages and ChangeCipherSpec. */
  datatype Item = Hs(msg: Msg) | Ccs

  /** What a state function returns to the loop; Crash is a null or freed object used. */
  datatype Wait = Ok | Error | Crash | Flush | ReadMessage | ReadChangeCipherSpec | Suspended | EarlyReturn

  /** The outcomes of one step that the machine itself does not determine. */
  datatype Env = Env(
    /** some check or operation fails */
    fail: bool,
    /** a callback asks to be called again later */
    retry: bool,
    /** a client certificate is configured */
    hasCert: bool,
    /** the offered session has expired, or was dropped */
    dropSession: bool,
    falseStart: bool,
    /** the ticket issued is empty */
    emptyTicket: bool,
    /** the resumed session recorded its handshake hashes, as Channel ID needs */
    hashes: bool,
    /** what the server settles on */
    params: Params,
    certRequest: bool,
    /** the server insists on a client certificate */
    requireCert: bool,
    /** fresh message content */
    data: nat)

  /** An item and who sent it. */
  datatype Said = Said(byServer: bool, item: Item)

  /**
   * What a party has said and heard: the transcript it hashes, what is not yet
   * flushed, and, since the transcript was last reset, everything sent or
   * consumed and the script's slot reached by it.
   */
  datatype Tape = Tape(transcript: seq<Msg>, pending: seq<Item>, log: seq<Said>, slot: nat) {
    /** ssl_hash_message: a message enters the transcript. */
    function Hash(m: Msg): Tape {
      this.(transcript := transcript + [m])
    }

    /** next_message: the peer's message is done with. */
    function NextMessage(byServer: bool, m: Msg): Tape {
      this.(log := log + [Said(byServer, Hs(m))], slot := slot + 1)
    }

    /** A message is put into the flight. */
    function Queue(byServer: bool, m: Msg): Tape {
      this.(pending := pending + [Hs(m)], log := log + [Said(byServer, Hs(m))], slot := slot + 1)
    }

    /** ssl_add_message: a message is queued and hashed. */
    function Add(byServer: bool, m: Msg): Tape {
      Queue(byServer, m).Hash(m)
    }

    function AddChangeCipherSpec(byServer: bool): Tape {
      Tape(transcript, pending + [Ccs], log + [Said(byServer, Ccs)], slot + 1)
    }

    function AddIf(present: bool, byServer: bool, m: Msg): Tape {
      if present then Add(byServer, m) else Skip()
    }

    /** A slot is passed without a message. */
    function Skip(): Tape {
      this.(slot := slot + 1)
    }

    /** What hashing a message and then going on to the next comes to. */
    function Take(byServer: bool, m: Msg): Tape {
      Hash(m).NextMessage(byServer, m)
    }

    function TakeChangeCipherSpec(byServer: bool): Tape {
      Tape(transcript, pending, log + [Said(byServer, Ccs)], slot + 1)
    }

    /** Finished is computed over everything before it. */
    function AddFinished(byServer: bool): Tape {
      Add(byServer, Msg(Finished, Mac(byServer, transcript)))
    }

    /** Nothing but what is queued is left: the transcript starts over. */
    function Reset(): Tape {
      Tape([], pending, [], 0)
    }

    ghost predicate Follows(sh: Shape) {
      Recorded(sh, slot, log, transcript)
    }
  }

  /** The handshake messages of a log. */
  ghost function Hashed(log: seq<Said>): seq<Msg> {
    if log == [] then []
    else Hashed(log[..|log| - 1]) + if log[|log| - 1].item.Hs? then [log[|log| - 1].item.msg] else []
  }

  ghost function LogLabels(log: seq<Said>): seq<Label> {
    if log == [] then [] else LogLabels(log[..|log| - 1]) + [LabelOf(log[|log| - 1].byServer, log[|log| - 1].item)]
  }

  lemma LogSnoc(log: seq<Said>, x: Said)
    ensures Hashed(log + [x]) == Hashed(log) + if x.item.Hs? then [x.item.msg] else []
    ensures LogLabels(log + [x]) == LogLabels(log) + [LabelOf(x.byServer, x.item)]
  {
    assert (log + [x])[..|log|] == log;
  }

  /**
   * The log fills the slots before n, in order, and the transcript holds each
   * of its messages exactly once, in the same order.
   */
  ghost predicate Recorded(sh: Shape, n: nat, log: seq<Said>, transcript: seq<Msg>)
    decreases n
  {
    if n == 0 then log == [] && transcript == []
    else if SlotAt(sh, n - 1).None? then Recorded(sh, n - 1, log, transcript)
    else
      && log != []
      && var x := log[|log| - 1];
         && SlotAt(sh, n - 1) == Some(LabelOf(x.byServer, x.item))
         && if x.item.Ccs? then Recorded(sh, n - 1, log[..|log| - 1], transcript)
            else transcript != [] && transcript[|transcript| - 1] == x.item.msg
                 && Recorded(sh, n - 1, log[..|log| - 1], transcript[..|transcript| - 1])
  }

  lemma {:induction false} RecordLabels(sh: Shape, n: nat, log: seq<Said>, transcript: seq<Msg>)
    requires Recorded(sh, n, log, transcript)
    ensures LogLabels(log) == Past(sh, n)
    decreases n
  {
    if n > 0 {
      PastNext(sh, n - 1);
      if SlotAt(sh, n - 1).None? {
        RecordLabels(sh, n - 1, log, transcript);
      } else {
        RecordLabels(sh, n - 1, log[..|log| - 1],
                     if log[|log| - 1].item.Ccs? then transcript else transcript[..|transcript| - 1]);
      }
    }
  }

  lemma {:induction false} RecordHashed(sh: Shape, n: nat, log: seq<Said>, transcript: seq<Msg>)
    requires Recorded(sh, n, log, transcript)
    ensures transcript == Hashed(log)
    decreases n
  {
    if n > 0 {
      if SlotAt(sh, n - 1).None? {
        RecordHashed(sh, n - 1, log, transcript);
      } else if log[|log| - 1].item.Ccs? {
        RecordHashed(sh, n - 1, log[..|log| - 1], transcript);
      } else {
        RecordHashed(sh, n - 1, log[..|log| - 1], transcript[..|transcript| - 1]);
      }
    }
  }

  // The script

  /** Who sends what: a handshake message, or ChangeCipherSpec. */
  datatype Label = Label(byServer: bool, tag: Option<Tag>)

  function LabelOf(byServer: bool, x: Item): Label {
    Label(byServer, if x.Hs? then Some(x.msg.tag) else None)
  }

  /** Which optional messages a handshake has. */
  datatype Shape = Shape(resumed: bool, cert: bool, status: bool, ske: bool, certRequest: bool,
                         clientCert: bool, clientVerify: bool, npn: bool, channelId: bool, ticket: bool)

  function If(present: bool, byServer: bool, tag: Option<Tag>): Option<Label> {
    if present then Some(Label(byServer, tag)) else None
  }

  function FullSlot(sh: Shape, i: nat): Option<Label> {
    match i
    case 0 => If(true, false, Some(ClientHello))
    case 1 => If(true, true, Some(ServerHello))
    case 2 => If(sh.cert, true, Some(Certificate))
    case 3 => If(sh.status, true, Some(CertificateStatus))
    case 4 => If(sh.ske, true, Some(ServerKeyExchange))
    case 5 => If(sh.certRequest, true, Some(CertificateRequest))
    case 6 => If(true, true, Some(ServerHelloDone))
    case 7 => If(sh.clientCert, false, Some(Certificate))
    case 8 => If(true, false, Some(ClientKeyExchange))
    case 9 => If(sh.clientVerify, false, Some(CertificateVerify))
    case 10 => If(true, false, None)
    case 11 => If(sh.npn, false, Some(NextProto))
    case 12 => If(sh.channelId, false, Some(ChannelId))
    case 13 => If(true, false, Some(Finished))
    case 14 => If(sh.ticket, true, Some(NewSessionTicket))
    case 15 => If(true, true, None)
    case 16 => If(true, true, Some(Finished))
    case _ => None
  }

  function ResumedSlot(sh: Shape, i: nat): Option<Label> {
    match i
    case 0 => If(true, false, Some(ClientHello))
    case 1 => If(true, true, Some(ServerHello))
    case 2 => If(sh.ticket, true, Some(NewSessionTicket))
    case 3 => If(true, true, None)
    case 4 => If(true, true, Some(Finished))
    case 5 => If(true, false, None)
    case 6 => If(sh.npn, false, Some(NextProto))
    case 7 => If(sh.channelId, false, Some(ChannelId))
    case 8 => If(true, false, Some(Finished))
    case _ => None
  }

  /** The message of slot i, if it is present. */
  function SlotAt(sh: Shape, i: nat): Option<Label> {
    if sh.resumed then ResumedSlot(sh, i) else FullSlot(sh, i)
  }

  function End(resumed: bool): nat {
    if resumed then 9 else 17
  }

  function Opt(x: Option<Label>): seq<Label> {
    if x.Some? then [x.value] else []
  }

  /** The messages of the slots before n. */
  ghost function Past(sh: Shape, n: nat): seq<Label>
  {
    if n == 0 then [] else Past(sh, n - 1) + Opt(SlotAt(sh, n - 1))
  }

  /** The messages of the slots from n on. */
  ghost function Rest(sh: Shape, n: nat): seq<Label>
    decreases End(sh.resumed) - n
  {
    if n >= End(sh.resumed) then [] else Opt(SlotAt(sh, n)) + Rest(sh, n + 1)
  }

  lemma Assoc3(p: seq<Label>, a: seq<Label>, b: seq<Label>, c: seq<Label>)
    ensures p + a + b + c == p + (a + b + c)
  {
  }

  lemma Assoc4(p: seq<Label>, a: seq<Label>, b: seq<Label>, c: seq<Label>, d: seq<Label>)
    ensures p + a + b + c + d == p + (a + b + c + d)
  {
  }

  lemma PastNext(sh: Shape, n: nat)
    ensures Past(sh, n + 1) == Past(sh, n) + Opt(SlotAt(sh, n))
  {
  }

  /** The flags of slots before n are the same. */
  predicate SameBefore(a: Shape, b: Shape, n: nat) {
    && (n > 2 ==> a.resumed == b.resumed && a.cert == b.cert && a.npn == b.npn && a.channelId == b.channelId && a.ticket == b.ticket)
    && (n > 3 ==> a.status == b.status) && (n > 4 ==> a.ske == b.ske) && (n > 5 ==> a.certRequest == b.certRequest)
    && (n > 7 ==> a.clientCert == b.clientCert) && (n > 9 ==> a.clientVerify == b.clientVerify)
  }

  /** Flags of later slots may change freely. */
  lemma {:induction false} RecordFrame(a: Shape, b: Shape, n: nat, log: seq<Said>, transcript: seq<Msg>)
    requires Recorded(a, n, log, transcript) && SameBefore(a, b, n)
    ensures Recorded(b, n, log, transcript)
    decreases n
  {
    if n > 0 {
      SameSlot(a, b, n - 1);
      if SlotAt(a, n - 1).None? {
        RecordFrame(a, b, n - 1, log, transcript);
      } else if log[|log| - 1].item.Ccs? {
        RecordFrame(a, b, n - 1, log[..|log| - 1], transcript);
      } else {
        RecordFrame(a, b, n - 1, log[..|log| - 1], transcript[..|transcript| - 1]);
      }
    }
  }

  lemma SameSlot(a: Shape, b: Shape, i: nat)
    requires SameBefore(a, b, i + 1)
    ensures SlotAt(a, i) == SlotAt(b, i)
  {
  }

  /** A present slot is passed by its message. */
  lemma RecordItem(sh: Shape, n: nat, log: seq<Said>, transcript: seq<Msg>, x: Said)
    requires Recorded(sh, n, log, transcript) && SlotAt(sh, n) == Some(LabelOf(x.byServer, x.item))
    ensures Recorded(sh, n + 1, log + [x], if x.item.Hs? then transcript + [x.item.msg] else transcript)
  {
    assert (log + [x])[..|log|] == log;
    if x.item.Hs? {
      assert (transcript + [x.item.msg])[..|transcript|] == transcript;
    }
  }

  /** A slot is filled, and flags of slots from there on may have changed. */
  lemma Fills(a: Shape, b: Shape, t: Tape, byServer: bool, m: Msg)
    requires t.Follows(a) && SameBefore(a, b, t.slot) && SlotAt(b, t.slot) == Some(Label(byServer, Some(m.tag)))
    ensures t.Take(byServer, m).Follows(b) && t.Add(byServer, m).Follows(b)
  {
    RecordFrame(a, b, t.slot, t.log, t.transcript);
    RecordItem(b, t.slot, t.log, t.transcript, Said(byServer, Hs(m)));
  }

  lemma FillsChangeCipherSpec(sh: Shape, t: Tape, byServer: bool)
    requires t.Follows(sh) && SlotAt(sh, t.slot) == Some(Label(byServer, None))
    ensures t.TakeChangeCipherSpec(byServer).Follows(sh) && t.AddChangeCipherSpec(byServer).Follows(sh)
  {
    RecordItem(sh, t.slot, t.log, t.transcript, Said(byServer, Ccs));
  }

  /** An absent slot is passed. */
  lemma Skips(a: Shape, b: Shape, t: Tape)
    requires t.Follows(a) && SameBefore(a, b, t.slot) && SlotAt(b, t.slot).None?
    ensures t.Skip().Follows(b)
  {
    RecordFrame(a, b, t.slot, t.log, t.transcript);
  }

  lemma MaybeFills(sh: Shape, t: Tape, present: bool, byServer: bool, m: Msg)
    requires t.Follows(sh) && SlotAt(sh, t.slot) == If(present, byServer, Some(m.tag))
    ensures t.AddIf(present, byServer, m).Follows(sh)
  {
    if present {
      Fills(sh, sh, t, byServer, m);
    } else {
      Skips(sh, sh, t);
    }
  }

  lemma FillsHello(sh: Shape, t: Tape, m: Msg)
    requires t.log == [] && t.transcript == [] && t.slot == 0 && m.tag == ClientHello
    ensures t.Add(false, m).Follows(sh) && t.Take(false, m).Follows(sh)
  {
    Fills(sh, sh, t, false, m);
  }

  /** The hellos and the server's first flight of a full handshake. */
  function HelloFlight(sh: Shape): seq<Label> {
    [Label(false, Some(ClientHello)), Label(true, Some(ServerHello))]
    + Opt(If(sh.cert, true, Some(Certificate))) + Opt(If(sh.status, true, Some(CertificateStatus)))
    + Opt(If(sh.ske, true, Some(ServerKeyExchange))) + Opt(If(sh.certRequest, true, Some(CertificateRequest)))
    + [Label(true, Some(ServerHelloDone))]
  }

  /** The client's key exchange. */
  function KeyFlight(sh: Shape): seq<Label> {
    Opt(If(sh.clientCert, false, Some(Certificate))) + [Label(false, Some(ClientKeyExchange))]
    + Opt(If(sh.clientVerify, false, Some(CertificateVerify)))
  }

  /** The client's last messages. */
  function ClientLast(sh: Shape): seq<Label> {
    [Label(false, None)] + Opt(If(sh.npn, false, Some(NextProto))) + Opt(If(sh.channelId, false, Some(ChannelId)))
    + [Label(false, Some(Finished))]
  }

  /** The server's last messages. */
  function ServerLast(sh: Shape): seq<Label> {
    Opt(If(sh.ticket, true, Some(NewSessionTicket))) + [Label(true, None)] + [Label(true, Some(Finished))]
  }

  lemma Three(sh: Shape, n: nat)
    ensures Past(sh, n + 3) == Past(sh, n) + (Opt(SlotAt(sh, n)) + Opt(SlotAt(sh, n + 1)) + Opt(SlotAt(sh, n + 2)))
  {
    PastNext(sh, n);
    PastNext(sh, n + 1);
    PastNext(sh, n + 2);
    Assoc3(Past(sh, n), Opt(SlotAt(sh, n)), Opt(SlotAt(sh, n + 1)), Opt(SlotAt(sh, n + 2)));
  }

  lemma HelloScript(sh: Shape)
    ensures Past(sh, 2) == [Label(false, Some(ClientHello)), Label(true, Some(ServerHello))]
    ensures !sh.resumed ==> Past(sh, 7) == HelloFlight(sh)
  {
  }

  lemma KeyScript(sh: Shape)
    requires !sh.resumed
    ensures Past(sh, 10) == Past(sh, 7) + KeyFlight(sh)
  {
    Three(sh, 7);
  }

  lemma ClientLastScript(sh: Shape, n: nat)
    requires n == if sh.resumed then 5 else 10
    ensures Past(sh, n + 4) == Past(sh, n) + ClientLast(sh)
  {
    Three(sh, n);
    PastNext(sh, n + 3);
    Assoc4(Past(sh, n), [Label(false, None)], Opt(SlotAt(sh, n + 1)), Opt(SlotAt(sh, n + 2)), [Label(false, Some(Finished))]);
  }

  lemma ServerLastScript(sh: Shape, n: nat)
    requires n == if sh.resumed then 2 else 14
    ensures Past(sh, n + 3) == Past(sh, n) + ServerLast(sh)
  {
    Three(sh, n);
  }

  /** Both scripts, spelled out. */
  lemma Script(sh: Shape)
    ensures !sh.resumed ==> Past(sh, 17) == HelloFlight(sh) + KeyFlight(sh) + ClientLast(sh) + ServerLast(sh)
    ensures sh.resumed ==>
      Past(sh, 9) == [Label(false, Some(ClientHello)), Label(true, Some(ServerHello))] + ServerLast(sh) + ClientLast(sh)
  {
    HelloScript(sh);
    if sh.resumed {
      ServerLastScript(sh, 2);
      ClientLastScript(sh, 5);
    } else {
      KeyScript(sh);
      ClientLastScript(sh, 10);
      ServerLastScript(sh, 14);
    }
  }
}
