/** Sessions as bytes: a printer that leaves defaults out, and the parser that puts them back. */
module SessionCodec {
  import opened Bytes
  import opened Der

  /** The fields every session has. */
  datatype Base = Base(sslVersion: nat, cipher: nat, id: seq<byte>, masterKey: seq<byte>, time: nat, timeout: nat)

  /** The peer's certificates, or the hash that stands for them. */
  datatype Peer = Peer(certs: seq<seq<byte>>, sha256: Option<seq<byte>>, sct: Option<seq<byte>>, ocsp: Option<seq<byte>>)

  /** Tickets and their parameters. */
  datatype Ticketing = Ticketing(hint: nat, ticket: Option<seq<byte>>, ageAdd: Option<nat>, maxEarlyData: nat, alpn: Option<seq<byte>>)

  /** What was verified and derived. */
  datatype Identity = Identity(sidCtx: seq<byte>, verifyResult: nat, psk: Option<seq<byte>>, handshakeHash: seq<byte>, extendedMasterSecret: bool)

  datatype Extras = Extras(groupId: nat, isServer: bool, signatureAlgorithm: nat, authTimeout: nat)

  datatype Session = Session(b: Base, p: Peer, t: Ticketing, i: Identity, x: Extras)

  /** The versions and ciphers known. */
  datatype Known = Known(versions: set<nat>, ciphers: set<nat>)

  const U16: nat := 0x1_0000
  const U32: nat := 0x1_0000_0000
  const U64: nat := 0x1_0000_0000_0000_0000
  /** LONG_MAX */
  const LONG_MAX: nat := 0x7fff_ffff_ffff_ffff

  // Contents of optional fields

  function Octets(s: seq<byte>): seq<byte>
    requires |s| < U32
  {
    Element(OCTET_STRING, s)
  }

  function StringField(s: Option<seq<byte>>): Option<seq<byte>>
    requires s.Some? ==> |s.value| < U32
  {
    if s.None? then None else Some(Octets(s.value))
  }

  /** A number is left out when it has its default value. */
  function NumberField(n: nat, default: nat): Option<seq<byte>>
    requires n < U64
  {
    if n == default then None else Some(UInt(n))
  }

  function FlagField(b: bool, default: bool): Option<seq<byte>> {
    if b == default then None else Some(Element(BOOLEAN, [if b then 0xff else 0]))
  }

  /** CBS_get_optional_asn1_octet_string, past the explicit tag; the outer None is a decoding error. */
  function GetString(o: Option<seq<byte>>): Option<Option<seq<byte>>> {
    if o.None? then Some(None)
    else
      match Take(o.value)
      case None => None
      case Some(e) => if e.tag != OCTET_STRING || e.rest != [] then None else Some(Some(e.body))
  }

  function GetNumber(o: Option<seq<byte>>, default: nat, max: nat): Option<nat> {
    if o.None? then Some(default)
    else
      match TakeUInt(o.value)
      case None => None
      case Some(r) => if r.rest != [] || r.value > max then None else Some(r.value)
  }

  function GetFlag(o: Option<seq<byte>>, default: bool): Option<bool> {
    if o.None? then Some(default)
    else
      match Take(o.value)
      case None => None
      case Some(e) =>
        if e.tag != BOOLEAN || e.rest != [] || |e.body| != 1 || (e.body[0] != 0 && e.body[0] != 0xff) then None
        else Some(e.body[0] != 0)
  }

  lemma StringBack(s: Option<seq<byte>>)
    requires s.Some? ==> |s.value| < U32
    ensures GetString(StringField(s)) == Some(s)
  {
    if s.Some? {
      TakeInvertsElement(OCTET_STRING, s.value, []);
      assert Octets(s.value) + [] == Octets(s.value);
    }
  }

  lemma NumberBack(n: nat, default: nat, max: nat)
    requires n <= max < U64
    ensures GetNumber(NumberField(n, default), default, max) == Some(n)
  {
    TakeInvertsUInt(n, []);
    assert UInt(n) + [] == UInt(n);
  }

  lemma FlagBack(b: bool, default: bool)
    ensures GetFlag(FlagField(b, default), default) == Some(b)
  {
    var e := Element(BOOLEAN, [if b then 0xff else 0]);
    TakeInvertsElement(BOOLEAN, [if b then 0xff else 0], []);
    assert e + [] == e;
  }

  // Certificate chains

  /** A certificate is one DER element. */
  ghost predicate OneElement(cert: seq<byte>) {
    Take(cert).Some? && Take(cert).value.rest == []
  }

  function Chain(certs: seq<seq<byte>>): seq<byte> {
    if certs == [] then [] else certs[0] + Chain(certs[1..])
  }

  /** The elements of a chain, as CBS_get_any_asn1_element takes them off. */
  function SplitChain(s: seq<byte>): Option<seq<seq<byte>>>
    decreases |s|
  {
    if s == [] then Some([])
    else
      match Take(s)
      case None => None
      case Some(e) =>
        match SplitChain(e.rest)
        case None => None
        case Some(more) => Some([s[..|s| - |e.rest|]] + more)
  }

  lemma TakeLengthFrame(s: seq<byte>, more: seq<byte>)
    requires TakeLength(s).Some?
    ensures TakeLength(s + more) == TakeLength(s)
  {
    if s[0] >= 0x80 {
      var k := s[0] - 0x80;
      assert (s + more)[1..1 + k] == s[1..1 + k];
    }
  }

  lemma TakeFrame(s: seq<byte>, more: seq<byte>)
    requires Take(s).Some?
    ensures var e := Take(s).value; Take(s + more) == Some(Taken(e.tag, e.body, e.rest + more))
  {
    assert (s + more)[1..] == s[1..] + more;
    TakeLengthFrame(s[1..], more);
    var k, n := TakeLength(s[1..]).value.0, TakeLength(s[1..]).value.1;
    assert (s + more)[1 + k..1 + k + n] == s[1 + k..1 + k + n];
    assert (s + more)[1 + k + n..] == s[1 + k + n..] + more;
  }

  lemma SplitFirst(c: seq<byte>, more: seq<byte>)
    requires OneElement(c)
    ensures SplitChain(c + more) == if SplitChain(more).None? then None else Some([c] + SplitChain(more).value)
  {
    TakeFrame(c, more);
    assert [] + more == more && (c + more)[..|c|] == c;
  }

  lemma {:induction false} SplitInvertsChain(certs: seq<seq<byte>>)
    requires forall i | 0 <= i < |certs| :: OneElement(certs[i])
    ensures SplitChain(Chain(certs)) == Some(certs)
    decreases |certs|
  {
    if certs != [] {
      assert OneElement(certs[0]);
      SplitInvertsChain(certs[1..]);
      SplitFirst(certs[0], Chain(certs[1..]));
      assert [certs[0]] + certs[1..] == certs;
    }
  }

  /** The printer's loop over the certificates after the leaf. */
  method PrintChain(certs: seq<seq<byte>>) returns (out: seq<byte>)
    requires certs != []
    ensures out == Chain(certs[1..])
  {
    out := [];
    var i := 1;
    while i < |certs|
      invariant 1 <= i <= |certs| && out + Chain(certs[i..]) == Chain(certs[1..])
    {
      assert certs[i..][1..] == certs[i + 1..];
      assert out + (certs[i] + Chain(certs[i + 1..])) == (out + certs[i]) + Chain(certs[i + 1..]);
      out := out + certs[i];
      i := i + 1;
    }
    assert certs[i..] == [] && out + [] == out;
  }

  /** The parser's loop over a chain. */
  method ParseChain(s: seq<byte>) returns (r: Option<seq<seq<byte>>>)
    ensures r == SplitChain(s)
  {
    var certs, rest: seq<byte> := [], s;
    if SplitChain(s).Some? {
      assert certs + SplitChain(s).value == SplitChain(s).value;
    }
    while rest != []
      invariant SplitChain(s) == if SplitChain(rest).None? then None else Some(certs + SplitChain(rest).value)
      decreases |rest|
    {
      match Take(rest) {
        case None => return None;
        case Some(e) =>
          var cert := rest[..|rest| - |e.rest|];
          if SplitChain(e.rest).Some? {
            assert certs + ([cert] + SplitChain(e.rest).value) == (certs + [cert]) + SplitChain(e.rest).value;
          }
          certs := certs + [cert];
          rest := e.rest;
      }
    }
    assert certs + [] == certs;
    return Some(certs);
  }

  // The whole session

  /** What the source's buffers and integer types hold, and certificates that are certificates. */
  ghost predicate WellFormed(s: Session, known: Known) {
    && s.b.sslVersion < U16 && s.b.sslVersion in known.versions && s.b.cipher < U16 && s.b.cipher in known.ciphers
    && |s.b.id| <= 32 && |s.b.masterKey| <= 48 && s.b.time < U64 && s.b.timeout < U32
    && (s.p.certs != [] ==> s.p.certs[0] != []) && (forall i | 1 <= i < |s.p.certs| :: OneElement(s.p.certs[i]))
    && (s.p.sha256.Some? ==> |s.p.sha256.value| == 32)
    && s.t.hint < U32 && (s.t.ageAdd.Some? ==> s.t.ageAdd.value < U32) && s.t.maxEarlyData < U32
    && |s.i.sidCtx| <= 32 && s.i.verifyResult <= LONG_MAX && (s.i.psk.Some? ==> 0 !in s.i.psk.value)
    && |s.i.handshakeHash| <= 64 && s.x.groupId < U16 && s.x.signatureAlgorithm < U16 && s.x.authTimeout < U32
  }

  /** No string is too long for a DER length. */
  predicate Fits(s: Session) {
    Short(s.p.sct) && Short(s.p.ocsp) && Short(s.t.ticket) && Short(s.t.alpn) && Short(s.i.psk)
  }

  predicate Short(s: Option<seq<byte>>) {
    s.Some? ==> |s.value| < U32
  }

  function PutU32(n: nat): seq<byte>
    requires n < U32
  {
    PutU16(n / U16) + PutU16(n % U16)
  }

  function NonEmpty(s: seq<byte>): Option<seq<byte>> {
    if s == [] then None else Some(s)
  }

  /** The certificates that are printed: none if their hash is. */
  function Shown(p: Peer): seq<seq<byte>> {
    if p.sha256.Some? then [] else p.certs
  }

  const TAGS: seq<nat> := [3, 4, 5, 6, 8, 9, 10, 13, 14, 15, 16, 17, 18, 19, 21, 22, 23, 24, 25, 26]

  /** Twenty contents in a row. */
  function Twenty(x0: Option<seq<byte>>, x1: Option<seq<byte>>, x2: Option<seq<byte>>, x3: Option<seq<byte>>, x4: Option<seq<byte>>, x5: Option<seq<byte>>, x6: Option<seq<byte>>,
                  x7: Option<seq<byte>>, x8: Option<seq<byte>>, x9: Option<seq<byte>>, x10: Option<seq<byte>>, x11: Option<seq<byte>>, x12: Option<seq<byte>>, x13: Option<seq<byte>>,
                  x14: Option<seq<byte>>, x15: Option<seq<byte>>, x16: Option<seq<byte>>, x17: Option<seq<byte>>, x18: Option<seq<byte>>, x19: Option<seq<byte>>): (r: seq<Option<seq<byte>>>)
    ensures |r| == 20 && r[0] == x0 && r[1] == x1 && r[2] == x2 && r[3] == x3 && r[4] == x4 && r[5] == x5 && r[6] == x6
    ensures r[7] == x7 && r[8] == x8 && r[9] == x9 && r[10] == x10 && r[11] == x11 && r[12] == x12 && r[13] == x13
    ensures r[14] == x14 && r[15] == x15 && r[16] == x16 && r[17] == x17 && r[18] == x18 && r[19] == x19
  {
    [x0, x1, x2, x3, x4, x5, x6, x7, x8, x9, x10, x11, x12, x13, x14, x15, x16, x17, x18, x19]
  }

  function LeafField(certs: seq<seq<byte>>): Option<seq<byte>> {
    if certs == [] then None else Some(certs[0])
  }

  function ChainField(certs: seq<seq<byte>>): Option<seq<byte>> {
    if |certs| < 2 then None else Some(Chain(certs[1..]))
  }

  function AgeField(age: Option<nat>): Option<seq<byte>>
    requires age.Some? ==> age.value < U32
  {
    if age.None? then None else Some(Octets(PutU32(age.value)))
  }

  /** The contents of the optional fields, in the order of TAGS; the fourth, a host name, is never printed. */
  ghost function Contents(s: Session, forTicket: bool, known: Known): seq<Option<seq<byte>>>
    requires WellFormed(s, known) && Fits(s)
  {
    Twenty(
      LeafField(Shown(s.p)), Some(Octets(s.i.sidCtx)), NumberField(s.i.verifyResult, 0), None, StringField(s.i.psk),
      NumberField(s.t.hint, 0), StringField(if forTicket then None else s.t.ticket),
      StringField(s.p.sha256), StringField(NonEmpty(s.i.handshakeHash)), StringField(s.p.sct), StringField(s.p.ocsp),
      FlagField(s.i.extendedMasterSecret, false), NumberField(s.x.groupId, 0), ChainField(Shown(s.p)), AgeField(s.t.ageAdd),
      FlagField(s.x.isServer, true), NumberField(s.x.signatureAlgorithm, 0), NumberField(s.t.maxEarlyData, 0),
      NumberField(s.x.authTimeout, s.b.timeout), StringField(s.t.alpn))
  }

  ghost function FieldsFrom(contents: seq<Option<seq<byte>>>, i: nat): seq<Field>
    requires |contents| == 20 && i <= 20
    decreases 20 - i
  {
    if i == 20 then [] else [Field(TAGS[i], contents[i])] + FieldsFrom(contents, i + 1)
  }

  ghost predicate AllSmall(contents: seq<Option<seq<byte>>>) {
    forall i | 0 <= i < |contents| :: contents[i].Some? ==> |contents[i].value| < U32
  }

  lemma TagsIncrease(i: nat)
    requires i < 20
    ensures TAGS[i] < 31 && (i < 19 ==> TAGS[i] < TAGS[i + 1])
  {
  }

  lemma {:induction false} FieldsOrdered(contents: seq<Option<seq<byte>>>, i: nat, from: nat)
    requires |contents| == 20 && i <= 20 && AllSmall(contents) && (i < 20 ==> from <= TAGS[i])
    ensures Ordered(FieldsFrom(contents, i), from)
    ensures Tags(FieldsFrom(contents, i)) == TAGS[i..] && Bodies(FieldsFrom(contents, i)) == contents[i..]
    decreases 20 - i
  {
    if i < 20 {
      TagsIncrease(i);
      FieldsOrdered(contents, i + 1, TAGS[i] + 1);
      var f := FieldsFrom(contents, i);
      assert f[1..] == FieldsFrom(contents, i + 1);
      assert [TAGS[i]] + TAGS[i + 1..] == TAGS[i..] && [contents[i]] + contents[i + 1..] == contents[i..];
    }
  }

  /** The optional part is read back field by field. */
  lemma OptionalBack(contents: seq<Option<seq<byte>>>)
    requires |contents| == 20 && AllSmall(contents)
    ensures Ordered(FieldsFrom(contents, 0), 0) && forall i | 0 <= i < 20 :: TAGS[i] < 31
    ensures ParseFields(PrintFields(FieldsFrom(contents, 0), 0), TAGS) == Some(contents)
  {
    FieldsOrdered(contents, 0, 0);
    ParseInvertsFields(FieldsFrom(contents, 0), 0);
    assert TAGS[0..] == TAGS && contents[0..] == contents;
  }

  /** The optional fields' part of the printed session. */
  ghost function Optional(contents: seq<Option<seq<byte>>>): seq<byte>
    requires |contents| == 20 && AllSmall(contents)
  {
    OptionalBack(contents);
    PrintFields(FieldsFrom(contents, 0), 0)
  }

  /** The mandatory fields. */
  function Head(b: Base, forTicket: bool): seq<byte>
    requires b.sslVersion < U16 && b.cipher < U16 && |b.id| <= 32 && |b.masterKey| <= 48 && b.time < U64 && b.timeout < U32
  {
    UIntFits(b.time);
    UIntFits(b.timeout);
    UInt(1) + (UInt(b.sslVersion) + (Octets(PutU16(b.cipher)) + (Octets(if forTicket then [] else b.id)
    + (Octets(b.masterKey) + (Element(Context(1), UInt(b.time)) + Element(Context(2), UInt(b.timeout)))))))
  }

  lemma UIntFits(n: nat)
    requires n < U64
    ensures |UInt(n)| < U32
  {
    UIntBodyFits(n);
  }

  /** Printing succeeds: everything fits its DER length. */
  ghost predicate Printable(s: Session, forTicket: bool, known: Known) {
    && WellFormed(s, known) && Fits(s) && AllSmall(Contents(s, forTicket, known))
    && |Head(s.b, forTicket) + Optional(Contents(s, forTicket, known))| < U32
  }

  /** SSL_SESSION_to_bytes_full */
  ghost function Print(s: Session, forTicket: bool, known: Known): seq<byte>
    requires Printable(s, forTicket, known)
  {
    Element(SEQUENCE, Head(s.b, forTicket) + Optional(Contents(s, forTicket, known)))
  }

  /** The next element, which must be an OCTET STRING of at most max bytes. */
  function TakeOctets(s: seq<byte>, max: nat): Option<Rest<seq<byte>>> {
    match Take(s)
    case None => None
    case Some(e) => if e.tag != OCTET_STRING || |e.body| > max then None else Some(Rest(e.body, e.rest))
  }

  /** A number under an explicit tag. */
  function TakeTagged(s: seq<byte>, n: nat, max: nat): Option<Rest<nat>>
    requires n < 31
  {
    match Take(s)
    case None => None
    case Some(e) =>
      if e.tag != Context(n) then None
      else
        match TakeUInt(e.body)
        case None => None
        case Some(r) => if r.value > max then None else Some(Rest(r.value, e.rest))
  }

  /** The mandatory fields, in order. */
  function ParseHead(s: seq<byte>, known: Known): Option<Rest<Base>> {
    var v := TakeUInt(s);
    if v.None? || v.value.value != 1 then None
    else
      var ssl := TakeUInt(v.value.rest);
      if ssl.None? || ssl.value.value >= U16 || ssl.value.value !in known.versions then None
      else
        var c := TakeOctets(ssl.value.rest, 2);
        if c.None? || |c.value.value| != 2 || GetU16(c.value.value[0], c.value.value[1]) !in known.ciphers then None
        else ParseKeys(c.value.rest, ssl.value.value, GetU16(c.value.value[0], c.value.value[1]))
  }

  function ParseKeys(s: seq<byte>, ssl: nat, cipher: nat): Option<Rest<Base>> {
    var id := TakeOctets(s, 32);
    if id.None? then None
    else
      var key := TakeOctets(id.value.rest, 48);
      if key.None? then None
      else
        var time := TakeTagged(key.value.rest, 1, U64 - 1);
        if time.None? then None
        else
          var timeout := TakeTagged(time.value.rest, 2, U32 - 1);
          if timeout.None? then None
          else Some(Rest(Base(ssl, cipher, id.value.value, key.value.value, time.value.value, timeout.value.value), timeout.value.rest))
  }

  lemma OctetsBack(b: seq<byte>, max: nat, rest: seq<byte>)
    requires |b| <= max < U32
    ensures TakeOctets(Octets(b) + rest, max) == Some(Rest(b, rest))
  {
    TakeInvertsElement(OCTET_STRING, b, rest);
  }

  lemma TaggedBack(n: nat, v: nat, max: nat, rest: seq<byte>)
    requires n < 31 && v <= max < U64
    ensures |UInt(v)| < U32 && TakeTagged(Element(Context(n), UInt(v)) + rest, n, max) == Some(Rest(v, rest))
  {
    UIntFits(v);
    TakeInvertsElement(Context(n), UInt(v), rest);
    TakeInvertsUInt(v, []);
    assert UInt(v) + [] == UInt(v);
  }

  lemma Regroup(a: seq<byte>, b: seq<byte>, c: seq<byte>)
    ensures (a + b) + c == a + (b + c)
  {
  }

  lemma KeysBack(b: Base, id: seq<byte>, rest: seq<byte>)
    requires |id| <= 32 && |b.masterKey| <= 48 && b.time < U64 && b.timeout < U32
    ensures |UInt(b.time)| < U32 && |UInt(b.timeout)| < U32
    ensures ParseKeys(Octets(id) + (Octets(b.masterKey) + (Element(Context(1), UInt(b.time)) + (Element(Context(2), UInt(b.timeout)) + rest))),
                      b.sslVersion, b.cipher) == Some(Rest(b.(id := id), rest))
  {
    TaggedBack(2, b.timeout, U32 - 1, rest);
    var r1 := Element(Context(2), UInt(b.timeout)) + rest;
    TaggedBack(1, b.time, U64 - 1, r1);
    var r2 := Element(Context(1), UInt(b.time)) + r1;
    OctetsBack(b.masterKey, 48, r2);
    OctetsBack(id, 32, Octets(b.masterKey) + r2);
  }

  lemma HeadSplit(b: Base, forTicket: bool, rest: seq<byte>)
    requires b.sslVersion < U16 && b.cipher < U16 && |b.id| <= 32 && |b.masterKey| <= 48 && b.time < U64 && b.timeout < U32
    ensures |UInt(b.time)| < U32 && |UInt(b.timeout)| < U32
    ensures Head(b, forTicket) + rest
         == UInt(1) + (UInt(b.sslVersion) + (Octets(PutU16(b.cipher)) + (Octets(if forTicket then [] else b.id)
            + (Octets(b.masterKey) + (Element(Context(1), UInt(b.time)) + (Element(Context(2), UInt(b.timeout)) + rest))))))
  {
    UIntFits(b.time);
    UIntFits(b.timeout);
    var e2 := Element(Context(2), UInt(b.timeout));
    var e1 := Element(Context(1), UInt(b.time));
    Regroup(e1, e2, rest);
    var t1 := e1 + e2;
    Regroup(Octets(b.masterKey), t1, rest);
    var t2 := Octets(b.masterKey) + t1;
    var id := Octets(if forTicket then [] else b.id);
    Regroup(id, t2, rest);
    Regroup(Octets(PutU16(b.cipher)), id + t2, rest);
    Regroup(UInt(b.sslVersion), Octets(PutU16(b.cipher)) + (id + t2), rest);
    Regroup(UInt(1), UInt(b.sslVersion) + (Octets(PutU16(b.cipher)) + (id + t2)), rest);
  }

  lemma U16Back(n: nat)
    requires n < U16
    ensures GetU16(PutU16(n)[0], PutU16(n)[1]) == n
  {
  }

  lemma HeadBack(b: Base, forTicket: bool, rest: seq<byte>, known: Known)
    requires b.sslVersion < U16 && b.cipher < U16 && |b.id| <= 32 && |b.masterKey| <= 48 && b.time < U64 && b.timeout < U32
    requires b.sslVersion in known.versions && b.cipher in known.ciphers
    ensures ParseHead(Head(b, forTicket) + rest, known) == Some(Rest(if forTicket then b.(id := []) else b, rest))
  {
    var id := if forTicket then [] else b.id;
    HeadSplit(b, forTicket, rest);
    KeysBack(b, id, rest);
    var r1 := Octets(id) + (Octets(b.masterKey) + (Element(Context(1), UInt(b.time)) + (Element(Context(2), UInt(b.timeout)) + rest)));
    OctetsBack(PutU16(b.cipher), 2, r1);
    U16Back(b.cipher);
    var r2 := Octets(PutU16(b.cipher)) + r1;
    TakeInvertsUInt(b.sslVersion, r2);
    TakeInvertsUInt(1, UInt(b.sslVersion) + r2);
  }

  // The optional fields' values

  /** A string that may be missing, of at most max bytes; missing is empty. */
  function GetBounded(o: Option<seq<byte>>, max: nat): Option<seq<byte>> {
    match GetString(o)
    case None => None
    case Some(v) => if v.None? then Some([]) else if |v.value| > max then None else Some(v.value)
  }

  /** A stored string that is empty is as good as none. */
  function Stowed(s: Option<seq<byte>>): Option<seq<byte>> {
    if s == Some([]) then None else s
  }

  function GetStowed(o: Option<seq<byte>>): Option<Option<seq<byte>>> {
    match GetString(o)
    case None => None
    case Some(v) => Some(Stowed(v))
  }

  /** The leaf and the rest of the chain: a chain needs a leaf, and neither may be empty. */
  function GetCerts(leaf: Option<seq<byte>>, chain: Option<seq<byte>>): Option<seq<seq<byte>>> {
    if leaf == Some([]) || chain == Some([]) || (chain.Some? && leaf.None?) then None
    else if leaf.None? then Some([])
    else if chain.None? then Some([leaf.value])
    else
      match SplitChain(chain.value)
      case None => None
      case Some(more) => Some([leaf.value] + more)
  }

  function GetAge(o: Option<seq<byte>>): Option<Option<nat>> {
    match GetString(o)
    case None => None
    case Some(v) =>
      if v.None? then Some(None)
      else if |v.value| != 4 then None
      else Some(Some(GetU16(v.value[0], v.value[1]) * U16 + GetU16(v.value[2], v.value[3])))
  }

  function GetHash(o: Option<seq<byte>>): Option<Option<seq<byte>>> {
    match GetString(o)
    case None => None
    case Some(v) => if v.Some? && |v.value| != 32 then None else Some(v)
  }

  function GetIdentity(o: Option<seq<byte>>): Option<Option<seq<byte>>> {
    match GetString(o)
    case None => None
    case Some(v) => if v.Some? && 0 in v.value then None else Some(v)
  }

  function PeerFrom(leaf: Option<seq<byte>>, chain: Option<seq<byte>>, sha: Option<seq<byte>>, sct: Option<seq<byte>>, ocsp: Option<seq<byte>>): Option<Peer> {
    var certs, hash, s, o := GetCerts(leaf, chain), GetHash(sha), GetString(sct), GetString(ocsp);
    if certs.None? || hash.None? || s.None? || o.None? then None else Some(Peer(certs.value, hash.value, s.value, o.value))
  }

  function TicketingFrom(hint: Option<seq<byte>>, ticket: Option<seq<byte>>, age: Option<seq<byte>>, early: Option<seq<byte>>, alpn: Option<seq<byte>>): Option<Ticketing> {
    var h, t, g, e, a := GetNumber(hint, 0, U32 - 1), GetStowed(ticket), GetAge(age), GetNumber(early, 0, U32 - 1), GetStowed(alpn);
    if h.None? || t.None? || g.None? || e.None? || a.None? then None else Some(Ticketing(h.value, t.value, g.value, e.value, a.value))
  }

  function IdentityFrom(ctx: Option<seq<byte>>, verify: Option<seq<byte>>, psk: Option<seq<byte>>, hash: Option<seq<byte>>, ems: Option<seq<byte>>): Option<Identity> {
    var c, v, p, h, m := GetBounded(ctx, 32), GetNumber(verify, 0, LONG_MAX), GetIdentity(psk), GetBounded(hash, 64), GetFlag(ems, false);
    if c.None? || v.None? || p.None? || h.None? || m.None? then None else Some(Identity(c.value, v.value, p.value, h.value, m.value))
  }

  function ExtrasFrom(group: Option<seq<byte>>, server: Option<seq<byte>>, sig: Option<seq<byte>>, auth: Option<seq<byte>>, timeout: nat): Option<Extras> {
    var g, i, s, a := GetNumber(group, 0, U16 - 1), GetFlag(server, true), GetNumber(sig, 0, U16 - 1), GetNumber(auth, timeout, U32 - 1);
    if g.None? || i.None? || s.None? || a.None? then None else Some(Extras(g.value, i.value, s.value, a.value))
  }

  lemma TagsSmall()
    ensures forall i | 0 <= i < |TAGS| :: TAGS[i] < 31
  {
  }

  datatype Parsed = Parsed(base: Base, fields: seq<Option<seq<byte>>>)

  /** The mandatory fields, the optional ones, and nothing after them. */
  function ParseBody(s: seq<byte>, known: Known): Option<Parsed> {
    TagsSmall();
    match ParseHead(s, known)
    case None => None
    case Some(h) =>
      match ParseFields(h.rest, TAGS)
      case None => None
      case Some(f) => Some(Parsed(h.value, f))
  }

  /** The session the fields make up. */
  function FromFields(b: Base, f: seq<Option<seq<byte>>>): Option<Session> {
    if |f| != 20 then None
    else
      var p, t := PeerFrom(f[0], f[13], f[7], f[9], f[10]), TicketingFrom(f[5], f[6], f[14], f[17], f[19]);
      var i, x := IdentityFrom(f[1], f[2], f[4], f[8], f[11]), ExtrasFrom(f[12], f[15], f[16], f[18], b.timeout);
      if p.None? || t.None? || i.None? || x.None? then None else Some(Session(b, p.value, t.value, i.value, x.value))
  }

  /** SSL_SESSION_parse: the session and what follows it. */
  function Parse(s: seq<byte>, known: Known): Option<Rest<Session>> {
    match Take(s)
    case None => None
    case Some(e) =>
      if e.tag != SEQUENCE then None
      else
        match ParseBody(e.body, known)
        case None => None
        case Some(p) =>
          match FromFields(p.base, p.fields)
          case None => None
          case Some(session) => Some(Rest(session, e.rest))
  }

  /** What a session comes back as: without certificates if their hash is kept, and with empty strings as none. */
  function Normal(s: Session): Session {
    s.(p := s.p.(certs := Shown(s.p)), t := s.t.(ticket := Stowed(s.t.ticket), alpn := Stowed(s.t.alpn)))
  }

  function ForTicket(s: Session, forTicket: bool): Session {
    if forTicket then s.(b := s.b.(id := []), t := s.t.(ticket := None)) else s
  }

  lemma PeerBack(p: Peer)
    requires Short(p.sct) && Short(p.ocsp) && (p.sha256.Some? ==> |p.sha256.value| == 32)
    requires (p.certs != [] ==> p.certs[0] != []) && forall i | 1 <= i < |p.certs| :: OneElement(p.certs[i])
    ensures var certs := Shown(p);
            PeerFrom(LeafField(certs), ChainField(certs), StringField(p.sha256), StringField(p.sct), StringField(p.ocsp)) == Some(p.(certs := certs))
  {
    StringBack(p.sha256);
    StringBack(p.sct);
    StringBack(p.ocsp);
    CertsBack(Shown(p));
  }

  lemma CertsBack(certs: seq<seq<byte>>)
    requires (certs != [] ==> certs[0] != []) && forall i | 1 <= i < |certs| :: OneElement(certs[i])
    ensures GetCerts(LeafField(certs), ChainField(certs)) == Some(certs)
  {
    if |certs| >= 2 {
      SplitInvertsChain(certs[1..]);
      assert OneElement(certs[1]);
      assert [certs[0]] + certs[1..] == certs;
    } else if |certs| == 1 {
      assert [certs[0]] == certs;
    }
  }

  lemma AgeBack(age: Option<nat>)
    requires age.Some? ==> age.value < U32
    ensures GetAge(AgeField(age)) == Some(age)
  {
    if age.Some? {
      StringBack(Some(PutU32(age.value)));
      U16Back(age.value / U16);
      U16Back(age.value % U16);
    }
  }

  lemma TicketingBack(t: Ticketing, ticket: Option<seq<byte>>)
    requires t.hint < U32 && t.maxEarlyData < U32 && (t.ageAdd.Some? ==> t.ageAdd.value < U32) && Short(ticket) && Short(t.alpn)
    ensures TicketingFrom(NumberField(t.hint, 0), StringField(ticket), AgeField(t.ageAdd), NumberField(t.maxEarlyData, 0), StringField(t.alpn))
         == Some(t.(ticket := Stowed(ticket), alpn := Stowed(t.alpn)))
  {
    NumberBack(t.hint, 0, U32 - 1);
    StringBack(ticket);
    AgeBack(t.ageAdd);
    NumberBack(t.maxEarlyData, 0, U32 - 1);
    StringBack(t.alpn);
  }

  lemma IdentityBack(i: Identity)
    requires |i.sidCtx| <= 32 && i.verifyResult <= LONG_MAX && Short(i.psk) && (i.psk.Some? ==> 0 !in i.psk.value) && |i.handshakeHash| <= 64
    ensures IdentityFrom(Some(Octets(i.sidCtx)), NumberField(i.verifyResult, 0), StringField(i.psk), StringField(NonEmpty(i.handshakeHash)),
                         FlagField(i.extendedMasterSecret, false)) == Some(i)
  {
    StringBack(Some(i.sidCtx));
    NumberBack(i.verifyResult, 0, LONG_MAX);
    StringBack(i.psk);
    StringBack(NonEmpty(i.handshakeHash));
    FlagBack(i.extendedMasterSecret, false);
  }

  lemma ExtrasBack(x: Extras, timeout: nat)
    requires x.groupId < U16 && x.signatureAlgorithm < U16 && x.authTimeout < U32
    ensures ExtrasFrom(NumberField(x.groupId, 0), FlagField(x.isServer, true), NumberField(x.signatureAlgorithm, 0),
                       NumberField(x.authTimeout, timeout), timeout) == Some(x)
  {
    NumberBack(x.groupId, 0, U16 - 1);
    FlagBack(x.isServer, true);
    NumberBack(x.signatureAlgorithm, 0, U16 - 1);
    NumberBack(x.authTimeout, timeout, U32 - 1);
  }

  lemma FieldsBack(s: Session, forTicket: bool, known: Known)
    requires WellFormed(s, known) && Fits(s)
    ensures FromFields(ForTicket(s, forTicket).b, Contents(s, forTicket, known)) == Some(ForTicket(Normal(s), forTicket))
  {
    PeerBack(s.p);
    TicketingBack(s.t, if forTicket then None else s.t.ticket);
    IdentityBack(s.i);
    ExtrasBack(s.x, s.b.timeout);
  }

  lemma BodyBack(s: Session, forTicket: bool, known: Known)
    requires Printable(s, forTicket, known)
    ensures var f := Contents(s, forTicket, known);
            ParseBody(Head(s.b, forTicket) + Optional(f), known) == Some(Parsed(ForTicket(s, forTicket).b, f))
  {
    var f := Contents(s, forTicket, known);
    HeadBack(s.b, forTicket, Optional(f), known);
    OptionalBack(f);
  }

  /**
   * Parsing a printed session returns it, normalised; the ticket form returns
   * it without session ID and ticket. Fields left out come back as their
   * defaults, the authentication timeout as the timeout.
   */
  lemma ParseInvertsPrint(s: Session, forTicket: bool, known: Known, rest: seq<byte>)
    requires Printable(s, forTicket, known)
    ensures Parse(Print(s, forTicket, known) + rest, known) == Some(Rest(ForTicket(Normal(s), forTicket), rest))
  {
    TakeInvertsElement(SEQUENCE, Head(s.b, forTicket) + Optional(Contents(s, forTicket, known)), rest);
    BodyBack(s, forTicket, known);
    FieldsBack(s, forTicket, known);
  }
}
