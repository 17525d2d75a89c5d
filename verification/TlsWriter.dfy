/**
 * The outgoing side of a TLS connection: handshake records gather in a flight,
 * application records in the write buffer, and the transport takes what it will.
 */
module TlsWriter {
  import opened Bytes
  import opened SslBuffer

  const HANDSHAKE: nat := 22
  const APPLICATION_DATA: nat := 23

  const INT_MAX: nat := 0x7fff_ffff

  /** A record's plaintext. */
  datatype Plain = Plain(kind: nat, bytes: seq<byte>)

  ghost function Joined(ps: seq<Plain>): seq<byte> {
    if ps == [] then [] else Joined(ps[..|ps| - 1]) + ps[|ps| - 1].bytes
  }

  lemma JoinedSnoc(ps: seq<Plain>, p: Plain)
    ensures Joined(ps + [p]) == Joined(ps) + p.bytes
  {
    assert (ps + [p])[..|ps|] == ps;
  }

  /** The application's records, none longer than max, carry exactly these bytes. */
  ghost predicate Carries(ps: seq<Plain>, max: nat, app: seq<byte>) {
    if ps == [] then app == []
    else
      var p, init := ps[|ps| - 1], ps[..|ps| - 1];
      if p.kind != APPLICATION_DATA then Carries(init, max, app)
      else |p.bytes| <= max && |p.bytes| <= |app| && app[|app| - |p.bytes|..] == p.bytes && Carries(init, max, app[..|app| - |p.bytes|])
  }

  lemma CarriesSnoc(ps: seq<Plain>, max: nat, app: seq<byte>, p: Plain)
    requires Carries(ps, max, app) && (p.kind == APPLICATION_DATA ==> |p.bytes| <= max)
    ensures Carries(ps + [p], max, app + if p.kind == APPLICATION_DATA then p.bytes else [])
  {
    assert (ps + [p])[..|ps|] == ps;
    if p.kind == APPLICATION_DATA {
      assert (app + p.bytes)[..|app|] == app && (app + p.bytes)[|app|..] == p.bytes;
    } else {
      assert app + [] == app;
    }
  }

  /** Records of one kind, none longer than max. */
  ghost predicate Uniform(ps: seq<Plain>, kind: nat, max: nat) {
    forall i | 0 <= i < |ps| :: ps[i].kind == kind && |ps[i].bytes| <= max
  }

  /** Byte strings, one behind the other. */
  ghost function Flat(parts: seq<seq<byte>>): seq<byte> {
    if parts == [] then [] else parts[0] + Flat(parts[1..])
  }

  lemma FlatThree(a: seq<byte>, b: seq<byte>, c: seq<byte>)
    ensures Flat([a, b, c]) == a + b + c
  {
    assert [a, b, c][1..] == [b, c] && [b, c][1..] == [c] && [c][1..] == [];
    assert Flat([c]) == c + [] == c;
    assert a + (b + c) == a + b + c;
  }

  class Connection {
    /** tls_seal_record: record number, kind and plaintext to the bytes on the wire, or a failure */
    const seal: (nat, nat, seq<byte>) -> Option<seq<byte>>
    const overhead: nat
    const maxFragment: nat
    /** what the transport answers to its i-th write: at most zero for "not now" */
    const bio: nat -> int
    var writes: nat
    var records: nat
    /** pending_flight and pending_flight_offset */
    var flight: Option<seq<byte>>
    var flightOffset: nat
    const buffer: Buffer
    /** SSL_MODE_ACCEPT_MOVING_WRITE_BUFFER and SSL_MODE_ENABLE_PARTIAL_WRITE */
    const movingBuffer: bool
    const partialWrite: bool
    /** how far an unfinished write had got: wnum */
    var written: nat
    /** the record being written: wpend_pending, wpend_tot, wpend_buf, wpend_type, wpend_ret */
    var pending: bool
    var pendingTotal: nat
    var pendingAddress: nat
    var pendingKind: nat
    var pendingResult: nat
    /** early data: the ticket's limit, and what has been written of it */
    const earlyLimit: uint16
    var earlyWritten: uint16
    var canEarlyWrite: bool
    /** all sealed bytes in sealing order, and what the transport has been given */
    ghost var sealed: seq<byte>
    ghost var wire: seq<byte>
    /** the plaintexts sealed, the application's bytes among them, and those of its current write */
    ghost var log: seq<Plain>
    ghost var app: seq<byte>
    ghost var done: seq<byte>

    ghost predicate Logged()
      reads this`log, this`app
    {
      Carries(log, maxFragment, app)
    }

    /** A transport that takes all it is given, and sealing that never fails. */
    ghost predicate Eager() {
      && (forall i :: bio(i) >= 0x1_0000)
      && (forall n, kind, bytes :: seal(n, kind, bytes).Some? && |seal(n, kind, bytes).value| <= |bytes| + overhead)
    }

    ghost predicate Valid()
      reads this`flight, this`flightOffset, this`sealed, this`wire, buffer, buffer.data
    {
      && buffer.Valid() && buffer.Snug() && maxFragment > 0 && Placed()
      && sealed == Flat([wire, buffer.contents, Unflushed()])
    }

    predicate Placed()
      reads this`flight, this`flightOffset
    {
      if flight.None? then flightOffset == 0 else flightOffset <= |flight.value|
    }

    /** The flight's bytes not yet given to the transport. */
    ghost function Unflushed(): seq<byte>
      requires Placed()
      reads this`flight, this`flightOffset
    {
      if flight.None? then [] else flight.value[flightOffset..]
    }

    constructor (seal: (nat, nat, seq<byte>) -> Option<seq<byte>>, overhead: nat, maxFragment: nat, bio: nat -> int,
                 movingBuffer: bool, partialWrite: bool, earlyLimit: uint16)
      requires maxFragment > 0
      ensures Valid() && earlyWritten == 0 && fresh(buffer) && fresh(buffer.data) && wire == [] && log == [] && app == [] && Logged()
      ensures written == 0 && !pending && done == [] && flight.None? && buffer.contents == []
      ensures this.seal == seal && this.overhead == overhead && this.maxFragment == maxFragment && this.bio == bio
      ensures this.movingBuffer == movingBuffer && this.partialWrite == partialWrite && this.earlyLimit == earlyLimit
    {
      this.seal, this.overhead, this.maxFragment, this.bio := seal, overhead, maxFragment, bio;
      writes, records := 0, 0;
      flight, flightOffset := None, 0;
      buffer := new Buffer();
      this.movingBuffer, this.partialWrite, this.earlyLimit := movingBuffer, partialWrite, earlyLimit;
      written, pending, pendingTotal, pendingAddress, pendingKind, pendingResult := 0, false, 0, 0, 0, 0;
      earlyWritten, canEarlyWrite := 0, true;
      sealed, wire, log, app, done := [], [], [], [], [];
      FlatThree([], [], []);
    }

    /** BIO_write: the transport takes the first n bytes. */
    method BioWrite(data: seq<byte>) returns (n: int)
      modifies this`writes, this`wire
      ensures n <= |data| && wire == old(wire) + if n > 0 then data[..n] else []
      ensures bio(old(writes)) >= |data| ==> n == |data|
    {
      n := bio(writes);
      writes := writes + 1;
      if n > |data| {
        n := |data|;
      }
      if n > 0 {
        wire := wire + data[..n];
      }
    }

    /** add_record_to_flight: a record is sealed behind what the flight holds. */
    method AddRecordToFlight(kind: nat, bytes: seq<byte>) returns (ok: bool)
      requires Valid() && flightOffset == 0 && kind != APPLICATION_DATA
      modifies this`flight, this`records, this`sealed, this`log
      ensures Valid() && flightOffset == 0 && (old(Logged()) ==> Logged())
      ensures log == old(log) + if ok then [Plain(kind, bytes)] else []
      ensures ok ==> exists c :: sealed == old(sealed) + c && |c| <= |bytes| + overhead
      ensures !ok ==> sealed == old(sealed)
    {
      if flight.None? {
        flight := Some([]);
      }
      var c := seal(records, kind, bytes);
      if c.None? || |c.value| > |bytes| + overhead {
        return false;
      }
      records := records + 1;
      assert (flight.value + c.value)[0..] == flight.value[0..] + c.value;
      SealedLast(wire, buffer.contents, flight.value[0..], c.value);
      flight := Some(flight.value + c.value);
      sealed := sealed + c.value;
      if Logged() {
        CarriesSnoc(log, maxFragment, app, Plain(kind, bytes));
        assert app + [] == app;
      }
      log := log + [Plain(kind, bytes)];
      return true;
    }

    /** The next fragment of a message, from position sent on. */
    method AddFragment(msg: seq<byte>, sent: nat, ghost from: nat) returns (ok: bool, next: nat)
      requires Valid() && flightOffset == 0 && Fragmented(log, from, msg, sent, maxFragment)
      modifies this`flight, this`records, this`sealed, this`log
      ensures Valid() && flightOffset == 0 && old(log) <= log && (old(Logged()) ==> Logged())
      ensures ok ==> Fragmented(log, from, msg, next, maxFragment) && |log| > from && (next == |msg| || next > sent)
      ensures !ok ==> log == old(log)
    {
      var n := if |msg| - sent < maxFragment then |msg| - sent else maxFragment;
      ok := AddRecordToFlight(HANDSHAKE, msg[sent..sent + n]);
      next := sent + n;
      if ok {
        FragmentedMore(old(log), from, msg, sent, n, maxFragment);
      }
    }

    /** ssl3_add_message: the message's fragments become the flight's next records. */
    method AddMessage(msg: seq<byte>) returns (ok: bool)
      requires Valid() && flightOffset == 0
      modifies this`flight, this`records, this`sealed, this`log
      ensures Valid() && flightOffset == 0 && old(log) <= log && (old(Logged()) ==> Logged())
      ensures Uniform(log[|old(log)|..], HANDSHAKE, maxFragment)
      ensures ok ==> |log| > |old(log)| && Joined(log[|old(log)|..]) == msg
    {
      ghost var from := |log|;
      var sent := 0;
      ok, sent := AddFragment(msg, 0, from);
      while ok && sent < |msg|
        invariant Valid() && flightOffset == 0 && old(log) <= log && (old(Logged()) ==> Logged()) && from == |old(log)| && (ok ==> |log| > from)
        invariant if ok then Fragmented(log, from, msg, sent, maxFragment) else Uniform(log[from..], HANDSHAKE, maxFragment)
        decreases ok, |msg| - sent
      {
        ok, sent := AddFragment(msg, sent, from);
      }
      assert msg[..|msg|] == msg;
    }

    /** The first n bytes of the buffer have been given to the transport. */
    method Shed(n: nat, ghost before: seq<byte>)
      requires buffer.Valid() && buffer.Snug() && maxFragment > 0 && Placed() && 0 < n <= buffer.size
      requires wire == before + buffer.contents[..n] && sealed == Flat([before, buffer.contents, Unflushed()])
      modifies buffer
      ensures Valid() && buffer.data == old(buffer.data) && buffer.size == old(buffer.size) - n
    {
      Given(before, buffer.contents, Unflushed(), n);
      buffer.Consume(n);
    }

    /** Some of the buffer is given to the transport. */
    method GiveBuffer() returns (ret: int)
      requires Valid() && buffer.size > 0
      modifies this`writes, this`wire, buffer
      ensures Valid() && old(wire) <= wire && buffer.data == old(buffer.data)
      ensures ret > 0 ==> buffer.size < old(buffer.size)
      ensures Eager() ==> ret > 0
    {
      var data := buffer.Pending();
      ret := BioWrite(data);
      if ret > 0 {
        Shed(ret, old(wire));
      }
    }

    /** tls_write_buffer_flush: until the buffer is empty or the transport takes no more. */
    method FlushBuffer() returns (ret: int)
      requires Valid()
      modifies this`writes, this`wire, buffer
      ensures Valid() && old(wire) <= wire && (buffer.data == old(buffer.data) || fresh(buffer.data))
      ensures ret > 0 ==> buffer.contents == []
      ensures Eager() ==> ret > 0
    {
      while buffer.size > 0
        invariant Valid() && old(wire) <= wire && buffer.data == old(buffer.data)
        decreases buffer.size
      {
        ret := GiveBuffer();
        if ret <= 0 {
          return;
        }
      }
      buffer.Clear();
      ret := 1;
    }

    /** Some of the flight is given to the transport. */
    method GiveFlight() returns (ret: int)
      requires Valid() && buffer.contents == [] && flight.Some? && flightOffset < |flight.value|
      modifies this`writes, this`wire, this`flightOffset
      ensures Valid() && old(wire) <= wire
      ensures if ret > 0 then flightOffset == old(flightOffset) + ret else flightOffset == old(flightOffset)
    {
      ret := BioWrite(flight.value[flightOffset..]);
      if ret > 0 {
        GivenBehind(old(wire), flight.value[flightOffset..], ret);
        flightOffset := flightOffset + ret;
        assert flight.value[old(flightOffset)..][ret..] == flight.value[flightOffset..];
      }
    }

    /** The flight is given to the transport until it is done or the transport takes no more. */
    method GiveWholeFlight() returns (ret: int)
      requires Valid() && buffer.contents == [] && flight.Some?
      modifies this`writes, this`wire, this`flightOffset
      ensures Valid() && old(wire) <= wire
      ensures ret > 0 ==> flightOffset == |flight.value|
    {
      ret := 1;
      while flightOffset < |flight.value|
        invariant Valid() && old(wire) <= wire && ret > 0
        decreases |flight.value| - flightOffset
      {
        ret := GiveFlight();
        if ret <= 0 {
          break;
        }
      }
    }

    /** The flight is done with if the transport can be flushed. */
    method FinishFlight() returns (ret: int)
      requires Valid() && flight.Some? && flightOffset == |flight.value| && buffer.contents == []
      modifies this`writes, this`flight, this`flightOffset
      ensures Valid() && (ret > 0 ==> wire == sealed && flight.None?)
    {
      ret := bio(writes);
      writes := writes + 1;
      if ret <= 0 {
        return -1;
      }
      assert Unflushed() == [];
      FlatThree(wire, [], []);
      flight, flightOffset := None, 0;
      ret := 1;
    }

    /**
     * ssl3_flush_flight: what waits in the buffer goes first, then the flight.
     * On success nothing sealed is left behind.
     */
    method FlushFlight(shutdown: bool) returns (ret: int)
      requires Valid()
      modifies this`writes, this`wire, this`flight, this`flightOffset, buffer
      ensures Valid() && old(wire) <= wire && (buffer.data == old(buffer.data) || fresh(buffer.data))
      ensures ret > 0 && old(flight.Some?) ==> wire == sealed && flight.None?
      ensures old(flight.None?) ==> ret == 1 && wire == old(wire)
      ensures old(flight.Some?) && (shutdown || old(|flight.value|) > INT_MAX) ==> ret == -1 && wire == old(wire) && flight == old(flight)
    {
      ret := 1;
      if flight.Some? {
        if shutdown || |flight.value| > INT_MAX {
          ret := -1;
        } else {
          if buffer.size > 0 {
            ret := FlushBuffer();
          }
          if ret > 0 {
            ret := GiveWholeFlight();
          }
          if ret > 0 {
            ret := FinishFlight();
          }
        }
      }
    }

    // Application data

    function FlightLen(): nat
      requires Placed()
      reads this`flight, this`flightOffset
    {
      if flight.None? then 0 else |flight.value| - flightOffset
    }

    /** The flight and any record fit the buffer. */
    predicate Fits()
      reads this`flight, this`flightOffset
    {
      maxFragment <= MAX_PLAIN && Placed() && MAX_PLAIN + overhead + FlightLen() + SLACK <= 0xffff
    }

    /** The flight and any record fit the 16-bit buffer with its slack, or no record at all does. */
    predicate Roomy()
      reads this`flight, this`flightOffset
    {
      && maxFragment <= MAX_PLAIN && Placed() && MAX_PLAIN + overhead + SLACK <= 0xffff
      && (Fits() || FlightLen() + overhead >= 0xffff)
    }

    /** A record of that length and the flight fit the buffer with its slack, or not at all. */
    predicate Admissible(len: nat)
      requires Placed()
      reads this`flight, this`flightOffset
    {
      len + overhead + FlightLen() > 0xffff || len + overhead + FlightLen() + SLACK <= 0xffff
    }

    /** The plaintext bytes of the record being written. */
    function PendingLen(): nat
      reads this`pending, this`pendingTotal
    {
      if pending then pendingTotal else 0
    }

    predicate PendingKept()
      reads this`pending, this`pendingTotal, this`pendingResult
    {
      pending ==> pendingTotal > 0 && pendingResult == pendingTotal
    }

    predicate Resting(pending: bool, total: nat, address: nat, kind: nat)
      reads this`pending, this`pendingTotal, this`pendingAddress, this`pendingKind
    {
      this.pending == pending && pendingTotal == total && pendingAddress == address && pendingKind == kind
    }

    /** A retry of the record being written: from the same place unless moves are allowed. */
    predicate Matches(kind: nat, len: nat, address: nat)
      reads this`pendingTotal, this`pendingAddress, this`pendingKind
    {
      pendingTotal <= len && (movingBuffer || pendingAddress == address) && pendingKind == kind
    }

    /** ssl3_write_pending: the same record is to be finished. */
    method WritePending(kind: nat, len: nat, address: nat) returns (ret: int)
      requires Valid() && pending && pendingResult > 0
      modifies this`writes, this`wire, this`pending, buffer
      ensures Valid() && old(wire) <= wire && (buffer.data == old(buffer.data) || fresh(buffer.data))
      ensures if ret > 0 then !pending && ret == pendingResult && pendingTotal <= len && buffer.contents == [] else pending
      ensures !Matches(kind, len, address) ==> ret == -1 && wire == old(wire)
      ensures Matches(kind, len, address) && Eager() ==> ret > 0
    {
      if pendingTotal > len || (!movingBuffer && pendingAddress != address) || pendingKind != kind {
        return -1;
      }
      ret := FlushBuffer();
      if ret <= 0 {
        return;
      }
      pending := false;
      ret := pendingResult;
    }

    /** An unflushed flight goes into the buffer ahead of the record. */
    method TakeFlight()
      requires Valid() && buffer.contents == [] && buffer.cap >= |Unflushed()|
      modifies this`flight, this`flightOffset, buffer, buffer.data
      ensures Valid() && flight.None? && buffer.data == old(buffer.data) && buffer.cap == old(buffer.cap)
      ensures buffer.contents == old(Unflushed())
    {
      if flight.Some? {
        var rest := flight.value[flightOffset..];
        flight, flightOffset := None, 0;
        Moved(wire, rest);
        buffer.Append(rest);
      }
    }

    /** Room is made for a record of len bytes, behind the flight. */
    method Prepare(len: nat, address: nat) returns (ok: bool)
      requires Valid() && Admissible(len) && buffer.size == 0
      modifies this`flight, this`flightOffset, buffer, buffer.data
      ensures Valid() && (buffer.data == old(buffer.data) || fresh(buffer.data))
      ensures ok <==> len + overhead + old(FlightLen()) <= 0xffff
      ensures ok ==> flight.None? && buffer.contents == old(Unflushed()) && buffer.cap - buffer.size >= len + overhead
      ensures !ok ==> flight == old(flight) && flightOffset == old(flightOffset)
    {
      var flightLen := FlightLen();
      ok := buffer.EnsureCap(flightLen, len + overhead + flightLen, address);
      if ok {
        TakeFlight();
      }
    }

    /** Sealed bytes join the buffer. */
    method Store(c: seq<byte>)
      requires Valid() && flight.None? && |c| <= buffer.cap - buffer.size
      modifies this`sealed, buffer, buffer.data
      ensures Valid() && buffer.data == old(buffer.data)
    {
      SealedBehind(wire, buffer.contents, c);
      buffer.Append(c);
      sealed := sealed + c;
    }

    /** A record is sealed into the buffer. */
    method AppendRecord(kind: nat, bytes: seq<byte>, address: nat) returns (ok: bool)
      requires Valid() && flight.None? && !pending && 0 < |bytes|
      modifies this`records, this`sealed, this`log, this`app,
               this`pending, this`pendingTotal, this`pendingAddress, this`pendingKind, this`pendingResult, buffer, buffer.data
      ensures Valid() && buffer.data == old(buffer.data)
      ensures if ok then Sealed(old(app), kind, bytes) && Matches(kind, |bytes|, address) else Still(old(app))
      ensures old(Logged()) && |bytes| <= maxFragment ==> Logged()
      ensures Eager() && old(buffer.cap - buffer.size) >= |bytes| + overhead ==> ok
    {
      var c := seal(records, kind, bytes);
      ok := c.Some? && |c.value| <= buffer.cap - buffer.size;
      if ok {
        records := records + 1;
        Store(c.value);
        Note(kind, bytes);
        Remember(kind, |bytes|, address);
      }
    }

    /** The record's arguments are kept, to recognise retries. */
    method Remember(kind: nat, len: nat, address: nat)
      modifies this`pending, this`pendingTotal, this`pendingAddress, this`pendingKind, this`pendingResult
      ensures pending && pendingTotal == len == pendingResult && Matches(kind, len, address)
    {
      pending, pendingTotal, pendingAddress, pendingKind, pendingResult := true, len, address, kind, len;
    }

    /** The plaintext is recorded. */
    ghost method Note(kind: nat, bytes: seq<byte>)
      modifies this`log, this`app
      ensures app == old(app) + if kind == APPLICATION_DATA then bytes else []
      ensures old(Logged()) && |bytes| <= maxFragment ==> Logged()
    {
      if Logged() && |bytes| <= maxFragment {
        CarriesSnoc(log, maxFragment, app, Plain(kind, bytes));
      }
      log := log + [Plain(kind, bytes)];
      app := app + if kind == APPLICATION_DATA then bytes else [];
    }

    /** A record has been sealed and waits to be written. */
    ghost predicate Sealed(app0: seq<byte>, kind: nat, bytes: seq<byte>)
      reads this`app, this`pending, this`pendingTotal, this`pendingResult
    {
      pending && pendingTotal == |bytes| == pendingResult && app == app0 + if kind == APPLICATION_DATA then bytes else []
    }

    /** No record has been sealed or waits. */
    ghost predicate Still(app0: seq<byte>)
      reads this`app, this`pending
    {
      !pending && app == app0
    }

    /** Whether a record can be written: the one being written is retried, or there is room for a new one. */
    predicate Accepts(kind: nat, len: nat, address: nat)
      requires Placed()
      reads this`pending, this`pendingTotal, this`pendingAddress, this`pendingKind, this`flight, this`flightOffset, buffer`size
    {
      if pending then Matches(kind, len, address)
      else buffer.size == 0 && 0 < len <= MAX_PLAIN && len + overhead + FlightLen() <= 0xffff
    }

    /**
     * do_ssl3_write: the pending record is finished, or a new one is sealed and
     * begun. What is not accepted is refused without a trace; with an eager
     * transport, what is accepted is written.
     */
    method DoWrite(kind: nat, bytes: seq<byte>, address: nat, header: nat) returns (ret: int)
      requires Valid() && PendingKept() && (0 < |bytes| <= MAX_PLAIN ==> Admissible(|bytes|))
      modifies this`writes, this`wire, this`flight, this`flightOffset, this`records, this`sealed, this`log, this`app,
               this`pending, this`pendingTotal, this`pendingAddress, this`pendingKind, this`pendingResult, buffer, buffer.data
      ensures Valid() && PendingKept() && old(wire) <= wire && (buffer.data == old(buffer.data) || fresh(buffer.data))
      ensures flight.None? || (flight == old(flight) && flightOffset == old(flightOffset))
      ensures !old(Accepts(kind, |bytes|, address)) ==> ret <= 0 && app == old(app) && wire == old(wire) && PendingLen() == old(PendingLen())
      ensures Eager() && old(Accepts(kind, |bytes|, address)) ==> ret > 0
      ensures old(Logged()) && |bytes| <= maxFragment ==> Logged()
      ensures old(pending) ==> app == old(app) && if ret > 0 then ret == old(pendingTotal) <= |bytes| else PendingLen() == old(pendingTotal)
      ensures !old(pending) ==> if ret > 0 then ret == |bytes| && app == old(app) + if kind == APPLICATION_DATA then bytes else []
                                else Still(old(app)) || (|bytes| > 0 && Sealed(old(app), kind, bytes))
      ensures ret > 0 ==> !pending && buffer.contents == []
    {
      if pending {
        ret := WritePending(kind, |bytes|, address);
        return;
      }
      if |bytes| > MAX_PLAIN || buffer.size > 0 {
        return -1;
      }
      if |bytes| == 0 {
        return 0;
      }
      var ok := Prepare(|bytes|, header);
      if !ok {
        return -1;
      }
      ok := AppendRecord(kind, bytes, address);
      if !ok {
        return -1;
      }
      ret := WritePending(kind, |bytes|, address);
    }

    ghost predicate Sound()
      reads this`flight, this`flightOffset, this`sealed, this`wire, this`log, this`app, this`pending, this`pendingTotal, this`pendingResult, buffer, buffer.data
    {
      Valid() && Roomy() && PendingKept() && Logged()
    }

    predicate WithinTicket()
      reads this`earlyWritten
    {
      earlyWritten <= earlyLimit
    }

    /** The largest record allowed now: early data must stay within the ticket's limit. */
    function Largest(early: bool): nat
      reads this`earlyWritten
    {
      if early && earlyLimit >= earlyWritten && maxFragment > earlyLimit - earlyWritten then earlyLimit - earlyWritten else maxFragment
    }

    /** The next chunk of the input, of the given size, unless a record is still being written. */
    method WriteChunk(input: seq<byte>, address: nat, tot: nat, size: nat, header: nat) returns (ret: int)
      requires Sound() && tot + size <= |input| && size <= maxFragment
      modifies this`writes, this`wire, this`flight, this`flightOffset, this`records, this`sealed, this`log, this`app,
               this`pending, this`pendingTotal, this`pendingAddress, this`pendingKind, this`pendingResult, buffer, buffer.data
      ensures Sound() && old(wire) <= wire && (buffer.data == old(buffer.data) || fresh(buffer.data))
      ensures ret > 0 ==> ret <= size && !pending && buffer.size == 0
      ensures Span(old(app), app, input, tot + old(PendingLen()), tot + if ret > 0 then ret else PendingLen())
      ensures old(Fits()) ==> Fits()
      ensures !old(Accepts(APPLICATION_DATA, size, address + tot)) ==> ret <= 0 && app == old(app)
      ensures Eager() && old(Accepts(APPLICATION_DATA, size, address + tot)) ==> ret > 0 && (!old(pending) ==> ret == size)
    {
      var chunk := input[tot..tot + size];
      SpanOne(app, input, tot, size);
      SpanNone(app, input, tot + PendingLen());
      SpanOne(app, input, tot, size);
      ret := DoWrite(APPLICATION_DATA, chunk, address + tot, header);
    }

    /** How much goes into the next record. */
    function ChunkSize(left: nat, early: bool): nat
      reads this`earlyWritten
    {
      if left > Largest(early) then Largest(early) else left
    }

    /** What was written counts towards the ticket's limit. */
    method CountEarly(n: nat)
      requires earlyWritten + n <= earlyLimit
      modifies this`earlyWritten
      ensures earlyWritten == old(earlyWritten) + n && WithinTicket()
    {
      earlyWritten := (earlyWritten + n) % 0x1_0000;
    }

    /** One round of ssl3_write_app_data's loop. */
    method WriteOne(input: seq<byte>, address: nat, tot: nat, early: bool, header: nat, ghost app0: seq<byte>, ghost from: nat, ghost reached: nat)
      returns (ret: int, ghost reaches: nat)
      requires Sound() && WithinTicket() && tot <= |input| && Largest(early) > 0
      requires Span(app0, app, input, from, reached) && reached == tot + PendingLen()
      modifies this`writes, this`wire, this`flight, this`flightOffset, this`records, this`sealed, this`log, this`app, this`earlyWritten,
               this`pending, this`pendingTotal, this`pendingAddress, this`pendingKind, this`pendingResult, buffer, buffer.data
      ensures Sound() && old(wire) <= wire && (buffer.data == old(buffer.data) || fresh(buffer.data))
      ensures ret > 0 ==> tot + ret <= |input| && !pending && buffer.size == 0
      ensures Span(app0, app, input, from, reaches) && reaches == tot + if ret > 0 then ret else PendingLen()
      ensures old(Fits()) ==> Fits()
      ensures !old(AcceptsNext(|input|, address, tot, early)) ==> ret <= 0 && app == old(app)
      ensures Eager() && old(AcceptsNext(|input|, address, tot, early)) ==> ret > 0
      ensures WithinTicket() && earlyWritten == old(earlyWritten) + if ret > 0 && early then ret else 0
    {
      ghost var app1 := app;
      ret := WriteChunk(input, address, tot, ChunkSize(|input| - tot, early), header);
      reaches := tot + if ret > 0 then ret else PendingLen();
      SpanThen(app0, app1, app, input, from, reached, reaches);
      if ret > 0 && early {
        CountEarly(ret);
      }
    }

    /** Nothing waits to be written, and there is room for the flight and any record. */
    predicate Idle()
      reads this`flight, this`flightOffset, this`pending, buffer`size
    {
      Fits() && !pending && buffer.size == 0
    }

    /** The write stopped because no more early data is allowed. */
    predicate Exhausted(early: bool, ret: int)
      reads this`earlyWritten, this`flight, this`flightOffset, this`pending, buffer`size
    {
      ret == -1 && Largest(early) == 0 && Idle()
    }

    /** The next record of a write that has got to tot is accepted. */
    predicate AcceptsNext(len: nat, address: nat, tot: nat, early: bool)
      requires Placed() && tot <= len
      reads this`pending, this`pendingTotal, this`pendingAddress, this`pendingKind, this`flight, this`flightOffset, this`earlyWritten, buffer`size
    {
      Accepts(APPLICATION_DATA, ChunkSize(len - tot, early), address + tot)
    }

    /** One round of the loop, with the checks around it. */
    method WriteRound(input: seq<byte>, address: nat, tot: nat, early: bool, header: nat, ghost app0: seq<byte>, ghost from: nat, ghost reached: nat)
      returns (ret: int, next: nat, finished: bool, needsHandshake: bool, ghost reaches: nat)
      requires Sound() && WithinTicket() && tot <= |input|
      requires Span(app0, app, input, from, reached) && reached == tot + PendingLen()
      modifies this`writes, this`wire, this`flight, this`flightOffset, this`records, this`sealed, this`log, this`app, this`earlyWritten,
               this`canEarlyWrite, this`pending, this`pendingTotal, this`pendingAddress, this`pendingKind, this`pendingResult, buffer, buffer.data
      ensures Sound() && WithinTicket() && old(wire) <= wire && (buffer.data == old(buffer.data) || fresh(buffer.data))
      ensures Span(app0, app, input, from, reaches) && reaches == next + PendingLen() && tot <= next <= |input|
      ensures earlyWritten == old(earlyWritten) + (if early then next - tot else 0) && (old(Fits()) ==> Fits())
      ensures if finished then ret > 0 ==> ret == next && !pending && (partialWrite || next == |input|)
              else tot < next < |input| && !pending && buffer.size == 0
      ensures old(AcceptsNext(|input|, address, tot, early)) || (finished && ret <= 0 && app == old(app))
      ensures Eager() && old(AcceptsNext(|input|, address, tot, early)) ==> ret > 0
      ensures old(Idle() && Largest(early) == 0) ==> finished && Exhausted(early, ret)
    {
      next, needsHandshake, reaches := tot, false, reached;
      if Largest(early) == 0 {
        canEarlyWrite := false;
        ret, finished, needsHandshake := -1, true, true;
      } else {
        ret, reaches := WriteOne(input, address, tot, early, header, app0, from, reached);
        finished := ret <= 0;
        if ret > 0 {
          next := tot + ret;
          if next == |input| || partialWrite {
            ret, finished := next, true;
          }
        }
      }
    }

    /** The loop of ssl3_write_app_data, from tot on. */
    method WriteFrom(input: seq<byte>, address: nat, start: nat, early: bool, header: nat)
      returns (ret: int, tot: nat, needsHandshake: bool, ghost reaches: nat)
      requires Sound() && WithinTicket() && start <= |input|
      modifies this`writes, this`wire, this`flight, this`flightOffset, this`records, this`sealed, this`log, this`app, this`earlyWritten,
               this`canEarlyWrite, this`pending, this`pendingTotal, this`pendingAddress, this`pendingKind, this`pendingResult, buffer, buffer.data
      ensures Sound() && WithinTicket() && old(wire) <= wire && (buffer.data == old(buffer.data) || fresh(buffer.data))
      ensures Span(old(app), app, input, start + old(PendingLen()), reaches) && reaches == tot + PendingLen()
      ensures tot <= |input| && (ret > 0 ==> ret == tot && !pending && (partialWrite || tot == |input|))
      ensures old(AcceptsNext(|input|, address, start, early)) || (app == old(app) && ret <= 0)
      ensures earlyWritten == old(earlyWritten) + if early then tot - start else 0
      ensures Eager() && old(Fits() && AcceptsNext(|input|, address, start, early)) ==> ret > 0 || Exhausted(early, ret)
    {
      ret, tot, needsHandshake := 0, start, false;
      var finished := false;
      ghost var from, accepted, fits := start + PendingLen(), AcceptsNext(|input|, address, start, early), Fits();
      reaches := from;
      SpanNone(app, input, from);
      while !finished
        invariant Sound() && WithinTicket() && start <= tot <= |input| && old(wire) <= wire && (buffer.data == old(buffer.data) || fresh(buffer.data))
        invariant Span(old(app), app, input, from, reaches) && reaches == tot + PendingLen() && (fits ==> Fits())
        invariant earlyWritten == old(earlyWritten) + if early then tot - start else 0
        invariant finished ==> (accepted || (app == old(app) && ret <= 0)) && (ret > 0 ==> ret == tot && !pending && (partialWrite || tot == |input|))
        invariant finished && Eager() && fits && accepted ==> ret > 0 || Exhausted(early, ret)
        invariant !finished ==> if tot == start then app == old(app) && AcceptsNext(|input|, address, tot, early) == accepted
                                else !pending && buffer.size == 0 && accepted && tot < |input|
        decreases !finished, |input| - tot
      {
        ret, tot, finished, needsHandshake, reaches := WriteRound(input, address, tot, early, header, old(app), from, reaches);
      }
    }

    /** What has been sealed for the write is a part of the input, and as far as the connection remembers. */
    ghost predicate Remembers(input: seq<byte>)
      reads this`done, this`written, this`pending, this`pendingTotal
    {
      done <= input && |done| == written + PendingLen()
    }

    /** What a call adds to the application's bytes: the input from where it begins up to where it ends. */
    ghost predicate Adds(app0: seq<byte>, input: seq<byte>, from: nat, ret: int)
      reads this`app, this`written, this`pending, this`pendingTotal
    {
      Span(app0, app, input, from, if ret > 0 then ret else written + PendingLen())
    }

    /** Of a write of which nothing was forgotten, everything reported or remembered has been sealed, once and in order. */
    ghost predicate Conserves(app0: seq<byte>, done0: seq<byte>, input: seq<byte>, ret: int)
      reads this`app, this`done, this`written, this`pending, this`pendingTotal
    {
      && app0 <= app
      && if ret > 0 then ret <= |input| && done0 + app[|app0|..] == input[..ret] && !pending else Remembers(input)
    }

    /** Sets what is to be remembered of the write. */
    method Conclude(input: seq<byte>, ret: int, tot: nat, ghost app0: seq<byte>, ghost done0: seq<byte>, ghost from: nat)
      requires written == 0 && done == done0 && Span(app0, app, input, from, tot + PendingLen()) && (ret > 0 ==> ret == tot && !pending)
      modifies this`written, this`done
      ensures Adds(app0, input, from, ret) && written == (if ret > 0 then 0 else tot)
      ensures done0 <= input && |done0| == from ==> Conserves(app0, done0, input, ret)
      ensures app0 <= app && done == if ret > 0 then [] else done0 + app[|app0|..]
    {
      SpanJoins(app0, app, input, done, from, tot + PendingLen());
      done := if ret > 0 then [] else done + app[|app0|..];
      if ret <= 0 {
        written := tot;
      }
    }

    /** The part of ssl3_write_app_data behind its checks. */
    method ContinueWrite(input: seq<byte>, address: nat, early: bool, header: nat) returns (ret: int, needsHandshake: bool)
      requires Sound() && WithinTicket() && written <= |input|
      modifies this, buffer, buffer.data
      ensures Sound() && WithinTicket() && old(wire) <= wire && (buffer.data == old(buffer.data) || fresh(buffer.data))
      ensures ret > 0 ==> written == 0 && (partialWrite || ret == |input|)
      ensures Adds(old(app), input, old(written + PendingLen()), ret)
      ensures old(Remembers(input)) ==> Conserves(old(app), old(done), input, ret)
      ensures old(app) <= app && done == if ret > 0 then [] else old(done) + app[|old(app)|..]
      ensures old(AcceptsNext(|input|, address, written, early)) || (app == old(app) && ret <= 0)
      ensures earlyWritten == old(earlyWritten) + if early then (if ret > 0 then ret else written) - old(written) else 0
      ensures Eager() && old(Fits() && AcceptsNext(|input|, address, written, early)) ==> ret > 0 || Exhausted(early, ret)
    {
      var tot := written;
      written := 0;
      ghost var from := tot + PendingLen();
      ghost var reaches := from;
      ret, tot, needsHandshake, reaches := WriteFrom(input, address, tot, early, header);
      Conclude(input, ret, tot, old(app), old(done), from);
    }

    /**
     * ssl3_write_app_data. In every state a call seals exactly the bytes of its
     * input from behind what it remembers to have sealed up to what it reports,
     * or up to what it will remember. While nothing has been forgotten, the
     * records of all calls together are the reported part of the input. A retry
     * with less than was already done is refused, and forgets the progress.
     */
    method WriteAppData(input: seq<byte>, address: nat, shutdown: bool, early: bool, header: nat) returns (ret: int, needsHandshake: bool)
      requires Sound() && WithinTicket()
      modifies this, buffer, buffer.data
      ensures Sound() && WithinTicket() && old(wire) <= wire && (buffer.data == old(buffer.data) || fresh(buffer.data))
      ensures shutdown || |input| < old(written) ==>
        && ret == -1 && app == old(app) && log == old(log) && done == old(done) && wire == old(wire) && (old(Idle()) ==> Idle())
        && flight == old(flight) && flightOffset == old(flightOffset)
        && Resting(old(pending), old(pendingTotal), old(pendingAddress), old(pendingKind))
      ensures shutdown ==> written == old(written)
      ensures !shutdown && (|input| < old(written) || ret > 0) ==> written == 0
      ensures !shutdown && |input| >= old(written) ==>
        && Adds(old(app), input, old(written + PendingLen()), ret)
        && (old(Remembers(input)) ==> Conserves(old(app), old(done), input, ret))
        && old(app) <= app && done == if ret > 0 then [] else old(done) + app[|old(app)|..]
      ensures ret > 0 && !partialWrite ==> ret == |input|
      ensures !shutdown && |input| >= old(written) ==>
        && (old(AcceptsNext(|input|, address, written, early)) || (app == old(app) && ret <= 0))
        && (Eager() && old(Fits() && AcceptsNext(|input|, address, written, early)) ==> ret > 0 || Exhausted(early, ret))
        && earlyWritten == old(earlyWritten) + if early then (if ret > 0 then ret else written) - old(written) else 0
    {
      needsHandshake := false;
      ret := -1;
      if !shutdown {
        if |input| < written {
          written := 0;
        } else {
          ret, needsHandshake := ContinueWrite(input, address, early, header);
        }
      }
    }

    /** The next chunk of the input is the one that waits, as the connection will take it. */
    predicate Mistaken(len: nat)
      reads this`pendingTotal
    {
      movingBuffer && pendingTotal <= if len < maxFragment then len else maxFragment
    }

    /**
     * A write that has got somewhere, a retry that is too short, and another
     * with the whole input. The last is refused if a record still waits, unless
     * moves are allowed and the record fits its first chunk; otherwise it begins
     * again, and seals the bytes from behind that record once more.
     */
    method ShortRetryThenFull(input: seq<byte>, short: seq<byte>, address: nat, header: nat) returns (ret: int)
      requires Sound() && WithinTicket() && Remembers(input) && |short| < written
      requires pending ==> pendingAddress == address + written && pendingKind == APPLICATION_DATA
      modifies this, buffer, buffer.data
      ensures ret > 0 ==> Span(old(app), app, input, old(PendingLen()), ret)
      ensures old(pending) && !old(Mistaken(|input|)) ==> ret <= 0 && app == old(app)
      ensures Eager() && old(Fits() && (pending || buffer.size == 0)) ==> (ret > 0 <==> !old(pending) || old(Mistaken(|input|)))
    {
      var refused, needsHandshake := WriteAppData(short, address, false, false, header);
      ret, needsHandshake := WriteAppData(input, address, false, false, header);
    }
  }

  /** A connection with a ticket for one byte of early data, and an eager transport. */
  method TicketForOne() returns (c: Connection)
    ensures fresh(c) && fresh(c.buffer) && fresh(c.buffer.data) && c.Sound() && c.WithinTicket() && c.Eager() && c.Idle()
    ensures c.app == [] && c.written == 0 && c.earlyWritten == 0 && c.earlyLimit == 1 && c.maxFragment == 1 && !c.partialWrite
  {
    c := new Connection((_, _, bytes) => Some(bytes), 0, 1, _ => 0x1_0000, false, false, 1);
  }

  /**
   * Two bytes are written, of which the first goes out as early data. After a
   * retry with nothing, the full retry reports both, and the first has gone out
   * twice.
   */
  method FirstByteTwice(a: byte, b: byte) returns (reported: int, ghost sent: seq<byte>)
    ensures reported == 2 && sent == [a, a, b]
  {
    var c := TicketForOne();
    var ret, needsHandshake := c.WriteAppData([a, b], 0, false, true, 0);
    SpanMeans([], c.app, [a, b], 0, 1);
    ret, needsHandshake := c.WriteAppData([], 0, false, false, 0);
    ghost var before := c.app;
    reported, needsHandshake := c.WriteAppData([a, b], 0, false, false, 0);
    SpanMeans(before, c.app, [a, b], 0, 2);
    sent := c.app;
  }

  /** From position `from` on, the log holds fragments of msg that make up its first `sent` bytes. */
  ghost predicate Fragmented(log: seq<Plain>, from: nat, msg: seq<byte>, sent: nat, max: nat) {
    from <= |log| && sent <= |msg| && Uniform(log[from..], HANDSHAKE, max) && Joined(log[from..]) == msg[..sent]
  }

  lemma FragmentedMore(log: seq<Plain>, from: nat, msg: seq<byte>, sent: nat, n: nat, max: nat)
    requires Fragmented(log, from, msg, sent, max) && sent + n <= |msg| && n <= max
    ensures Fragmented(log + [Plain(HANDSHAKE, msg[sent..sent + n])], from, msg, sent + n, max)
  {
    var p := Plain(HANDSHAKE, msg[sent..sent + n]);
    assert (log + [p])[from..] == log[from..] + [p];
    JoinedSnoc(log[from..], p);
    assert msg[..sent] + msg[sent..sent + n] == msg[..sent + n];
  }

  /** What moves from the front of the buffer to the wire stays in order. */
  lemma Given(wire: seq<byte>, waiting: seq<byte>, more: seq<byte>, n: nat)
    requires n <= |waiting|
    ensures Flat([wire, waiting, more]) == Flat([wire + waiting[..n], waiting[n..], more])
  {
    FlatThree(wire, waiting, more);
    FlatThree(wire + waiting[..n], waiting[n..], more);
    assert waiting == waiting[..n] + waiting[n..];
    assert wire + (waiting[..n] + waiting[n..]) == (wire + waiting[..n]) + waiting[n..];
  }

  /** What moves from the front of the flight to the wire stays in order. */
  lemma GivenBehind(wire: seq<byte>, more: seq<byte>, n: nat)
    requires n <= |more|
    ensures Flat([wire, [], more]) == Flat([wire + more[..n], [], more[n..]])
  {
    FlatThree(wire, [], more);
    FlatThree(wire + more[..n], [], more[n..]);
    assert more == more[..n] + more[n..];
    assert wire + [] + (more[..n] + more[n..]) == (wire + more[..n]) + [] + more[n..];
  }

  lemma Moved(wire: seq<byte>, rest: seq<byte>)
    ensures Flat([wire, [], rest]) == Flat([wire, [] + rest, []])
  {
    FlatThree(wire, [], rest);
    FlatThree(wire, [] + rest, []);
  }

  lemma SealedBehind(wire: seq<byte>, waiting: seq<byte>, c: seq<byte>)
    ensures Flat([wire, waiting, []]) + c == Flat([wire, waiting + c, []])
  {
    FlatThree(wire, waiting, []);
    FlatThree(wire, waiting + c, []);
  }

  lemma SealedLast(wire: seq<byte>, waiting: seq<byte>, rest: seq<byte>, c: seq<byte>)
    ensures Flat([wire, waiting, rest]) + c == Flat([wire, waiting, rest + c])
  {
    FlatThree(wire, waiting, rest);
    FlatThree(wire, waiting, rest + c);
  }

  /** What was added to the application's bytes is the input from one position to another. */
  ghost predicate Span(app0: seq<byte>, app: seq<byte>, input: seq<byte>, from: nat, end: nat)
    decreases end
  {
    if end <= from then end == from && app == app0
    else end <= |input| && app != [] && app[|app| - 1] == input[end - 1] && Span(app0, app[..|app| - 1], input, from, end - 1)
  }

  lemma {:induction false} SpanMeans(app0: seq<byte>, app: seq<byte>, input: seq<byte>, from: nat, end: nat)
    requires Span(app0, app, input, from, end)
    ensures from <= end && (from < end ==> end <= |input|) && app == app0 + if from == end then [] else input[from..end]
    decreases end
  {
    if from < end {
      SpanMeans(app0, app[..|app| - 1], input, from, end - 1);
      assert app == app[..|app| - 1] + [input[end - 1]];
      if from < end - 1 {
        assert input[from..end] == input[from..end - 1] + [input[end - 1]];
      }
    }
  }

  lemma SpanNone(app: seq<byte>, input: seq<byte>, at: nat)
    ensures Span(app, app, input, at, at)
  {
  }

  lemma {:induction false} SpanOne(app: seq<byte>, input: seq<byte>, from: nat, size: nat)
    requires from + size <= |input|
    ensures Span(app, app + input[from..from + size], input, from, from + size)
  {
    if size == 0 {
      assert app + input[from..from] == app;
    } else {
      SpanOne(app, input, from, size - 1);
      var whole := app + input[from..from + size];
      assert whole[..|whole| - 1] == app + input[from..from + size - 1];
    }
  }

  lemma {:induction false} SpanThen(app0: seq<byte>, app1: seq<byte>, app2: seq<byte>, input: seq<byte>, from: nat, mid: nat, end: nat)
    requires Span(app0, app1, input, from, mid) && Span(app1, app2, input, mid, end)
    ensures Span(app0, app2, input, from, end)
    decreases end
  {
    if mid < end {
      SpanThen(app0, app1, app2[..|app2| - 1], input, from, mid, end - 1);
      SpanMeans(app0, app1, input, from, mid);
    }
  }

  /** Behind a prefix of the input, what was added makes a longer one. */
  lemma SpanJoins(app0: seq<byte>, app: seq<byte>, input: seq<byte>, done: seq<byte>, from: nat, end: nat)
    requires Span(app0, app, input, from, end)
    ensures app0 <= app
    ensures done <= input && |done| == from ==> end <= |input| && done + app[|app0|..] == input[..end]
  {
    SpanMeans(app0, app, input, from, end);
    if done <= input && |done| == from && from < end {
      assert input[..from] + input[from..end] == input[..end];
    }
  }
}
