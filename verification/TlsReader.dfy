/**
 * How a TLS connection turns handshake records into messages: record bodies
 * are appended to one buffer, whole messages are taken from its front, and a
 * change of keys is refused in the middle of a message. Where the record
 * boundaries lie makes no difference to the messages.
 */
module TlsReader {
  import opened Bytes

  /** The types of record that matter here. */
  datatype RecordType = HandshakeRecord | ApplicationRecord | OtherRecord

  /** What opening the next record comes to: decryption and alerts are not modelled. */
  datatype Opening = Partial | Discard | CloseNotify | Failure | Opened(kind: RecordType, body: seq<byte>)

  datatype Status = Success | NoRecord | Closed | Refused

  type Body = b: seq<byte> | |b| < 0x100_0000

  datatype Message = Message(kind: byte, body: Body) {
    function Raw(): (r: seq<byte>)
      ensures |r| == 4 + |body|
    {
      [kind] + PutU24(|body|) + body
    }
  }

  // Framing

  function Length(s: seq<byte>): uint24
    requires |s| >= 4
  {
    GetU24(s[1], s[2], s[3])
  }

  /** parse_message: the message at the front, if it is complete. */
  function Parse(s: seq<byte>): Option<Message> {
    if |s| < 4 || |s| < 4 + Length(s) then None else Some(Message(s[0], s[4..4 + Length(s)]))
  }

  /** How many bytes parse_message asks for when there is no whole message. */
  function Needed(s: seq<byte>): nat {
    if |s| < 4 then 4 else 4 + Length(s)
  }

  ghost function Wire(ms: seq<Message>): seq<byte> {
    if ms == [] then [] else ms[0].Raw() + Wire(ms[1..])
  }

  lemma LengthOfRaw(m: Message, rest: seq<byte>)
    ensures Length(m.Raw() + rest) == |m.body| && (m.Raw() + rest)[0] == m.kind
  {
    var s := m.Raw() + rest;
    assert PutU24(|m.body|) == [s[1], s[2], s[3]];
    assert PutU24(Length(s)) == [s[1], s[2], s[3]];
    U24Unique(|m.body|, Length(s));
  }

  lemma U24Unique(a: uint24, b: uint24)
    requires PutU24(a) == PutU24(b)
    ensures a == b
  {
    var x, y := PutU24(a), PutU24(b);
    assert x[0] == y[0] && x[1] == y[1] && x[2] == y[2];
  }

  lemma ParseInvertsRaw(m: Message, rest: seq<byte>)
    ensures Parse(m.Raw() + rest) == Some(m)
  {
    LengthOfRaw(m, rest);
    assert (m.Raw() + rest)[4..4 + |m.body|] == m.body;
  }

  lemma RawInvertsParse(s: seq<byte>)
    requires Parse(s).Some?
    ensures Needed(s) == |Parse(s).value.Raw()| <= |s| && s[..Needed(s)] == Parse(s).value.Raw()
  {
    var m := Parse(s).value;
    assert s[..4] == [s[0]] + PutU24(Length(s));
    assert s[..Needed(s)] == s[..4] + s[4..Needed(s)];
  }

  /** What is asked for is more than there is, and no message is complete with less. */
  lemma NeededIsLeast(s: seq<byte>, more: seq<byte>)
    requires Parse(s).None?
    ensures Needed(s) > |s| && (Parse(s + more).Some? ==> |s + more| >= Needed(s))
  {
    if |s| >= 4 {
      assert Length(s + more) == Length(s);
    }
  }

  lemma {:induction false} WireSnoc(ms: seq<Message>, m: Message)
    ensures Wire(ms + [m]) == Wire(ms) + m.Raw()
  {
    if ms == [] {
      assert [m][1..] == [];
      assert Wire([m]) == m.Raw() + Wire([]);
    } else {
      assert (ms + [m])[1..] == ms[1..] + [m];
      WireSnoc(ms[1..], m);
      assert ms[0].Raw() + (Wire(ms[1..]) + m.Raw()) == (ms[0].Raw() + Wire(ms[1..])) + m.Raw();
    }
  }

  lemma PrefixParts(p: seq<byte>, x: seq<byte>, t: seq<byte>)
    requires p + x <= t
    ensures t == p + t[|p|..] && x <= t[|p|..]
  {
    assert t[..|p|] == (p + x)[..|p|] == p;
    assert x == (p + x)[|p|..] == t[|p|..][..|x|];
  }

  lemma Tail(p: seq<byte>, y: seq<byte>)
    ensures (p + y)[|p|..] == y
  {
  }

  /** The first messages of two streams, one the beginning of the other. */
  lemma SameHead(a: Message, x: seq<byte>, b: Message, y: seq<byte>)
    requires a.Raw() + x <= b.Raw() + y
    ensures a == b && x <= y
  {
    var t := b.Raw() + y;
    PrefixParts(a.Raw(), x, t);
    ParseInvertsRaw(a, t[|a.Raw()|..]);
    ParseInvertsRaw(b, y);
    Tail(b.Raw(), y);
  }

  /** A part of a stream holds its first message exactly when it is long enough. */
  lemma ParsePart(m: Message, more: seq<byte>, left: seq<byte>)
    requires left <= m.Raw() + more
    ensures Parse(left) == if |left| < |m.Raw()| then None else Some(m)
  {
    LengthOfRaw(m, more);
    if |left| >= |m.Raw()| {
      assert left == m.Raw() + left[|m.Raw()|..];
      ParseInvertsRaw(m, left[|m.Raw()|..]);
    } else if |left| >= 4 {
      assert Length(left) == Length(m.Raw() + more);
    }
  }

  /** Taking a message off the front of what is left. */
  lemma TakeOff(taken: seq<Message>, left: seq<byte>)
    requires Parse(left).Some?
    ensures Needed(left) <= |left| && Wire(taken + [Parse(left).value]) + left[Needed(left)..] == Wire(taken) + left
  {
    RawInvertsParse(left);
    var m, n := Parse(left).value, Needed(left);
    WireSnoc(taken, m);
    assert left == left[..n] + left[n..];
    assert Wire(taken) + m.Raw() + left[n..] == Wire(taken) + (m.Raw() + left[n..]);
  }

  /**
   * Streams are framed in one way only: messages taken off a part of what was
   * sent are the first messages sent, and what is left is a part of the rest.
   */
  lemma {:induction false} FramingUnique(taken: seq<Message>, left: seq<byte>, sent: seq<Message>)
    requires Wire(taken) + left <= Wire(sent)
    ensures taken <= sent && left <= Wire(sent[|taken|..])
  {
    if taken == [] {
      assert Wire(taken) + left == left && sent[0..] == sent;
    } else {
      assert Wire(taken) + left == taken[0].Raw() + (Wire(taken[1..]) + left);
      assert sent != [];
      SameHead(taken[0], Wire(taken[1..]) + left, sent[0], Wire(sent[1..]));
      FramingUnique(taken[1..], left, sent[1..]);
      assert taken == [taken[0]] + taken[1..] && sent == [sent[0]] + sent[1..];
      assert sent[|taken|..] == sent[1..][|taken[1..]|..];
    }
  }

  /** With the stream received so far: the next message is there exactly when all its bytes are. */
  lemma NextMessageExactly(taken: seq<Message>, left: seq<byte>, sent: seq<Message>)
    requires Wire(taken) + left <= Wire(sent)
    ensures taken <= sent
    ensures |taken| == |sent| ==> left == [] && Parse(left).None?
    ensures |taken| < |sent| ==>
      Parse(left) == if |left| < |sent[|taken|].Raw()| then None else Some(sent[|taken|])
  {
    FramingUnique(taken, left, sent);
    if |taken| < |sent| {
      var rest := sent[|taken|..];
      ParsePart(rest[0], Wire(rest[1..]), left);
    }
  }

  // The connection

  /** ssl_max_handshake_message_len, up to TLS 1.2. */
  function MaxMessageLen(inInit: bool, takesChains: bool, maxCertList: nat): nat {
    if !inInit then 0
    else if takesChains && MAX_PLAIN < maxCertList then maxCertList
    else MAX_PLAIN
  }

  class MessageReader {
    var hsBuf: Option<seq<byte>>
    var hasMessage: bool
    const takesChains: bool
    const maxCertList: nat
    /** the bodies of all handshake records so far, and the messages taken off */
    ghost var received: seq<byte>
    ghost var taken: seq<Message>

    function Buffered(): seq<byte>
      reads this
    {
      if hsBuf.None? then [] else hsBuf.value
    }

    /** Nothing received is lost, and the buffer stays within one message and one record. */
    ghost predicate Valid()
      reads this
    {
      && Wire(taken) + Buffered() == received
      && (hasMessage ==> Parse(Buffered()).Some?)
      && |Buffered()| < 4 + MaxMessageLen(true, takesChains, maxCertList) + MAX_PLAIN
    }

    constructor (takesChains: bool, maxCertList: nat)
      ensures Valid() && received == [] && taken == []
    {
      hsBuf, hasMessage := None, false;
      this.takesChains, this.maxCertList := takesChains, maxCertList;
      received, taken := [], [];
    }

    /** Exactly the first message is returned, exactly if it is complete. */
    method GetMessage() returns (m: Option<Message>)
      requires Valid()
      modifies this`hasMessage
      ensures Valid() && m == Parse(Buffered()) && hasMessage == m.Some?
    {
      m := if hsBuf.None? then None else Parse(hsBuf.value);
      if m.Some? {
        hasMessage := true;
      }
    }

    /** More is accepted only behind an incomplete message within the limit. */
    predicate CanAccept(inInit: bool)
      reads this
    {
      Parse(Buffered()).None? && Needed(Buffered()) <= 4 + MaxMessageLen(inInit, takesChains, maxCertList)
    }

    /** tls_open_record, as far as it concerns the handshake. */
    method OpenRecord(x: Opening, inInit: bool) returns (r: Opening)
      requires Valid()
      ensures r == if x == CloseNotify then x
                   else if !CanAccept(inInit) || (x.Opened? && |x.body| > MAX_PLAIN) then Failure
                   else x
    {
      if x == CloseNotify {
        return x;
      }
      if !CanAccept(inInit) {
        return Failure;
      }
      if x.Opened? && |x.body| > MAX_PLAIN {
        return Failure;
      }
      return x;
    }

    /** A handshake record's whole body goes behind the buffer; nothing else does. */
    method OpenHandshake(x: Opening, inInit: bool) returns (status: Status)
      requires Valid()
      modifies this`hsBuf, this`received
      ensures Valid()
      ensures status == Success <==>
        old(CanAccept(inInit)) && x.Opened? && x.kind == HandshakeRecord && |x.body| <= MAX_PLAIN
      ensures status == NoRecord <==> old(CanAccept(inInit)) && (x == Partial || x == Discard)
      ensures status == Closed <==> x == CloseNotify
      ensures received == old(received) + if status == Success then x.body else []
      ensures Buffered() == old(Buffered()) + if status == Success then x.body else []
    {
      if hsBuf.None? {
        hsBuf := Some([]);
      }
      var r := OpenRecord(x, inInit);
      match r {
        case Partial => status := NoRecord;
        case Discard => status := NoRecord;
        case CloseNotify => status := Closed;
        case Failure => status := Refused;
        case Opened(kind, body) =>
          if kind != HandshakeRecord {
            status := Refused;
          } else {
            status := Success;
            NeededIsLeast(hsBuf.value, body);
            assert Wire(taken) + (hsBuf.value + body) == received + body;
            hsBuf, received := Some(hsBuf.value + body), received + body;
          }
      }
    }

    /** The current message is taken off the front; the rest moves up. */
    method NextMessage(inInit: bool)
      requires Valid() && Parse(Buffered()).Some?
      modifies this`hsBuf, this`hasMessage, this`taken
      ensures Valid() && !hasMessage
      ensures taken == old(taken) + [old(Parse(Buffered())).value]
      ensures Buffered() == old(Buffered())[old(Needed(Buffered()))..]
      ensures hsBuf.None? <==> !inInit && Buffered() == []
    {
      var m := Parse(hsBuf.value).value;
      RawInvertsParse(hsBuf.value);
      TakeOff(taken, hsBuf.value);
      taken := taken + [m];
      hsBuf := Some(hsBuf.value[|m.Raw()|..]);
      hasMessage := false;
      if !inInit && |hsBuf.value| == 0 {
        hsBuf := None;
      }
    }

    /** tls_has_unprocessed_handshake_data: anything buffered besides the message being processed. */
    function Unprocessed(): bool
      reads this
    {
      var msgLen := if hasMessage && Parse(Buffered()).Some? then |Parse(Buffered()).value.Raw()| else 0;
      |Buffered()| > msgLen
    }

    /** Keys change only between messages: what was received is whole messages, the last perhaps still in use. */
    method SetReadState() returns (ok: bool)
      requires Valid()
      ensures ok <==> received == Wire(taken + if hasMessage then [Parse(Buffered()).value] else [])
    {
      Boundary();
      ok := !Unprocessed();
    }

    lemma Boundary()
      requires Valid()
      ensures !Unprocessed() <==> received == Wire(taken + if hasMessage then [Parse(Buffered()).value] else [])
    {
      if hasMessage {
        var m := Parse(Buffered()).value;
        RawInvertsParse(Buffered());
        WireSnoc(taken, m);
        assert Buffered()[..|m.Raw()|] == m.Raw();
        if !Unprocessed() {
          assert Buffered() == m.Raw();
        } else {
          assert |received| > |Wire(taken + [m])|;
        }
      } else {
        assert taken + [] == taken;
        assert |received| == |Wire(taken)| + |Buffered()|;
        assert Buffered() == [] ==> Wire(taken) + [] == Wire(taken);
      }
    }

    /**
     * However the peer cut its messages into records: those taken off are the
     * first ones sent, and the next is there exactly when all its bytes are.
     */
    lemma ReadsWhatWasSent(sent: seq<Message>)
      requires Valid() && received <= Wire(sent)
      ensures taken <= sent
      ensures |taken| < |sent| ==>
        (Parse(Buffered()) == Some(sent[|taken|]) <==> |received| >= |Wire(sent[..|taken| + 1])|)
      ensures |taken| == |sent| ==> Buffered() == []
      ensures received == Wire(sent) && Parse(Buffered()).None? ==> taken == sent
    {
      NextMessageExactly(taken, Buffered(), sent);
      if |taken| < |sent| {
        assert sent[..|taken| + 1] == taken + [sent[|taken|]];
        WireSnoc(taken, sent[|taken|]);
        if received == Wire(sent) {
          WholeLeft(taken, Buffered(), sent);
        }
      }
    }
  }

  lemma WholeLeft(taken: seq<Message>, left: seq<byte>, sent: seq<Message>)
    requires taken <= sent && |taken| < |sent| && Wire(taken) + left == Wire(sent)
    ensures |left| >= |sent[|taken|].Raw()|
  {
    assert sent == taken + sent[|taken|..];
    WireConcat(taken, sent[|taken|..]);
  }

  lemma {:induction false} WireConcat(a: seq<Message>, b: seq<Message>)
    ensures Wire(a + b) == Wire(a) + Wire(b)
  {
    if a == [] {
      assert a + b == b;
    } else {
      assert (a + b)[1..] == a[1..] + b;
      WireConcat(a[1..], b);
      assert a[0].Raw() + (Wire(a[1..]) + Wire(b)) == a[0].Raw() + Wire(a[1..]) + Wire(b);
    }
  }
}
