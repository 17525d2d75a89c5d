/**
 * The DTLS handshake fragment header of section 4.2.2 of RFC 6347, its
 * parser, and the builder that serialises a whole message as one fragment.
 */
module HandshakeHeader {
  import opened Bytes

  const HM_HEADER_LENGTH: nat := 12

  /** SSL_MAX_HANDSHAKE_FLIGHT: the messages of a flight, and of the receiver's window */
  const MAX_FLIGHT: nat := 7

  datatype Header = Header(msgType: byte, msgLen: uint24, seqNo: uint16, fragOff: uint24, fragLen: uint24)

  /** What one successful parse takes from the front of a record. */
  datatype Parsed = Parsed(hdr: Header, body: seq<byte>, rest: seq<byte>)

  function EncodeHeader(h: Header): (r: seq<byte>)
    ensures |r| == HM_HEADER_LENGTH
  {
    [h.msgType] + PutU24(h.msgLen) + PutU16(h.seqNo) + PutU24(h.fragOff) + PutU24(h.fragLen)
  }

  function ParseFragment(s: seq<byte>): (r: Option<Parsed>)
    ensures r.Some? ==> |r.value.rest| < |s| && |r.value.body| == r.value.hdr.fragLen
  {
    if |s| < HM_HEADER_LENGTH then None
    else
      var h := Header(s[0], GetU24(s[1], s[2], s[3]), GetU16(s[4], s[5]),
                      GetU24(s[6], s[7], s[8]), GetU24(s[9], s[10], s[11]));
      if |s| < HM_HEADER_LENGTH + h.fragLen then None
      else Some(Parsed(h, s[HM_HEADER_LENGTH..HM_HEADER_LENGTH + h.fragLen], s[HM_HEADER_LENGTH + h.fragLen..]))
  }

  /** Every well-formed fragment parses back to itself, whatever follows it. */
  lemma ParseInvertsEncode(h: Header, body: seq<byte>, rest: seq<byte>)
    requires |body| == h.fragLen
    ensures ParseFragment(EncodeHeader(h) + body + rest) == Some(Parsed(h, body, rest))
  {
    var s := EncodeHeader(h) + body + rest;
    assert s[..HM_HEADER_LENGTH] == EncodeHeader(h);
    assert s[0] == h.msgType;
    assert [s[1], s[2], s[3]] == PutU24(h.msgLen);
    assert [s[4], s[5]] == PutU16(h.seqNo);
    assert [s[6], s[7], s[8]] == PutU24(h.fragOff);
    assert [s[9], s[10], s[11]] == PutU24(h.fragLen);
    GetPutU24(h.msgLen);
    GetPutU16(h.seqNo);
    GetPutU24(h.fragOff);
    GetPutU24(h.fragLen);
    assert s[HM_HEADER_LENGTH..HM_HEADER_LENGTH + h.fragLen] == body;
    assert s[HM_HEADER_LENGTH + h.fragLen..] == rest;
  }

  /** The parser accepts nothing but encodings: what it returns re-encodes to its input. */
  lemma EncodeInvertsParse(s: seq<byte>)
    requires ParseFragment(s).Some?
    ensures var p := ParseFragment(s).value; s == EncodeHeader(p.hdr) + p.body + p.rest
  {
    var p := ParseFragment(s).value;
    var e := EncodeHeader(p.hdr);
    assert e == s[..HM_HEADER_LENGTH];
    assert s == s[..HM_HEADER_LENGTH] + (s[HM_HEADER_LENGTH..HM_HEADER_LENGTH + p.hdr.fragLen] + s[HM_HEADER_LENGTH + p.hdr.fragLen..]);
    assert e + p.body + p.rest == e + (p.body + p.rest);
  }

  /** A handshake fragment; its wire form is the encoded header followed by the body. */
  datatype Frag = Frag(hdr: Header, body: seq<byte>)

  function Encoded(f: Frag): seq<byte> {
    EncodeHeader(f.hdr) + f.body
  }

  /** A whole message as one fragment: this is what both sides hash. */
  function Serialize(msgType: byte, seqNo: uint16, body: seq<byte>): (r: seq<byte>)
    requires |body| < 0x100_0000
    ensures |r| == HM_HEADER_LENGTH + |body|
  {
    EncodeHeader(Header(msgType, |body|, seqNo, 0, |body|)) + body
  }

  /**
   * init_message followed by finish_message: the total length is first written
   * as zero, the fragment length is filled in when the body is complete, and
   * finishing copies the latter over the former.
   */
  method BuildMessage(msgType: byte, seqNo: uint16, body: seq<byte>) returns (msg: seq<byte>)
    requires |body| < 0x100_0000
    ensures msg == Serialize(msgType, seqNo, body)
  {
    var cbb := [msgType] + PutU24(0) + PutU16(seqNo) + PutU24(0) + PutU24(|body|) + body;
    var len3 := cbb[HM_HEADER_LENGTH - 3..HM_HEADER_LENGTH];
    assert len3 == PutU24(|body|);
    msg := cbb[..1] + len3 + cbb[4..];
    assert cbb[4..] == PutU16(seqNo) + PutU24(0) + PutU24(|body|) + body;
    assert msg == Serialize(msgType, seqNo, body);
  }
}
