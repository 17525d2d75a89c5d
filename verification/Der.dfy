/** The DER elements that sessions are written in: one-byte tags, definite lengths. */
module Der {
  import opened Bytes

  const BOOLEAN: byte := 0x01
  const INTEGER: byte := 0x02
  const OCTET_STRING: byte := 0x04
  const SEQUENCE: byte := 0x30

  /** CBS_ASN1_CONSTRUCTED | CBS_ASN1_CONTEXT_SPECIFIC | n, as one byte. */
  function Context(n: nat): byte
    requires n < 31
  {
    0xa0 + n
  }

  // Unsigned integers, big-endian

  /** Without leading zero bytes; zero has no byte at all. */
  function Digits(n: nat): seq<byte> {
    if n == 0 then [] else Digits(n / 0x100) + [n % 0x100]
  }

  lemma {:induction false} NumberOfDigits(n: nat)
    ensures BigEndian(Digits(n)) == n && (n > 0 ==> Digits(n) != [] && Digits(n)[0] != 0)
  {
    if n > 0 {
      NumberOfDigits(n / 0x100);
      assert Digits(n)[..|Digits(n)| - 1] == Digits(n / 0x100);
    }
  }

  /** A number below 256^k has at most k digits. */
  lemma {:induction false} DigitsFit(n: nat, k: nat)
    requires n < Pow256(k)
    ensures |Digits(n)| <= k
  {
    if n > 0 {
      assert k > 0;
      DigitsFit(n / 0x100, k - 1);
    }
  }

  // Elements

  /** Lengths from 128 on take a count of bytes and then those bytes. */
  function Length(n: nat): seq<byte>
    requires n < 0x1_0000_0000
  {
    DigitsFit(n, 4);
    if n < 0x80 then [n] else [0x80 + |Digits(n)|] + Digits(n)
  }

  function Element(tag: byte, body: seq<byte>): seq<byte>
    requires |body| < 0x1_0000_0000
  {
    [tag] + Length(|body|) + body
  }

  datatype Taken = Taken(tag: byte, body: seq<byte>, rest: seq<byte>)

  /** The length of the next element's length field, its value, or None when it is not in its shortest form. */
  function TakeLength(s: seq<byte>): (r: Option<(nat, nat)>)
    ensures r.Some? ==> 1 <= r.value.0 <= |s|
  {
    if s == [] then None
    else if s[0] < 0x80 then Some((1, s[0]))
    else
      var k := s[0] - 0x80;
      if k == 0 || k > 4 || |s| < 1 + k then None
      else
        var n := BigEndian(s[1..1 + k]);
        if n < 0x80 || s[1] == 0 then None else Some((1 + k, n))
  }

  /** CBS_get_any_asn1_element, for one-byte tags. */
  function Take(s: seq<byte>): (r: Option<Taken>)
    ensures r.Some? ==> |r.value.rest| < |s|
  {
    if |s| < 2 || s[0] % 0x20 == 0x1f then None
    else
      match TakeLength(s[1..])
      case None => None
      case Some((k, n)) => if |s| < 1 + k + n then None else Some(Taken(s[0], s[1 + k..1 + k + n], s[1 + k + n..]))
  }

  lemma TakesLength(n: nat, more: seq<byte>)
    requires n < 0x1_0000_0000
    ensures TakeLength(Length(n) + more) == Some((|Length(n)|, n))
  {
    if n >= 0x80 {
      var d := Digits(n);
      NumberOfDigits(n);
      DigitsFit(n, 4);
      var s := Length(n) + more;
      assert s[0] == 0x80 + |d| && s[1..1 + |d|] == d && s[1] == d[0];
    }
  }

  /** Reading an element back gives its tag, its contents and what follows it. */
  lemma TakeInvertsElement(tag: byte, body: seq<byte>, rest: seq<byte>)
    requires |body| < 0x1_0000_0000 && tag % 0x20 != 0x1f
    ensures Take(Element(tag, body) + rest) == Some(Taken(tag, body, rest))
  {
    var s, len := Element(tag, body) + rest, Length(|body|);
    assert s[1..] == len + (body + rest);
    TakesLength(|body|, body + rest);
    var k := |len|;
    assert s[1 + k..1 + k + |body|] == body && s[1 + k + |body|..] == rest;
  }

  // Integers and booleans

  /** An INTEGER's contents; a leading zero byte keeps the number from reading as negative. */
  function UIntBody(n: nat): seq<byte> {
    var d := Digits(n);
    if d == [] then [0] else if d[0] >= 0x80 then [0] + d else d
  }

  lemma UIntBodyFits(n: nat)
    requires n < 0x1_0000_0000_0000_0000
    ensures |UIntBody(n)| <= 9
  {
    DigitsFit(n, 8);
  }

  /** CBB_add_asn1_uint64 */
  function UInt(n: nat): seq<byte>
    requires n < 0x1_0000_0000_0000_0000
  {
    UIntBodyFits(n);
    Element(INTEGER, UIntBody(n))
  }

  /** CBS_get_asn1_uint64's check of an INTEGER's contents: shortest form, not negative, at most 64 bits. */
  function TakeUIntBody(b: seq<byte>): Option<nat> {
    if b == [] || b[0] >= 0x80 || (b[0] == 0 && |b| > 1 && b[1] < 0x80) || |b| > 9 || (|b| == 9 && b[0] != 0) then None
    else Some(BigEndian(b))
  }

  lemma {:induction false} LeadingZero(d: seq<byte>)
    ensures BigEndian([0] + d) == BigEndian(d)
  {
    var s := [0] + d;
    if d == [] {
      assert s[..0] == [];
    } else {
      assert s[..|s| - 1] == [0] + d[..|d| - 1];
      LeadingZero(d[..|d| - 1]);
    }
  }

  lemma UIntBodyBack(n: nat)
    requires n < 0x1_0000_0000_0000_0000
    ensures TakeUIntBody(UIntBody(n)) == Some(n)
  {
    var d := Digits(n);
    NumberOfDigits(n);
    DigitsFit(n, 8);
    LeadingZero(d);
    if d == [] {
      assert [0] + d == [0];
    }
  }

  datatype Rest<T> = Rest(value: T, rest: seq<byte>)

  /** CBS_get_asn1_uint64 */
  function TakeUInt(s: seq<byte>): Option<Rest<nat>> {
    match Take(s)
    case None => None
    case Some(e) =>
      if e.tag != INTEGER || TakeUIntBody(e.body).None? then None else Some(Rest(TakeUIntBody(e.body).value, e.rest))
  }

  lemma TakeInvertsUInt(n: nat, rest: seq<byte>)
    requires n < 0x1_0000_0000_0000_0000
    ensures TakeUInt(UInt(n) + rest) == Some(Rest(n, rest))
  {
    UIntBodyFits(n);
    UIntBodyBack(n);
    TakeInvertsElement(INTEGER, UIntBody(n), rest);
  }

  // Optional elements with a context-specific tag, in increasing order

  datatype Field = Field(n: nat, body: Option<seq<byte>>)

  /** The tags increase, and everything fits. */
  ghost predicate Ordered(fields: seq<Field>, from: nat) {
    fields == [] || (
      && from <= fields[0].n < 31 && (fields[0].body.Some? ==> |fields[0].body.value| < 0x1_0000_0000)
      && Ordered(fields[1..], fields[0].n + 1))
  }

  /** Absent fields are left out. */
  function PrintFields(fields: seq<Field>, from: nat): seq<byte>
    requires Ordered(fields, from)
  {
    if fields == [] then []
    else (if fields[0].body.None? then [] else Element(Context(fields[0].n), fields[0].body.value)) + PrintFields(fields[1..], fields[0].n + 1)
  }

  /** CBS_get_optional_asn1: the next element if it has that tag. */
  function TakeOptional(s: seq<byte>, n: nat): Option<Rest<Option<seq<byte>>>>
    requires n < 31
  {
    if s == [] || s[0] != Context(n) then Some(Rest(None, s))
    else
      match Take(s)
      case None => None
      case Some(e) => Some(Rest(Some(e.body), e.rest))
  }

  /** The fields with these tags, in order, and nothing after them. */
  function ParseFields(s: seq<byte>, tags: seq<nat>): Option<seq<Option<seq<byte>>>>
    requires forall i | 0 <= i < |tags| :: tags[i] < 31
    decreases |tags|
  {
    if tags == [] then if s == [] then Some([]) else None
    else
      match TakeOptional(s, tags[0])
      case None => None
      case Some(r) =>
        match ParseFields(r.rest, tags[1..])
        case None => None
        case Some(more) => Some([r.value] + more)
  }

  ghost function Tags(fields: seq<Field>): seq<nat> {
    if fields == [] then [] else [fields[0].n] + Tags(fields[1..])
  }

  ghost function Bodies(fields: seq<Field>): seq<Option<seq<byte>>> {
    if fields == [] then [] else [fields[0].body] + Bodies(fields[1..])
  }

  lemma {:induction false} OrderedTags(fields: seq<Field>, from: nat)
    requires Ordered(fields, from)
    ensures forall i | 0 <= i < |Tags(fields)| :: Tags(fields)[i] < 31
  {
    if fields != [] {
      OrderedTags(fields[1..], fields[0].n + 1);
    }
  }

  /** What is printed begins with a tag not below `from`, if with anything. */
  lemma {:induction false} FirstTag(fields: seq<Field>, from: nat)
    requires Ordered(fields, from)
    ensures var s := PrintFields(fields, from); s != [] ==> 0xa0 + from <= s[0]
  {
    if fields != [] {
      FirstTag(fields[1..], fields[0].n + 1);
      if fields[0].body.None? {
        assert PrintFields(fields, from) == PrintFields(fields[1..], fields[0].n + 1);
      }
    }
  }

  /** Optional fields, printed in order, are read back exactly: present ones with their contents, absent ones as absent. */
  lemma {:induction false} ParseInvertsFields(fields: seq<Field>, from: nat)
    requires Ordered(fields, from)
    ensures forall i | 0 <= i < |Tags(fields)| :: Tags(fields)[i] < 31
    ensures ParseFields(PrintFields(fields, from), Tags(fields)) == Some(Bodies(fields))
    decreases |fields|
  {
    OrderedTags(fields, from);
    if fields != [] {
      var f, rest := fields[0], PrintFields(fields[1..], fields[0].n + 1);
      ParseInvertsFields(fields[1..], f.n + 1);
      assert Tags(fields)[1..] == Tags(fields[1..]);
      if f.body.Some? {
        TakeInvertsElement(Context(f.n), f.body.value, rest);
      } else {
        FirstTag(fields[1..], f.n + 1);
        assert PrintFields(fields, from) == rest;
      }
    }
  }
}
