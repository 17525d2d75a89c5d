/**
 * Record protection: how nonces and additional data are built on either side
 * of an authenticated cipher, and that the two sides build the same.
 */
module AeadContext {
  import opened Bytes

  type octets = seq<byte>

  /** An authenticated cipher under some key: sealing, opening, and the lengths it promises. */
  datatype Aead = Aead(seal: (octets, octets, octets) -> octets, open: (octets, octets, octets) -> Option<octets>,
                       tagLen: nat -> nat, maxOverhead: nat, nonceLen: nat)

  /** Opening undoes sealing under the same nonce and additional data, and the tag has its length. */
  ghost predicate Correct(a: Aead) {
    forall n, d, p :: a.open(n, d, a.seal(n, d, p)) == Some(p) && |a.seal(n, d, p)| == |p| + a.tagLen(|p|)
  }

  /** Every tag has the greatest length. */
  ghost predicate FixedOverhead(a: Aead) {
    forall n: nat :: a.tagLen(n) == a.maxOverhead
  }

  datatype Context =
    | NullCipher
    | Context(aead: Aead, fixed: octets, variableLen: nat, included: bool, random: bool,
              omitLength: bool, omitVersion: bool, omitAd: bool, xorFixed: bool)

  // Create

  datatype Family = ChaCha20 | AesGcm | Stateful

  datatype Version = Ssl3 | Tls10To12 | Tls13

  /** The fixed IV lengths that ssl_cipher_get_evp_aead asks for. */
  predicate IvFits(family: Family, version: Version, iv: octets, nonceLen: nat) {
    match family
    case Stateful => version != Tls13
    case ChaCha20 => |iv| == nonceLen == 12
    case AesGcm => nonceLen == 12 && |iv| == if version == Tls13 then 12 else 4
  }

  /** SSLAEADContext::Create, once the keys are in place. */
  function Create(aead: Aead, family: Family, version: Version, iv: octets): Option<Context> {
    if !IvFits(family, version, iv, aead.nonceLen) then None
    else if family == Stateful then
      Some(Context(aead, [], aead.nonceLen, true, true, true, version == Ssl3, false, false))
    else
      var tls13 := version == Tls13;
      var xorFixed := family == ChaCha20 || tls13;
      Some(Context(aead, iv, if xorFixed then 8 else aead.nonceLen - |iv|, family == AesGcm && !tls13, false, false, false, tls13, xorFixed))
  }

  /** What Open and SealScatter take for granted. */
  predicate WellFormed(c: Context) {
    c.Context? ==>
      && (!c.random ==> c.variableLen == 8) && (!c.included ==> c.variableLen == 8) && (c.random ==> c.included)
      && (c.xorFixed ==> |c.fixed| >= c.variableLen && !c.included)
      && (if c.xorFixed then |c.fixed| else |c.fixed| + c.variableLen) == c.aead.nonceLen
  }

  /** Every configuration is well formed, and leaves the length out only for ciphers of varying overhead. */
  lemma CreateWellFormed(aead: Aead, family: Family, version: Version, iv: octets)
    ensures var c := Create(aead, family, version, iv);
            && (c.Some? <==> IvFits(family, version, iv, aead.nonceLen))
            && (c.Some? ==> WellFormed(c.value) && c.value.Context? && (c.value.omitLength <==> family == Stateful) && (c.value.omitAd <==> version == Tls13))
  {
  }

  // Nonces

  function Zeros(n: nat): octets {
    seq(n, _ => 0)
  }

  /** Exclusive or of the low k bits, bit by bit. */
  function XorBits(a: nat, b: nat, k: nat): (r: nat)
    ensures r < Pow2(k)
  {
    if k == 0 then 0 else 2 * XorBits(a / 2, b / 2, k - 1) + (a % 2 + b % 2) % 2
  }

  lemma LastBit(x: nat, p: nat, y: nat, q: nat)
    requires 2 * x + p == 2 * y + q && p < 2 && q < 2
    ensures x == y && p == q
  {
  }

  lemma SameBit(p: nat, q: nat, m: nat)
    requires p < 2 && q < 2 && m < 2 && (p + m) % 2 == (q + m) % 2
    ensures p == q
  {
  }

  /** Exclusive or with the same value cancels. */
  lemma {:induction false} XorCancels(a: nat, b: nat, m: nat, k: nat)
    requires a < Pow2(k) && b < Pow2(k) && XorBits(a, m, k) == XorBits(b, m, k)
    ensures a == b
  {
    if k > 0 {
      var x, y := XorBits(a / 2, m / 2, k - 1), XorBits(b / 2, m / 2, k - 1);
      LastBit(x, (a % 2 + m % 2) % 2, y, (b % 2 + m % 2) % 2);
      XorCancels(a / 2, b / 2, m / 2, k - 1);
      SameBit(a % 2, b % 2, m % 2);
    }
  }

  function XorByte(a: byte, b: byte): byte {
    XorBits(a, b, 8)
  }

  function Xor(a: octets, b: octets): (r: octets)
    requires |a| == |b|
    ensures |r| == |a| && forall i | 0 <= i < |r| :: r[i] == XorByte(a[i], b[i])
  {
    seq(|a|, i requires 0 <= i < |a| => XorByte(a[i], b[i]))
  }

  /** The fixed part in front, or mixed into the zero-padded variable part. */
  function Nonce(c: Context, variable: octets): octets
    requires c.Context? && WellFormed(c) && |variable| == c.variableLen
  {
    if c.xorFixed then Xor(Zeros(|c.fixed| - c.variableLen) + variable, c.fixed) else c.fixed + variable
  }

  /** The nonce, assembled in place. */
  method AssembleNonce(c: Context, variable: octets) returns (nonce: array<byte>)
    requires c.Context? && WellFormed(c) && |variable| == c.variableLen
    ensures fresh(nonce) && nonce[..] == Nonce(c, variable)
  {
    var start := if c.xorFixed then |c.fixed| - c.variableLen else |c.fixed|;
    var padded := if c.xorFixed then Zeros(start) + variable else c.fixed + variable;
    nonce := new byte[|padded|](i requires 0 <= i < |padded| => padded[i]);
    assert nonce[..] == padded;
    if c.xorFixed {
      var i := 0;
      while i < |c.fixed|
        invariant i <= |c.fixed| == nonce.Length == |padded|
        invariant forall k | 0 <= k < i :: nonce[k] == XorByte(padded[k], c.fixed[k])
        invariant forall k | i <= k < nonce.Length :: nonce[k] == padded[k]
      {
        nonce[i] := XorByte(nonce[i], c.fixed[i]);
        i := i + 1;
      }
      assert nonce[..] == Xor(padded, c.fixed);
    }
  }

  lemma XorInjective(a: octets, b: octets, k: octets)
    requires |a| == |b| == |k| && Xor(a, k) == Xor(b, k)
    ensures a == b
  {
    forall i | 0 <= i < |a| ensures a[i] == b[i] {
      assert Xor(a, k)[i] == Xor(b, k)[i];
      XorCancels(a[i], b[i], k[i], 8);
    }
  }

  /** Different variable parts, sequence numbers for one, give different nonces. */
  lemma NonceInjective(c: Context, v: octets, w: octets)
    requires c.Context? && WellFormed(c) && |v| == |w| == c.variableLen && Nonce(c, v) == Nonce(c, w)
    ensures v == w
  {
    if c.xorFixed {
      var z := Zeros(|c.fixed| - c.variableLen);
      XorInjective(z + v, z + w, c.fixed);
      assert v == (z + v)[|z|..] && w == (z + w)[|z|..];
    } else {
      assert v == (c.fixed + v)[|c.fixed|..] && w == (c.fixed + w)[|c.fixed|..];
    }
  }

  // Additional data

  function AdditionalData(c: Context, kind: byte, version: uint16, number: octets, len: nat): octets
    requires c.Context?
  {
    if c.omitAd then []
    else number + [kind] + (if c.omitVersion then [] else PutU16(version)) + (if c.omitLength then [] else PutU16(len % 0x1_0000))
  }

  lemma PutU16Injective(a: uint16, b: uint16)
    ensures PutU16(a) == PutU16(b) <==> a == b
  {
    if PutU16(a) == PutU16(b) {
      assert PutU16(a)[0] == PutU16(b)[0] && PutU16(a)[1] == PutU16(b)[1];
      assert a / 0x100 == b / 0x100 && a % 0x100 == b % 0x100;
    }
  }

  /** The additional data differ exactly if the length is in them and differs in 16 bits. */
  lemma SameAdditionalData(c: Context, kind: byte, version: uint16, number: octets, a: nat, b: nat)
    requires c.Context?
    ensures AdditionalData(c, kind, version, number, a) == AdditionalData(c, kind, version, number, b)
            <==> c.omitAd || c.omitLength || a % 0x1_0000 == b % 0x1_0000
  {
    PutU16Injective(a % 0x1_0000, b % 0x1_0000);
    if !c.omitAd && !c.omitLength {
      var front := number + [kind] + (if c.omitVersion then [] else PutU16(version));
      var x, y := PutU16(a % 0x1_0000), PutU16(b % 0x1_0000);
      assert (front + x)[|front|..] == x && (front + y)[|front|..] == y;
    }
  }

  // Seal and Open

  function ExplicitNonceLen(c: Context): nat {
    if c.Context? && c.included then c.variableLen else 0
  }

  function MaxOverhead(c: Context): nat {
    ExplicitNonceLen(c) + if c.NullCipher? then 0 else c.aead.maxOverhead
  }

  /** The variable part of the nonce: random bytes, or the sequence number. */
  function Variable(c: Context, number: octets, random: octets): octets
    requires c.Context?
  {
    if c.random then random else number
  }

  /** Seal: the variable nonce if it travels, and the sealed record. */
  function Seal(c: Context, kind: byte, version: uint16, number: octets, p: octets, random: octets): octets
    requires WellFormed(c) && |number| == 8 && (c.Context? ==> |random| == c.variableLen)
  {
    if c.NullCipher? then p
    else
      var v := Variable(c, number, random);
      (if c.included then v else []) + c.aead.seal(Nonce(c, v), AdditionalData(c, kind, version, number, |p|), p)
  }

  function Open(c: Context, kind: byte, version: uint16, number: octets, in_: octets): Option<octets>
    requires WellFormed(c) && |number| == 8
  {
    if c.NullCipher? then Some(in_)
    else if !c.omitLength && |in_| < MaxOverhead(c) then None
    else if c.included && |in_| < c.variableLen then None
    else
      var len := if c.omitLength then 0 else |in_| - MaxOverhead(c);
      var v := if c.included then in_[..c.variableLen] else number;
      c.aead.open(Nonce(c, v), AdditionalData(c, kind, version, number, len), if c.included then in_[c.variableLen..] else in_)
  }

  /** The output is exactly prefix, input and suffix long. */
  lemma SealLength(c: Context, kind: byte, version: uint16, number: octets, p: octets, random: octets)
    requires WellFormed(c) && |number| == 8 && c.Context? && |random| == c.variableLen && Correct(c.aead)
    ensures |Seal(c, kind, version, number, p, random)| == ExplicitNonceLen(c) + |p| + c.aead.tagLen(|p|)
  {
  }

  /** The receiver works out the length that the sender authenticated. */
  predicate LengthKnown(c: Context, n: nat)
    requires c.Context?
  {
    || c.omitLength
    || (n + c.aead.tagLen(n) >= c.aead.maxOverhead && (c.omitAd || (n + c.aead.tagLen(n) - c.aead.maxOverhead) % 0x1_0000 == n % 0x1_0000))
  }

  /** Both sides build the same nonce. */
  lemma OpenOfSeal(c: Context, kind: byte, version: uint16, number: octets, p: octets, random: octets)
    requires WellFormed(c) && |number| == 8 && c.Context? && |random| == c.variableLen && Correct(c.aead)
    ensures var n, v := |p| + c.aead.tagLen(|p|), Variable(c, number, random);
            Open(c, kind, version, number, Seal(c, kind, version, number, p, random)) ==
              if !c.omitLength && n < c.aead.maxOverhead then None
              else c.aead.open(Nonce(c, v), AdditionalData(c, kind, version, number, if c.omitLength then 0 else n - c.aead.maxOverhead),
                               c.aead.seal(Nonce(c, v), AdditionalData(c, kind, version, number, |p|), p))
  {
    var v := Variable(c, number, random);
    var sealed := c.aead.seal(Nonce(c, v), AdditionalData(c, kind, version, number, |p|), p);
    SealLength(c, kind, version, number, p, random);
    if c.included {
      assert (v + sealed)[..c.variableLen] == v && (v + sealed)[c.variableLen..] == sealed;
    } else {
      assert [] + sealed == sealed;
    }
  }

  /** The additional data that the receiver builds for a sealed record of n plaintext bytes. */
  function ReceiverData(c: Context, kind: byte, version: uint16, number: octets, n: nat): octets
    requires c.Context? && (c.omitLength || n + c.aead.tagLen(n) >= c.aead.maxOverhead)
  {
    AdditionalData(c, kind, version, number, if c.omitLength then 0 else n + c.aead.tagLen(n) - c.aead.maxOverhead)
  }

  /** Opening a sealed record returns the plaintext wherever the receiver works out the authenticated length. */
  lemma OpenInvertsSeal(c: Context, kind: byte, version: uint16, number: octets, p: octets, random: octets)
    requires WellFormed(c) && |number| == 8 && (c.Context? ==> |random| == c.variableLen && Correct(c.aead) && LengthKnown(c, |p|))
    ensures Open(c, kind, version, number, Seal(c, kind, version, number, p, random)) == Some(p)
  {
    if c.Context? {
      var n := |p| + c.aead.tagLen(|p|);
      OpenOfSeal(c, kind, version, number, p, random);
      SameAdditionalData(c, kind, version, number, |p|, if c.omitLength then 0 else n - c.aead.maxOverhead);
    }
  }

  /**
   * Both sides of a connection: whatever cipher family and version they are
   * configured with, a record sealed by one opens to its plaintext at the
   * other. Only the families that authenticate the length need tags of one
   * length.
   */
  lemma ConfiguredSidesAgree(aead: Aead, family: Family, version: Version, iv: octets,
                             kind: byte, wire: uint16, number: octets, p: octets, random: octets)
    requires IvFits(family, version, iv, aead.nonceLen) && Correct(aead) && (family != Stateful ==> FixedOverhead(aead))
    requires |number| == 8 && |random| == Create(aead, family, version, iv).value.variableLen
    ensures var c := Create(aead, family, version, iv).value;
            WellFormed(c) && Open(c, kind, wire, number, Seal(c, kind, wire, number, p, random)) == Some(p)
  {
    var c := Create(aead, family, version, iv).value;
    if family != Stateful {
      assert aead.tagLen(|p|) == aead.maxOverhead;
    }
    OpenInvertsSeal(c, kind, wire, number, p, random);
  }

  /**
   * The exact condition: for a cipher that does not return the plaintext under
   * the additional data the receiver builds when they differ from the sender's,
   * the plaintext comes back if and only if the length is known.
   */
  lemma OpensExactly(c: Context, kind: byte, version: uint16, number: octets, p: octets, random: octets)
    requires WellFormed(c) && |number| == 8 && c.Context? && |random| == c.variableLen && Correct(c.aead)
    requires c.omitLength || |p| + c.aead.tagLen(|p|) >= c.aead.maxOverhead ==>
      var nonce, mine := Nonce(c, Variable(c, number, random)), AdditionalData(c, kind, version, number, |p|);
      var yours := ReceiverData(c, kind, version, number, |p|);
      yours != mine ==> c.aead.open(nonce, yours, c.aead.seal(nonce, mine, p)) != Some(p)
    ensures Open(c, kind, version, number, Seal(c, kind, version, number, p, random)) == Some(p) <==> LengthKnown(c, |p|)
  {
    if LengthKnown(c, |p|) {
      OpenInvertsSeal(c, kind, version, number, p, random);
    } else {
      var n := |p| + c.aead.tagLen(|p|);
      OpenOfSeal(c, kind, version, number, p, random);
      SameAdditionalData(c, kind, version, number, |p|, if n < c.aead.maxOverhead then 0 else n - c.aead.maxOverhead);
    }
  }

  // Ciphers that meet these requirements

  function LastTwo(d: octets): (r: octets)
    ensures |r| == 2
  {
    if |d| < 2 then [0, 0] else d[|d| - 2..]
  }

  /** How many plaintext bytes a sealed record of n bytes of the cipher below has. */
  function BodyLen(n: nat, shorter: nat): nat {
    if n < 2 then 0 else if n < 2 + shorter then n - 2 else if n < 3 then 0 else n - 3
  }

  /**
   * A cipher that only authenticates the last two bytes of the additional data,
   * with a tag one byte shorter for plaintexts below some length.
   */
  function Sample(shorter: nat): Aead {
    Aead((_, d, p) => p + LastTwo(d) + (if |p| < shorter then [] else [0]),
         (_, d, s) =>
           var k := BodyLen(|s|, shorter);
           if |s| < k + 2 || s[k..k + 2] != LastTwo(d) then None else Some(s[..k]),
         n => if n < shorter then 2 else 3, 3, 12)
  }

  lemma SampleCorrect(shorter: nat)
    ensures Correct(Sample(shorter)) && (shorter == 0 ==> FixedOverhead(Sample(shorter)))
  {
    var a := Sample(shorter);
    forall n: octets, d: octets, p: octets
      ensures a.open(n, d, a.seal(n, d, p)) == Some(p) && |a.seal(n, d, p)| == |p| + a.tagLen(|p|)
    {
      var s := a.seal(n, d, p);
      assert BodyLen(|s|, shorter) == |p|;
      assert s[..|p|] == p && s[|p|..|p| + 2] == LastTwo(d);
    }
  }

  /** A TLS 1.2 AES-GCM configuration of such a cipher. */
  function SampleContext(shorter: nat): (c: Context)
    ensures c.Context? && WellFormed(c) && c.variableLen == 8 && !c.random && c.aead == Sample(shorter)
    ensures !c.omitLength && !c.omitVersion && !c.omitAd
  {
    Create(Sample(shorter), AesGcm, Tls10To12, [0, 0, 0, 0]).value
  }

  /** With tags of one length every configuration works for such a cipher; its requirements can be met. */
  lemma SampleAgrees(p: octets, kind: byte, wire: uint16, number: octets)
    requires |number| == 8
    ensures var c := SampleContext(0);
            Open(c, kind, wire, number, Seal(c, kind, wire, number, p, Zeros(8))) == Some(p)
  {
    SampleCorrect(0);
    ConfiguredSidesAgree(Sample(0), AesGcm, Tls10To12, [0, 0, 0, 0], kind, wire, number, p, Zeros(8));
  }

  lemma SampleTells(n: octets, d: octets, d': octets, x: byte)
    requires LastTwo(d) != LastTwo(d')
    ensures Sample(2).open(n, d', Sample(2).seal(n, d, [x])) == None
  {
    var s := Sample(2).seal(n, d, [x]);
    assert s == [x] + LastTwo(d);
    assert s[1..3] == LastTwo(d);
  }

  lemma LastTwoOf(front: octets, len: nat)
    ensures LastTwo(front + PutU16(len % 0x1_0000)) == PutU16(len % 0x1_0000)
  {
  }

  lemma TagsDiffer()
    ensures PutU16(0) != PutU16(1)
  {
    assert PutU16(0)[1] != PutU16(1)[1];
  }

  /** With a shorter tag for short plaintexts, a record of one byte does not open. */
  lemma VaryingTagFails(x: byte, kind: byte, wire: uint16, number: octets)
    requires |number| == 8
    ensures var c := SampleContext(2);
            Correct(c.aead) && Open(c, kind, wire, number, Seal(c, kind, wire, number, [x], Zeros(8))) == None
  {
    SampleCorrect(2);
    var c := SampleContext(2);
    OpenOfSeal(c, kind, wire, number, [x], Zeros(8));
    var front := number + [kind] + PutU16(wire);
    LastTwoOf(front, 0);
    LastTwoOf(front, 1);
    TagsDiffer();
    SampleTells(Nonce(c, number), front + PutU16(1), front + PutU16(0), x);
  }
}
