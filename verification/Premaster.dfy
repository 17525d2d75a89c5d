/**
 * The server's side of the RSA key exchange: PKCS #1 padding is checked, and
 * the decrypted or a random premaster secret is selected, with masks instead
 * of branches. The result is that of the plain test of section 7.4.7.1 of
 * RFC 5246.
 */
module Premaster {
  // Masks: all ones for true, zero for false

  const CONSTTIME_TRUE_W: bv64 := 0xffff_ffff_ffff_ffff
  const CONSTTIME_TRUE_8: bv8 := 0xff

  function Msb(a: bv64): bv64 {
    0 - (a >> 63)
  }

  function IsZero(a: bv64): bv64 {
    Msb(!a & (a - 1))
  }

  function Eq(a: bv64, b: bv64): bv64 {
    IsZero(a ^ b)
  }

  function Select(mask: bv64, a: bv64, b: bv64): bv64 {
    (mask & a) | (!mask & b)
  }

  /** The conversion to uint8_t. */
  function Low(a: bv64): bv8 {
    (a & 0xff) as bv8
  }

  function IsZero8(a: bv8): bv8 {
    Low(IsZero(a as bv64))
  }

  function Eq8(a: bv8, b: bv8): bv8 {
    Low(Eq(a as bv64, b as bv64))
  }

  function Select8(mask: bv8, a: bv8, b: bv8): bv8 {
    Low(Select(mask as bv64, a as bv64, b as bv64))
  }

  function Mask8(p: bool): bv8 {
    if p then CONSTTIME_TRUE_8 else 0
  }

  /** The word-wide tests tell by all ones or all zeroes, for every word. */
  lemma MasksTell(a: bv64, b: bv64)
    ensures IsZero(a) == if a == 0 then CONSTTIME_TRUE_W else 0
    ensures Eq(a, b) == if a == b then CONSTTIME_TRUE_W else 0
    ensures Select(CONSTTIME_TRUE_W, a, b) == a && Select(0, a, b) == b
  {
    ZeroTells(a);
    ZeroTells(a ^ b);
    XorTells(a, b);
  }

  lemma ZeroTells(a: bv64)
    ensures IsZero(a) == if a == 0 then CONSTTIME_TRUE_W else 0
  {
  }

  lemma XorTells(a: bv64, b: bv64)
    ensures a ^ b == 0 <==> a == b
  {
  }

  lemma EqTells(a: bv8, b: bv8)
    ensures Eq8(a, b) == Mask8(a == b)
  {
    ZeroTells(a as bv64 ^ b as bv64);
  }

  lemma ZeroTells8(a: bv8)
    ensures IsZero8(a) == Mask8(a == 0)
  {
    ZeroTells(a as bv64);
  }

  lemma SelectTells(p: bool, a: bv8, b: bv8)
    ensures Select8(Mask8(p), a, b) == if p then a else b
  {
  }

  lemma AndTells(p: bool, q: bool)
    ensures Mask8(p) & Mask8(q) == Mask8(p && q) && Mask8(p) & !Mask8(q) == Mask8(p && !q)
  {
  }

  // The padding

  /** The length of a premaster secret. */
  const SECRET: nat := 48

  function VersionBytes(version: bv16): seq<bv8> {
    [(version >> 8) as bv8, (version & 0xff) as bv8]
  }

  /** The encryption block of section 7.2.1 of RFC 3447. */
  function Block(padding: seq<bv8>, secret: seq<bv8>): seq<bv8> {
    [0, 2] + padding + [0] + secret
  }

  /** A secret as a client with this version makes it. */
  predicate Offered(secret: seq<bv8>, version: bv16) {
    |secret| == SECRET && secret[..2] == VersionBytes(version)
  }

  predicate NonZero(padding: seq<bv8>) {
    forall i | 0 <= i < |padding| :: padding[i] != 0
  }

  /** The block was made from some padding and secret. */
  ghost predicate Conforms(block: seq<bv8>, version: bv16) {
    exists padding, secret :: NonZero(padding) && Offered(secret, version) && block == Block(padding, secret)
  }

  /** What the masks test, position by position. */
  predicate Passes(block: seq<bv8>, version: bv16, n: nat)
    requires 3 <= n && n + SECRET == |block|
  {
    && block[0] == 0 && block[1] == 2
    && NonZero(block[2..n - 1])
    && block[n - 1] == 0 && block[n] == (version >> 8) as bv8 && block[n + 1] == (version & 0xff) as bv8
  }

  lemma PassesThenConforms(block: seq<bv8>, version: bv16, n: nat)
    requires 3 <= n && n + SECRET == |block| && Passes(block, version, n)
    ensures Conforms(block, version)
  {
    var padding, secret := block[2..n - 1], block[n..];
    assert secret[..2] == VersionBytes(version);
    assert block[..2] == [0, 2];
    assert block == Block(padding, secret);
  }

  lemma BlockParts(padding: seq<bv8>, secret: seq<bv8>, n: nat)
    requires n == |padding| + 3
    ensures var block := Block(padding, secret);
            && block[0] == 0 && block[1] == 2 && block[2..n - 1] == padding && block[n - 1] == 0 && block[n..] == secret
  {
  }

  lemma PassesConforms(block: seq<bv8>, version: bv16, n: nat)
    requires 3 <= n && n + SECRET == |block|
    ensures Passes(block, version, n) <==> Conforms(block, version)
  {
    if Passes(block, version, n) {
      PassesThenConforms(block, version, n);
    }
    if Conforms(block, version) {
      var p, s :| NonZero(p) && Offered(s, version) && block == Block(p, s);
      BlockParts(p, s, n);
      assert block[n] == block[n..][0] == s[..2][0] && block[n + 1] == block[n..][1] == s[..2][1];
    }
  }

  lemma NonZeroSnoc(block: seq<bv8>, i: nat)
    requires 2 <= i < |block|
    ensures NonZero(block[2..i + 1]) <==> NonZero(block[2..i]) && block[i] != 0
  {
    var p := block[2..i + 1];
    assert p == block[2..i] + [block[i]];
    assert p[i - 2] == block[i];
    assert forall k | 0 <= k < i - 2 :: block[2..i][k] == p[k];
  }

  /** The part of the test that the loop over the padding has done. */
  method CheckPadding(block: seq<bv8>, n: nat, start: bv8, ghost before: bool) returns (good: bv8)
    requires 3 <= n <= |block| && start == Mask8(before)
    ensures good == Mask8(before && NonZero(block[2..n - 1]))
  {
    good := start;
    var i := 2;
    while i < n - 1
      invariant 2 <= i <= n - 1 && good == Mask8(before && NonZero(block[2..i]))
    {
      ZeroTells8(block[i]);
      AndTells(before && NonZero(block[2..i]), block[i] == 0);
      NonZeroSnoc(block, i);
      good := good & !IsZero8(block[i]);
      i := i + 1;
    }
  }

  method CheckBlock(block: seq<bv8>, version: bv16, n: nat) returns (good: bv8)
    requires 3 <= n && n + SECRET == |block|
    ensures good == Mask8(Passes(block, version, n))
  {
    var high, low := (version >> 8) as bv8, (version & 0xff) as bv8;
    EqTells(block[0], 0);
    EqTells(block[1], 2);
    AndTells(block[0] == 0, block[1] == 2);
    ghost var first := block[0] == 0 && block[1] == 2;
    good := CheckPadding(block, n, Eq8(block[0], 0) & Eq8(block[1], 2), first);
    ghost var padded := first && NonZero(block[2..n - 1]);
    ZeroTells8(block[n - 1]);
    AndTells(padded, block[n - 1] == 0);
    good := good & IsZero8(block[n - 1]);
    EqTells(block[n], high);
    AndTells(padded && block[n - 1] == 0, block[n] == high);
    good := good & Eq8(block[n], high);
    EqTells(block[n + 1], low);
    AndTells(padded && block[n - 1] == 0 && block[n] == high, block[n + 1] == low);
    good := good & Eq8(block[n + 1], low);
  }

  /**
   * Selects the premaster secret in place of the random one. Too small a key
   * is an error; a block that does not conform keeps the random secret.
   */
  method SelectPremaster(block: seq<bv8>, version: bv16, secret: array<bv8>) returns (ok: bool)
    requires secret.Length == SECRET
    modifies secret
    ensures ok <==> |block| >= 11 + SECRET
    ensures secret[..] == if ok && Conforms(block, version) then block[|block| - SECRET..] else old(secret[..])
  {
    ok := |block| >= 11 + secret.Length;
    if ok {
      var n := |block| - secret.Length;
      var good := CheckBlock(block, version, n);
      PassesConforms(block, version, n);
      ghost var random, conforms := secret[..], Conforms(block, version);
      var i := 0;
      while i < secret.Length
        invariant i <= SECRET
        invariant forall k | 0 <= k < i :: secret[k] == if conforms then block[n + k] else random[k]
        invariant forall k | i <= k < SECRET :: secret[k] == random[k]
      {
        SelectTells(conforms, block[n + i], secret[i]);
        secret[i] := Select8(good, block[n + i], secret[i]);
        i := i + 1;
      }
      assert forall k | 0 <= k < SECRET :: block[n..][k] == block[n + k];
    }
  }

  /** What a conforming client sent is what SelectPremaster selects. */
  lemma SecretRecovered(padding: seq<bv8>, sent: seq<bv8>, version: bv16)
    requires NonZero(padding) && |padding| >= 8 && Offered(sent, version)
    ensures var block := Block(padding, sent);
            |block| >= 11 + SECRET && Conforms(block, version) && block[|block| - SECRET..] == sent
  {
    BlockParts(padding, sent, |padding| + 3);
  }
}
