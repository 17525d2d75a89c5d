/** The server's choice of a cipher, by its own or the client's preference. */
module CipherChoice {
  import opened Bytes
  import opened CipherRules
  import opened CipherParser
  import opened CipherPreference

  /** The first position of c in s. */
  function IndexOf(s: seq<Cipher>, c: Cipher): (i: nat)
    ensures i <= |s| && (c in s <==> i < |s|) && (i < |s| ==> s[i] == c)
  {
    if s == [] then 0 else if s[0] == c then 0 else 1 + IndexOf(s[1..], c)
  }

  /** The last position of the group that contains i; groups end at a clear flag. */
  ghost function EndOf(flags: seq<bool>, i: nat): (e: nat)
    requires i < |flags|
    ensures i <= e <= |flags| && (forall k | i <= k < e :: flags[k]) && (e < |flags| ==> !flags[e])
    decreases |flags| - i
  {
    if !flags[i] then i else if i + 1 == |flags| then |flags| else EndOf(flags, i + 1)
  }

  ghost predicate Acceptable(allow: seq<Cipher>, usable: Cipher -> bool, c: Cipher) {
    usable(c) && c in allow
  }

  /** The group of i has an end: only an unterminated last group has none. */
  ghost predicate Ended(flags: seq<bool>, i: nat)
    requires i < |flags|
  {
    EndOf(flags, i) < |flags|
  }

  /** No ended group before that of i has an acceptable cipher, and none in its group is sooner in allow. */
  ghost predicate Best(prio: seq<Cipher>, flags: seq<bool>, allow: seq<Cipher>, usable: Cipher -> bool, i: nat) {
    && |prio| == |flags| && i < |prio| && Acceptable(allow, usable, prio[i]) && Ended(flags, i)
    && forall k | 0 <= k < |prio| && Acceptable(allow, usable, prio[k]) ::
         && EndOf(flags, i) <= EndOf(flags, k)
         && (EndOf(flags, k) == EndOf(flags, i) ==> IndexOf(allow, prio[i]) <= IndexOf(allow, prio[k]))
  }

  /** Flags without groups, where the source passes none. */
  function Flags(prio: seq<Cipher>, flags: Option<seq<bool>>): (f: seq<bool>)
    requires flags.Some? ==> |flags.value| == |prio|
    ensures |f| == |prio| && (flags.None? ==> forall i | 0 <= i < |f| :: !f[i])
  {
    if flags.Some? then flags.value else seq(|prio|, _ => false)
  }

  /**
   * The scan of ssl3_choose_cipher. It finds a cipher exactly when an ended
   * group has an acceptable one; then it returns the one soonest in allow, of
   * the earliest such group.
   */
  method Scan(prio: seq<Cipher>, flags: Option<seq<bool>>, allow: seq<Cipher>, usable: Cipher -> bool)
    returns (r: Option<Cipher>, ghost chosen: nat)
    requires flags.Some? ==> |flags.value| == |prio|
    ensures r.None? <==> forall k | 0 <= k < |prio| ::
      !(Acceptable(allow, usable, prio[k]) && Ended(Flags(prio, flags), k))
    ensures r.Some? ==> Best(prio, Flags(prio, flags), allow, usable, chosen) && prio[chosen] == r.value
  {
    var groupMin: int := -1;
    chosen := 0;
    ghost var f := Flags(prio, flags);
    var i := 0;
    while i < |prio|
      invariant i <= |prio| && (flags.None? ==> groupMin == -1)
      invariant Gathered(prio, f, allow, usable, i, chosen, groupMin)
    {
      ghost var before, was := chosen, groupMin;
      var index := IndexOf(allow, prio[i]);
      var inGroup := flags.Some? && flags.value[i];
      if usable(prio[i]) && index < |allow| {
        if inGroup {
          if groupMin == -1 || groupMin > index {
            groupMin, chosen := index, i;
          }
        } else {
          if groupMin != -1 && groupMin < index {
            index := groupMin;
          } else {
            chosen := i;
          }
          BestAtEnd(prio, f, allow, usable, i, before, was, chosen);
          return Some(allow[index]), chosen;
        }
      }
      if flags.Some? && !flags.value[i] && groupMin != -1 {
        BestAtEnd(prio, f, allow, usable, i, before, was, chosen);
        return Some(allow[groupMin]), chosen;
      }
      GatherNext(prio, f, allow, usable, i, before, was, chosen, groupMin);
      i := i + 1;
    }
    return None, chosen;
  }

  /** Before position i: acceptable ciphers are all in the group still open, and best is the soonest in allow. */
  ghost predicate Gathered(prio: seq<Cipher>, f: seq<bool>, allow: seq<Cipher>, usable: Cipher -> bool, i: nat, best: nat, groupMin: int) {
    && |f| == |prio|
    && (forall k | 0 <= k < i && k < |prio| && Acceptable(allow, usable, prio[k]) ::
          EndOf(f, k) >= i && groupMin != -1 && groupMin <= IndexOf(allow, prio[k]))
    && (groupMin != -1 ==>
          best < i && best < |prio| && Acceptable(allow, usable, prio[best]) && groupMin == IndexOf(allow, prio[best]))
  }

  lemma GatherNext(prio: seq<Cipher>, f: seq<bool>, allow: seq<Cipher>, usable: Cipher -> bool, i: nat,
                   best: nat, groupMin: int, best': nat, groupMin': int)
    requires i < |prio| && Gathered(prio, f, allow, usable, i, best, groupMin)
    requires f[i] || (groupMin == -1 && !Acceptable(allow, usable, prio[i]))
    requires var index := IndexOf(allow, prio[i]);
             if Acceptable(allow, usable, prio[i]) && (groupMin == -1 || groupMin > index)
             then best' == i && groupMin' == index
             else best' == best && groupMin' == groupMin
    ensures Gathered(prio, f, allow, usable, i + 1, best', groupMin')
  {
    forall k | 0 <= k <= i && Acceptable(allow, usable, prio[k])
      ensures EndOf(f, k) > i && groupMin' != -1 && groupMin' <= IndexOf(allow, prio[k])
    {
    }
  }

  /** Where the open group ends, its soonest acceptable cipher is the best one. */
  lemma BestAtEnd(prio: seq<Cipher>, f: seq<bool>, allow: seq<Cipher>, usable: Cipher -> bool, i: nat, best: nat, groupMin: int, b: nat)
    requires i < |prio| && Gathered(prio, f, allow, usable, i, best, groupMin) && !f[i]
    requires var index := IndexOf(allow, prio[i]);
             if Acceptable(allow, usable, prio[i])
             then b == if groupMin != -1 && groupMin < index then best else i
             else groupMin != -1 && b == best
    ensures Best(prio, f, allow, usable, b)
  {
    assert EndOf(f, i) == i;
    assert EndOf(f, b) == i;
    forall k | 0 <= k < |prio| && Acceptable(allow, usable, prio[k])
      ensures i <= EndOf(f, k) && (EndOf(f, k) == i ==> k <= i && IndexOf(allow, prio[b]) <= IndexOf(allow, prio[k]))
    {
    }
  }

  /** With the last flag clear every group ends. */
  lemma AllEnded(flags: seq<bool>, i: nat)
    requires i < |flags| && !flags[|flags| - 1]
    ensures Ended(flags, i)
  {
  }

  /** ssl3_choose_cipher, in either mode. */
  method ChooseCipher(server: seq<Cipher>, flags: seq<bool>, client: seq<Cipher>, serverPreference: bool, usable: Cipher -> bool)
    returns (r: Option<Cipher>, ghost chosen: nat)
    requires |flags| == |server| && (flags == [] || !flags[|flags| - 1])
    ensures r.None? <==> forall c | c in server && c in client :: !usable(c)
    ensures r.Some? && serverPreference ==> Best(server, flags, client, usable, chosen) && server[chosen] == r.value
    ensures r.Some? && !serverPreference ==> IsFirst(client, server, usable, chosen) && client[chosen] == r.value
  {
    if serverPreference {
      r, chosen := Scan(server, if flags == [] then None else Some(flags), client, usable);
      forall k | 0 <= k < |server| ensures Ended(flags, k) {
        AllEnded(flags, k);
      }
    } else {
      r, chosen := Scan(client, None, server, usable);
      if r.Some? {
        BestIsFirst(client, Flags(client, None), server, usable, chosen);
      }
    }
  }

  /** i is the first position of prio whose cipher is usable and allowed. */
  ghost predicate IsFirst(prio: seq<Cipher>, allow: seq<Cipher>, usable: Cipher -> bool, i: nat) {
    i < |prio| && Acceptable(allow, usable, prio[i]) && forall k | 0 <= k < i :: !Acceptable(allow, usable, prio[k])
  }

  lemma BestIsFirst(prio: seq<Cipher>, f: seq<bool>, allow: seq<Cipher>, usable: Cipher -> bool, i: nat)
    requires Best(prio, f, allow, usable, i) && forall k | 0 <= k < |f| :: !f[k]
    ensures IsFirst(prio, allow, usable, i)
  {
    forall k | 0 <= k < |f| ensures EndOf(f, k) == k {
    }
  }

  /**
   * A server configured with a rule string and choosing by its own preference:
   * for every string that parses, it fails exactly when nothing is shared and usable.
   */
  method ConfiguredChoice(table: seq<Cipher>, t: Tables, rule: string, strict: bool, aesHardware: bool,
                          client: seq<Cipher>, usable: Cipher -> bool)
    returns (p: Option<Preference>, r: Option<Cipher>, ghost chosen: nat)
    ensures p.Some? <==> Configured(t, strict, rule).Some?
    ensures p.Some? ==> (r.None? <==> forall c | c in p.value.ciphers && c in client :: !usable(c))
    ensures p.Some? && r.Some? ==>
      Best(p.value.ciphers, p.value.flags, client, usable, chosen) && p.value.ciphers[chosen] == r.value
  {
    var ok;
    p, ok := CreateCipherList(table, t, rule, strict, aesHardware);
    r, chosen := None, 0;
    if p.Some? {
      LastFlagClear(table, aesHardware, t, strict, rule, p.value);
      r, chosen := ChooseCipher(p.value.ciphers, p.value.flags, client, true, usable);
    }
  }

  /**
   * Why the last flag matters: of a list whose last group does not end, the
   * scan finds nothing in that group, however many acceptable ciphers it has.
   */
  method UnterminatedGroupHides(prio: seq<Cipher>, flags: seq<bool>, allow: seq<Cipher>, usable: Cipher -> bool, from: nat)
    returns (r: Option<Cipher>)
    requires |flags| == |prio| && from < |prio| && forall k | from <= k < |prio| :: flags[k]
    requires forall k | 0 <= k < from :: !Acceptable(allow, usable, prio[k])
    ensures r.None?
  {
    ghost var chosen;
    r, chosen := Scan(prio, Some(flags), allow, usable);
  }
}
