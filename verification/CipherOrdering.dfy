/** What sequences of preference rules keep and establish. */
module CipherOrdering {
  import opened CipherList
  import opened CipherRules

  ghost predicate AllActive(s: seq<Entry>) {
    forall e | e in s :: e.active
  }

  ghost predicate AllInactive(s: seq<Entry>) {
    forall e | e in s :: !e.active
  }

  /** Disabled ciphers come before enabled ones. */
  ghost predicate InactiveFirst(s: seq<Entry>) {
    forall i, j | 0 <= i < j < |s| :: s[i].active ==> s[j].active
  }

  lemma {:induction false} KeptIsOrdered(rule: Rule, sel: set<nat>, s: seq<Entry>)
    requires InactiveFirst(s)
    ensures InactiveFirst(Kept(rule, sel, s))
    ensures AllActive(s) ==> AllActive(Kept(rule, sel, s))
  {
    if s != [] {
      KeptIsOrdered(rule, sel, s[1..]);
      if s[0].active {
        assert AllActive(s[1..]);
      }
    }
  }

  lemma {:induction false} MovedFlags(rule: Rule, sel: set<nat>, group: bool, s: seq<Entry>)
    ensures rule == Add || rule == Ord ==> AllActive(Moved(rule, sel, group, s))
    ensures rule == Del ==> AllInactive(Moved(rule, sel, group, s))
    ensures forall e | e in Moved(rule, sel, group, s) :: rule != Kill ==> e.inGroup == (rule == Add && group)
  {
    if s != [] {
      MovedFlags(rule, sel, group, s[1..]);
    }
  }

  /** Every rule keeps disabled ciphers in front. */
  lemma ApplyKeepsInactiveFirst(rule: Rule, sel: set<nat>, group: bool, s: seq<Entry>)
    requires InactiveFirst(s)
    ensures InactiveFirst(Apply(rule, sel, group, s))
  {
    KeptIsOrdered(rule, sel, s);
    MovedFlags(rule, sel, group, s);
  }

  ghost function IdSet(s: seq<Entry>): set<nat> {
    if s == [] then {} else {s[0].id} + IdSet(s[1..])
  }

  lemma {:induction false} IdSetConcat(a: seq<Entry>, b: seq<Entry>)
    ensures IdSet(a + b) == IdSet(a) + IdSet(b)
  {
    if a == [] {
      assert a + b == b;
    } else {
      assert (a + b)[1..] == a[1..] + b;
      IdSetConcat(a[1..], b);
    }
  }

  lemma IdSetCons(e: Entry, s: seq<Entry>)
    ensures IdSet([e] + s) == {e.id} + IdSet(s)
  {
    assert ([e] + s)[1..] == s;
  }

  lemma KeptIdsStep(rule: Rule, sel: set<nat>, s: seq<Entry>)
    requires s != []
    ensures IdSet(Kept(rule, sel, s)) == (if Hit(rule, sel, s[0]) then {} else {s[0].id}) + IdSet(Kept(rule, sel, s[1..]))
  {
    if Hit(rule, sel, s[0]) {
      assert Kept(rule, sel, s) == Kept(rule, sel, s[1..]);
    } else {
      IdSetCons(s[0], Kept(rule, sel, s[1..]));
    }
  }

  lemma MovedIdsStep(rule: Rule, sel: set<nat>, group: bool, s: seq<Entry>)
    requires s != []
    ensures IdSet(Moved(rule, sel, group, s))
         == (if Hit(rule, sel, s[0]) then {s[0].id} else {}) + IdSet(Moved(rule, sel, group, s[1..]))
  {
    if Hit(rule, sel, s[0]) {
      IdSetCons(Update(rule, group, s[0]), Moved(rule, sel, group, s[1..]));
    } else {
      assert Moved(rule, sel, group, s) == Moved(rule, sel, group, s[1..]);
    }
  }

  lemma {:induction false} KeptMovedIds(rule: Rule, sel: set<nat>, group: bool, s: seq<Entry>)
    ensures IdSet(Kept(rule, sel, s)) + IdSet(Moved(rule, sel, group, s)) == IdSet(s)
  {
    if s != [] {
      KeptIdsStep(rule, sel, s);
      MovedIdsStep(rule, sel, group, s);
      KeptMovedIds(rule, sel, group, s[1..]);
    }
  }

  lemma {:induction false} KilledIds(sel: set<nat>, s: seq<Entry>)
    ensures IdSet(Kept(Kill, sel, s)) == IdSet(s) - sel
  {
    if s != [] {
      KeptIdsStep(Kill, sel, s);
      KilledIds(sel, s[1..]);
    }
  }

  /** KILL removes exactly the selected ciphers; no other rule adds or loses one. */
  lemma ApplyIds(rule: Rule, sel: set<nat>, group: bool, s: seq<Entry>)
    ensures IdSet(Apply(rule, sel, group, s)) == if rule == Kill then IdSet(s) - sel else IdSet(s)
  {
    var k, m := Kept(rule, sel, s), Moved(rule, sel, group, s);
    KeptMovedIds(rule, sel, group, s);
    KilledIds(sel, s);
    IdSetConcat(k, m);
    IdSetConcat(m, k);
  }

  // @STRENGTH

  ghost predicate InTable(c: seq<Cipher>, s: seq<Entry>) {
    forall e | e in s :: e.id < |c|
  }

  /** Disabled entries and enabled ones of at most i bits, untouched. */
  ghost function Low(c: seq<Cipher>, s: seq<Entry>, i: int): seq<Entry>
    requires InTable(c, s)
  {
    if s == [] then []
    else (if !s[0].active || c[s[0].id].bits <= i then [s[0]] else []) + Low(c, s[1..], i)
  }

  /** Enabled entries of exactly b bits, in order, taken out of groups. */
  ghost function Bucket(c: seq<Cipher>, s: seq<Entry>, b: int): seq<Entry>
    requires InTable(c, s)
  {
    if s == [] then []
    else (if s[0].active && c[s[0].id].bits == b then [Entry(s[0].id, true, false)] else []) + Bucket(c, s[1..], b)
  }

  /** The buckets from max down to i + 1. */
  ghost function High(c: seq<Cipher>, s: seq<Entry>, i: int, max: int): seq<Entry>
    requires InTable(c, s)
    decreases max - i
  {
    if i >= max then [] else High(c, s, i + 1, max) + Bucket(c, s, i + 1)
  }

  /** The rule that @STRENGTH issues for i bits selects these table entries. */
  ghost predicate SelectsBits(c: seq<Cipher>, sel: set<nat>, i: int) {
    forall x: nat | x < |c| :: x in sel <==> c[x].bits == i
  }

  lemma {:induction false} NoHits(rule: Rule, sel: set<nat>, group: bool, t: seq<Entry>)
    requires forall e | e in t :: !Hit(rule, sel, e)
    ensures Kept(rule, sel, t) == t && Moved(rule, sel, group, t) == []
  {
    if t != [] {
      NoHits(rule, sel, group, t[1..]);
      assert t == [t[0]] + t[1..];
    }
  }

  lemma {:induction false} LowStep(c: seq<Cipher>, s: seq<Entry>, sel: set<nat>, i: int)
    requires InTable(c, s) && SelectsBits(c, sel, i)
    ensures Kept(Ord, sel, Low(c, s, i)) == Low(c, s, i - 1)
    ensures Moved(Ord, sel, false, Low(c, s, i)) == Bucket(c, s, i)
  {
    if s != [] {
      var e, rest := s[0], Low(c, s[1..], i);
      assert e in s;
      LowStep(c, s[1..], sel, i);
      if !e.active || c[e.id].bits <= i {
        KeptConcat(Ord, sel, false, [e], rest);
        Singleton(Ord, sel, false, e);
      } else {
        assert Low(c, s, i) == rest;
        assert Low(c, s, i - 1) == Low(c, s[1..], i - 1);
        assert Bucket(c, s, i) == Bucket(c, s[1..], i);
      }
    }
  }

  lemma {:induction false} BucketBits(c: seq<Cipher>, s: seq<Entry>, b: int)
    requires InTable(c, s)
    ensures forall e | e in Bucket(c, s, b) :: e.id < |c| && e.active && c[e.id].bits == b && !e.inGroup
  {
    if s != [] {
      BucketBits(c, s[1..], b);
    }
  }

  ghost predicate SortedDown(c: seq<Cipher>, h: seq<Entry>) {
    InTable(c, h) && forall k, l | 0 <= k < l < |h| :: c[h[k].id].bits >= c[h[l].id].bits
  }

  lemma SortedConcat(c: seq<Cipher>, h: seq<Entry>, b: seq<Entry>, m: int)
    requires SortedDown(c, h) && InTable(c, b)
    requires (forall e | e in h :: c[e.id].bits > m) && (forall e | e in b :: c[e.id].bits == m)
    ensures SortedDown(c, h + b)
  {
    var hb: seq<Entry> := h + b;
    forall k, l | 0 <= k < l < |hb| ensures c[hb[k].id].bits >= c[hb[l].id].bits {
      if l < |h| {
        assert hb[k] == h[k] && hb[l] == h[l];
      } else {
        assert hb[l] == b[l - |h|];
        assert hb[l] in b;
        if k < |h| {
          assert hb[k] in h;
        } else {
          assert hb[k] == b[k - |h|];
          assert hb[k] in b;
        }
      }
    }
  }

  /** Buckets come in descending order of strength. */
  lemma {:induction false} HighIsSorted(c: seq<Cipher>, s: seq<Entry>, i: int, max: int)
    requires InTable(c, s)
    ensures forall e | e in High(c, s, i, max) :: e.id < |c| && e.active && i < c[e.id].bits <= max
    ensures SortedDown(c, High(c, s, i, max))
    decreases max - i
  {
    if i < max {
      HighIsSorted(c, s, i + 1, max);
      BucketBits(c, s, i + 1);
      SortedConcat(c, High(c, s, i + 1, max), Bucket(c, s, i + 1), i + 1);
    }
  }

  /** One ORD rule moves the bucket of i bits behind the stronger ones. */
  lemma OrdStep(c: seq<Cipher>, s: seq<Entry>, sel: set<nat>, i: int, max: int)
    requires InTable(c, s) && SelectsBits(c, sel, i) && i <= max
    ensures Apply(Ord, sel, false, Low(c, s, i) + High(c, s, i, max)) == Low(c, s, i - 1) + High(c, s, i - 1, max)
  {
    var lo, hi := Low(c, s, i), High(c, s, i, max);
    HighIsSorted(c, s, i, max);
    NoHits(Ord, sel, false, hi);
    LowStep(c, s, sel, i);
    KeptConcat(Ord, sel, false, lo, hi);
    assert Bucket(c, s, i) + [] == Bucket(c, s, i);
    Assoc(Low(c, s, i - 1), hi, Bucket(c, s, i));
  }

  ghost predicate Unused(c: seq<Cipher>, s: seq<Entry>, b: int)
    requires InTable(c, s)
  {
    forall e | e in s :: !(e.active && c[e.id].bits == b)
  }

  /** A strength nobody has needs no rule. */
  lemma {:induction false} EmptyBucket(c: seq<Cipher>, s: seq<Entry>, i: int)
    requires InTable(c, s) && Unused(c, s, i)
    ensures Bucket(c, s, i) == [] && Low(c, s, i) == Low(c, s, i - 1)
  {
    if s != [] {
      assert s[0] in s;
      EmptyBucket(c, s[1..], i);
    }
  }

  lemma {:induction false} LowIsAll(c: seq<Cipher>, s: seq<Entry>, max: int)
    requires InTable(c, s) && forall e | e in s && e.active :: c[e.id].bits <= max
    ensures Low(c, s, max) == s
  {
    if s != [] {
      assert s[0] in s;
      LowIsAll(c, s[1..], max);
      assert s == [s[0]] + s[1..];
    }
  }

  /** Enabled entries of b bits, whatever their group flag. */
  ghost function OfBits(c: seq<Cipher>, s: seq<Entry>, b: int): seq<nat>
    requires InTable(c, s)
  {
    if s == [] then []
    else (if s[0].active && c[s[0].id].bits == b then [s[0].id] else []) + OfBits(c, s[1..], b)
  }

  lemma {:induction false} OfBitsConcat(c: seq<Cipher>, p: seq<Entry>, q: seq<Entry>, b: int)
    requires InTable(c, p) && InTable(c, q) && InTable(c, p + q)
    ensures OfBits(c, p + q, b) == OfBits(c, p, b) + OfBits(c, q, b)
  {
    if p == [] {
      assert p + q == q;
    } else {
      assert (p + q)[1..] == p[1..] + q;
      OfBitsConcat(c, p[1..], q, b);
    }
  }

  lemma {:induction false} OfBitsBucket(c: seq<Cipher>, s: seq<Entry>, b: int, b': int)
    requires InTable(c, s) && InTable(c, Bucket(c, s, b))
    ensures OfBits(c, Bucket(c, s, b), b') == if b == b' then OfBits(c, s, b) else []
  {
    if s != [] {
      var head := if s[0].active && c[s[0].id].bits == b then [Entry(s[0].id, true, false)] else [];
      assert InTable(c, Bucket(c, s[1..], b)) by { BucketBits(c, s[1..], b); }
      OfBitsBucket(c, s[1..], b, b');
      OfBitsConcat(c, head, Bucket(c, s[1..], b), b');
    }
  }

  /** The sort is stable: among ciphers of equal strength the old order remains. */
  lemma {:induction false} HighIsStable(c: seq<Cipher>, s: seq<Entry>, i: int, max: int, b: int)
    requires InTable(c, s) && InTable(c, High(c, s, i, max))
    ensures OfBits(c, High(c, s, i, max), b) == if i < b <= max then OfBits(c, s, b) else []
    decreases max - i
  {
    if i < max {
      HighIsSorted(c, s, i + 1, max);
      BucketBits(c, s, i + 1);
      HighIsStable(c, s, i + 1, max, b);
      OfBitsBucket(c, s, i + 1, b);
      OfBitsConcat(c, High(c, s, i + 1, max), Bucket(c, s, i + 1), b);
    }
  }

  /** Strongest enabled cipher among the first k entries, at least zero. */
  ghost predicate IsMaxBits(c: seq<Cipher>, s: seq<Entry>, max: int) {
    InTable(c, s) && max >= 0 && (forall e | e in s && e.active :: c[e.id].bits <= max)
  }

  /** The sequence @STRENGTH leaves behind. */
  ghost function StrengthSorted(c: seq<Cipher>, s: seq<Entry>): seq<Entry>
    requires InTable(c, s)
  {
    Low(c, s, -1) + High(c, s, -1, MaxBits(c, s))
  }

  /** The strength of the strongest enabled cipher, or zero. */
  ghost function MaxBits(c: seq<Cipher>, s: seq<Entry>): nat
    requires InTable(c, s)
  {
    if s == [] then 0
    else
      var e, m := s[|s| - 1], MaxBits(c, s[..|s| - 1]);
      assert s == s[..|s| - 1] + [e];
      if e.active && c[e.id].bits > m then c[e.id].bits else m
  }

  lemma {:induction false} MaxBitsIsMax(c: seq<Cipher>, s: seq<Entry>)
    requires InTable(c, s)
    ensures IsMaxBits(c, s, MaxBits(c, s))
  {
    if s != [] {
      assert s == s[..|s| - 1] + [s[|s| - 1]];
      MaxBitsIsMax(c, s[..|s| - 1]);
    }
  }

  /** First pass of ssl_cipher_strength_sort: the largest strength in use. */
  method MaxStrength(l: CipherOrderList) returns (max: nat)
    requires l.Valid()
    ensures InTable(l.ciphers, l.entries) && max == MaxBits(l.ciphers, l.entries)
  {
    max := 0;
    var curr := l.head;
    ghost var i := 0;
    l.Ends();
    l.EntriesInTable();
    while curr != NULL
      invariant 0 <= i <= |l.entries|
      invariant curr == if i < |l.entries| then l.entries[i].id else NULL
      invariant max == MaxBits(l.ciphers, l.entries[..i])
      decreases |l.entries| - i
    {
      l.NextOf(i);
      assert l.entries[..i + 1][..i] == l.entries[..i];
      if l.active[curr] && l.ciphers[curr].bits > max {
        max := l.ciphers[curr].bits;
      }
      curr := l.next[curr];
      i := i + 1;
    }
    assert l.entries[..i] == l.entries;
  }

  /** The strengths of enabled ciphers. */
  ghost function Strengths(c: seq<Cipher>, s: seq<Entry>): set<nat>
    requires InTable(c, s)
  {
    if s == [] then {}
    else
      var e, init := s[|s| - 1], s[..|s| - 1];
      assert s == init + [e];
      Strengths(c, init) + if e.active then {c[e.id].bits} else {}
  }

  lemma {:induction false} StrengthsUsed(c: seq<Cipher>, s: seq<Entry>, b: nat)
    requires InTable(c, s) && b !in Strengths(c, s)
    ensures Unused(c, s, b)
  {
    if s != [] {
      assert s == s[..|s| - 1] + [s[|s| - 1]];
      StrengthsUsed(c, s[..|s| - 1], b);
    }
  }

  /** Every strength up to max that is in use has a positive count. */
  ghost predicate Noted(used: set<nat>, uses: seq<int>, max: nat) {
    |uses| == max + 1 && forall b | b in used :: b <= max ==> uses[b] > 0
  }

  /** Second pass: which strengths are in use. */
  method CountStrengths(l: CipherOrderList, max: nat) returns (uses: array<int>)
    requires l.Valid() && IsMaxBits(l.ciphers, l.entries, max)
    ensures fresh(uses) && Noted(Strengths(l.ciphers, l.entries), uses[..], max)
  {
    uses := new int[max + 1](_ => 0);
    var curr := l.head;
    ghost var i := 0;
    l.Ends();
    l.EntriesInTable();
    while curr != NULL
      invariant 0 <= i <= |l.entries|
      invariant curr == if i < |l.entries| then l.entries[i].id else NULL
      invariant forall b | 0 <= b <= max :: uses[b] >= 0
      invariant Noted(Strengths(l.ciphers, l.entries[..i]), uses[..], max)
      decreases |l.entries| - i
    {
      l.NextOf(i);
      assert l.entries[..i + 1][..i] == l.entries[..i];
      if l.active[curr] {
        assert l.entries[i] in l.entries;
        uses[l.ciphers[curr].bits] := uses[l.ciphers[curr].bits] + 1;
      }
      curr := l.next[curr];
      i := i + 1;
    }
    assert l.entries[..i] == l.entries;
  }

  /** The list once all strengths above i have been dealt with. */
  datatype Stage = Stage(ciphers: seq<Cipher>, start: seq<Entry>, max: nat, i: int, entries: seq<Entry>) {
    ghost predicate Holds() {
      -1 <= i <= max && InTable(ciphers, start) && entries == Low(ciphers, start, i) + High(ciphers, start, i, max)
    }

    ghost predicate From(c: seq<Cipher>, s: seq<Entry>, m: nat) {
      ciphers == c && start == s && max == m
    }

    lemma Begins()
      requires IsMaxBits(ciphers, start, max) && i == max && entries == start
      ensures Holds()
    {
      LowIsAll(ciphers, start, max);
      assert start + [] == start;
    }

    lemma Steps(sel: set<nat>)
      requires Holds() && i >= 0 && SelectsBits(ciphers, sel, i)
      ensures this.(i := i - 1, entries := Apply(Ord, sel, false, entries)).Holds()
    {
      OrdStep(ciphers, start, sel, i, max);
    }

    lemma Idles()
      requires Holds() && i >= 0 && Unused(ciphers, start, i)
      ensures this.(i := i - 1).Holds()
    {
      EmptyBucket(ciphers, start, i);
      assert High(ciphers, start, i, max) + [] == High(ciphers, start, i, max);
    }
  }

  /**
   * ssl_cipher_strength_sort: disabled entries stay in front and in order; the
   * enabled ones follow in stable descending order of strength.
   */
  method StrengthSort(l: CipherOrderList)
    requires l.Valid()
    modifies l
    ensures l.Valid()
    ensures InTable(l.ciphers, old(l.entries)) && l.entries == StrengthSorted(l.ciphers, old(l.entries))
  {
    var max := MaxStrength(l);
    MaxBitsIsMax(l.ciphers, l.entries);
    var uses := CountStrengths(l, max);
    ghost var st := Stage(l.ciphers, l.entries, max, max, l.entries);
    st.Begins();
    st := OrderByStrength(l, uses[..], max, st);
  }

  /** The descending loop that issues one ORD rule per strength in use. */
  method OrderByStrength(l: CipherOrderList, uses: seq<int>, max: nat, ghost begin: Stage) returns (ghost st: Stage)
    requires l.Valid() && begin.Holds() && begin.i == max && begin.From(l.ciphers, l.entries, max) && begin.entries == l.entries
    requires Noted(Strengths(l.ciphers, l.entries), uses, max)
    modifies l
    ensures l.Valid() && st.Holds() && st.i == -1 && st.From(l.ciphers, old(l.entries), max) && st.entries == l.entries
  {
    st := begin;
    var i: int := max;
    while i >= 0
      invariant -1 <= i <= max && l.Valid()
      invariant st.Holds() && st.i == i && st.From(l.ciphers, old(l.entries), max) && st.entries == l.entries
    {
      st := StrengthRound(l, i, uses, st);
      i := i - 1;
    }
  }

  method StrengthRound(l: CipherOrderList, i: nat, uses: seq<int>, ghost st: Stage) returns (ghost after: Stage)
    requires l.Valid() && st.Holds() && st.i == i && st.From(l.ciphers, st.start, st.max) && st.entries == l.entries
    requires Noted(Strengths(l.ciphers, st.start), uses, st.max)
    modifies l
    ensures l.Valid() && after.Holds() && after.i == i - 1 && after.From(l.ciphers, st.start, st.max) && after.entries == l.entries
  {
    if uses[i] > 0 {
      var sel := Selector(0, {}, {}, {}, {}, 0, i);
      st.Steps(l.Selected(sel));
      l.ApplyRule(sel, Ord, false);
    } else {
      StrengthsUsed(l.ciphers, st.start, i);
      st.Idles();
    }
    after := st.(i := i - 1, entries := l.entries);
  }
}
