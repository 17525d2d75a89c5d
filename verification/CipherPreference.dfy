/** From a rule string to the preference list a connection is configured with. */
module CipherPreference {
  import opened Bytes
  import opened CipherList
  import opened CipherRules
  import opened CipherOrdering
  import opened CipherCommands
  import opened CipherParser
  import opened CipherGrammar
  import opened CipherInterpreter

  /** ssl_cipher_preference_list_st: a flag set means the next cipher is in the same group. */
  datatype Preference = Preference(ciphers: seq<Cipher>, flags: seq<bool>)

  function Masked(mkey: mask, auth: mask, enc: mask): Selector {
    Selector(0, mkey, auth, enc, ALL_BITS, 0, -1)
  }

  /** The rules that give the list its default order, before any rule string. */
  function DefaultOrder(aesHardware: bool): seq<Command> {
    var add := (enc: mask) => Issue(Add, Masked(ALL_BITS, ALL_BITS, enc), false);
    var gcm128, gcm256, chacha := add({3}), add({4}), add({6});
    [Issue(Add, Masked({1}, {1}, ALL_BITS), false),
     Issue(Add, Masked({1}, ALL_BITS, ALL_BITS), false),
     Issue(Del, Masked(ALL_BITS, ALL_BITS, ALL_BITS), false)]
    + (if aesHardware then [gcm128, gcm256, chacha] else [chacha, gcm128, gcm256])
    + [add({1}), add({2}), add({0}), add(ALL_BITS),
       Issue(Ord, Masked({0, 2}, ALL_BITS, ALL_BITS), false),
       Issue(Del, Masked(ALL_BITS, ALL_BITS, ALL_BITS), false)]
  }

  const DEFAULT := "DEFAULT"

  /** SSL_DEFAULT_CIPHER_LIST */
  const DEFAULT_LIST := "ALL"

  predicate StartsDefault(rule: string) {
    |rule| >= 7 && rule[..7] == DEFAULT
  }

  function AfterDefault(rule: string): string {
    if !StartsDefault(rule) then rule else if Peek(rule[7..]) == ':' then rule[8..] else rule[7..]
  }

  /** The commands of a configured string; DEFAULT in front stands for the default list. */
  function Configured(t: Tables, strict: bool, rule: string): Option<seq<Command>> {
    Both(t, strict, StartsDefault(rule), AfterDefault(rule))
  }

  function Both(t: Tables, strict: bool, isDefault: bool, rest: string): Option<seq<Command>> {
    Then(FirstCommands(t, strict, isDefault), Parse(t, strict, rest, false, false))
  }

  function FirstCommands(t: Tables, strict: bool, isDefault: bool): Option<seq<Command>> {
    if isDefault then Parse(t, strict, DEFAULT_LIST, false, false) else Some([])
  }

  /** The enabled part of the list. */
  ghost function Enabled(s: seq<Entry>): seq<Entry> {
    if s == [] then [] else (if s[0].active then [s[0]] else []) + Enabled(s[1..])
  }

  lemma {:induction false} EnabledConcat(a: seq<Entry>, b: seq<Entry>)
    ensures Enabled(a + b) == Enabled(a) + Enabled(b)
  {
    if a == [] {
      assert a + b == b;
    } else {
      assert (a + b)[1..] == a[1..] + b;
      EnabledConcat(a[1..], b);
      Assoc(if a[0].active then [a[0]] else [], Enabled(a[1..]), Enabled(b));
    }
  }

  /** With disabled ciphers in front, the last enabled one is the last of all. */
  lemma {:induction false} LastEnabled(s: seq<Entry>)
    requires InactiveFirst(s) && Enabled(s) != []
    ensures Enabled(s)[|Enabled(s)| - 1] == s[|s| - 1]
  {
    if |s| > 1 {
      assert s[0].active ==> s[1].active && Enabled(s[1..]) != [];
      LastEnabled(s[1..]);
    }
  }

  /** What is handed out for these entries. */
  ghost predicate Publishes(c: seq<Cipher>, s: seq<Entry>, p: Preference) {
    |p.ciphers| == |p.flags| == |s|
    && forall i | 0 <= i < |s| :: s[i].id < |c| && p.ciphers[i] == c[s[i].id] && p.flags[i] == s[i].inGroup
  }

  /** The loop that copies enabled ciphers and their flags out of the list. */
  method Publish(l: CipherOrderList) returns (p: Preference)
    requires l.Valid()
    ensures Publishes(l.ciphers, Enabled(l.entries), p)
  {
    p := Preference([], []);
    var curr := l.head;
    ghost var i := 0;
    l.Ends();
    while curr != NULL
      invariant 0 <= i <= |l.entries|
      invariant curr == if i < |l.entries| then l.entries[i].id else NULL
      invariant Publishes(l.ciphers, Enabled(l.entries[..i]), p)
      decreases |l.entries| - i
    {
      l.NextOf(i);
      assert l.entries[..i + 1] == l.entries[..i] + [l.entries[i]];
      EnabledConcat(l.entries[..i], [l.entries[i]]);
      if l.active[curr] {
        p := Preference(p.ciphers + [l.ciphers[curr]], p.flags + [l.inGroup[curr]]);
      }
      curr := l.next[curr];
      i := i + 1;
    }
    assert l.entries[..i] == l.entries;
  }

  method IssueAll(l: CipherOrderList, cmds: seq<Command>)
    requires l.Valid() && forall cmd | cmd in cmds :: cmd.Issue?
    modifies l
    ensures Reached(l, old(l.entries), cmds)
  {
    ghost var start := l.entries;
    l.EntriesInTable();
    var i := 0;
    while i < |cmds|
      invariant i <= |cmds| && Reached(l, start, cmds[..i])
    {
      assert cmds[i] in cmds && cmds[..i + 1] == cmds[..i] + [cmds[i]];
      Issuing(l, cmds[i].rule, cmds[i].sel, cmds[i].group, start, cmds[..i]);
      i := i + 1;
    }
    assert cmds[..i] == cmds;
  }

  /** The list a rule string ends with. */
  ghost function Final(table: seq<Cipher>, aesHardware: bool, cmds: seq<Command>): seq<Entry> {
    var c := Collected(table);
    Run(c, DefaultOrder(aesHardware) + cmds, AllDisabled(|c|))
  }

  /** A further string continues where the list stands. */
  method Continuing(l: CipherOrderList, t: Tables, strict: bool, rule: string, ghost start: seq<Entry>, ghost cmds: seq<Command>)
    returns (ok: bool)
    requires Reached(l, start, cmds)
    modifies l
    ensures l.Valid() && ok == Parse(t, strict, rule, false, false).Some?
    ensures ok ==> Reached(l, start, cmds + Parse(t, strict, rule, false, false).value)
  {
    ok := ProcessRuleStr(l, t, strict, rule);
    if ok {
      RunPrepended(l.ciphers, start, cmds, Parse(t, strict, rule, false, false).value);
    }
  }

  /** The default list, when the string begins with DEFAULT. */
  method ApplyDefault(l: CipherOrderList, t: Tables, strict: bool, isDefault: bool, ghost start: seq<Entry>, ghost cmds: seq<Command>)
    returns (ok: bool)
    requires Reached(l, start, cmds)
    modifies l
    ensures l.Valid() && ok == FirstCommands(t, strict, isDefault).Some?
    ensures ok ==> Reached(l, start, cmds + FirstCommands(t, strict, isDefault).value)
  {
    ok := true;
    if isDefault {
      ok := Continuing(l, t, strict, DEFAULT_LIST, start, cmds);
    } else {
      assert cmds + [] == cmds;
    }
  }

  /** The two strings, the default list if it is asked for and the rest. */
  method Configure(l: CipherOrderList, t: Tables, strict: bool, isDefault: bool, rest: string, ghost start: seq<Entry>, ghost cmds: seq<Command>)
    returns (ok: bool)
    requires Reached(l, start, cmds)
    modifies l
    ensures l.Valid() && ok == Both(t, strict, isDefault, rest).Some?
    ensures ok ==> Reached(l, start, cmds + Both(t, strict, isDefault, rest).value)
  {
    ok := ApplyDefault(l, t, strict, isDefault, start, cmds);
    if ok {
      ghost var first := FirstCommands(t, strict, isDefault).value;
      ok := Continuing(l, t, strict, rest, start, cmds + first);
      if ok {
        AssocCommands(cmds, first, Parse(t, strict, rest, false, false).value);
      }
    }
  }

  lemma AssocCommands(a: seq<Command>, b: seq<Command>, c: seq<Command>)
    ensures (a + b) + c == a + (b + c)
  {
  }

  /** ssl_create_cipher_list: None for a string that does not parse; ok when some cipher is enabled. */
  method CreateCipherList(table: seq<Cipher>, t: Tables, rule: string, strict: bool, aesHardware: bool)
    returns (p: Option<Preference>, ok: bool)
    ensures p.Some? == Configured(t, strict, rule).Some?
    ensures p.Some? ==>
      Publishes(Collected(table), Enabled(Final(table, aesHardware, Configured(t, strict, rule).value)), p.value)
    ensures ok <==> p.Some? && p.value.ciphers != []
  {
    var l := new CipherOrderList(table);
    var order := DefaultOrder(aesHardware);
    DefaultOrderUngrouped(aesHardware);
    IssueAll(l, order);
    ok := Configure(l, t, strict, StartsDefault(rule), AfterDefault(rule), AllDisabled(|l.ciphers|), order);
    p := None;
    if ok {
      var q := Publish(l);
      p, ok := Some(q), q.ciphers != [];
    }
  }

  // What every configured string guarantees

  lemma {:induction false} RunUngrouped(c: seq<Cipher>, cmds: seq<Command>, s: seq<Entry>)
    requires InTable(c, s) && GroupInv(s, false, false) && forall cmd | cmd in cmds :: Allowed(cmd, false, false)
    ensures GroupInv(Run(c, cmds, s), false, false)
    decreases |cmds|
  {
    if cmds != [] {
      ExecIds(c, cmds[0], s);
      ExecKeepsGroupInv(c, cmds[0], s, false, false);
      RunUngrouped(c, cmds[1..], Exec(c, cmds[0], s));
    }
  }

  lemma DefaultListUngrouped(t: Tables, strict: bool, isDefault: bool)
    ensures var r := FirstCommands(t, strict, isDefault);
            r.Some? ==> forall cmd | cmd in r.value :: Allowed(cmd, false, false)
  {
    var item := Rules(Add, ["ALL"]);
    ParseInvertsText(t, strict, [item], false);
    assert Text([item]) == DEFAULT_LIST;
    assert [item][1..] == [];
  }

  lemma DefaultOrderUngrouped(aesHardware: bool)
    ensures forall cmd | cmd in DefaultOrder(aesHardware) :: cmd.Issue? && Allowed(cmd, false, false)
  {
  }

  lemma ShapeAfter(c: seq<Cipher>, start: seq<Entry>, prefix: seq<Command>, t: Tables, strict: bool, rest: string)
    requires InTable(c, start) && GroupInv(start, false, false) && InactiveFirst(start)
    requires (forall cmd | cmd in prefix :: Allowed(cmd, false, false)) && Parse(t, strict, rest, false, false).Some?
    ensures var s := Run(c, prefix + Parse(t, strict, rest, false, false).value, start);
            InactiveFirst(s) && TailClear(s)
  {
    var more := Parse(t, strict, rest, false, false).value;
    RunUngrouped(c, prefix, start);
    RunPrepended(c, start, prefix, more);
    ParsedTailClear(t, strict, rest, false, false, c, Run(c, prefix, start));
    RunKeepsInactiveFirst(c, prefix + more, start);
  }

  lemma BothShape(c: seq<Cipher>, order: seq<Command>, t: Tables, strict: bool, isDefault: bool, rest: string)
    requires Both(t, strict, isDefault, rest).Some? && forall cmd | cmd in order :: Allowed(cmd, false, false)
    ensures var s := Run(c, order + Both(t, strict, isDefault, rest).value, AllDisabled(|c|));
            InactiveFirst(s) && TailClear(s)
  {
    var first, more := FirstCommands(t, strict, isDefault).value, Parse(t, strict, rest, false, false).value;
    DefaultListUngrouped(t, strict, isDefault);
    ShapeAfter(c, AllDisabled(|c|), order + first, t, strict, rest);
    AssocCommands(order, first, more);
  }

  /** The list every configured string leaves: disabled ciphers in front, no group left open. */
  lemma FinalShape(table: seq<Cipher>, aesHardware: bool, t: Tables, strict: bool, rule: string)
    requires Configured(t, strict, rule).Some?
    ensures var s := Final(table, aesHardware, Configured(t, strict, rule).value);
            InactiveFirst(s) && TailClear(s)
  {
    DefaultOrderUngrouped(aesHardware);
    BothShape(Collected(table), DefaultOrder(aesHardware), t, strict, StartsDefault(rule), AfterDefault(rule));
  }

  /** The last cipher of every configured preference list is not flagged as grouped with a next one. */
  lemma LastFlagClear(table: seq<Cipher>, aesHardware: bool, t: Tables, strict: bool, rule: string, p: Preference)
    requires Configured(t, strict, rule).Some?
    requires Publishes(Collected(table), Enabled(Final(table, aesHardware, Configured(t, strict, rule).value)), p)
    ensures p.flags == [] || !p.flags[|p.flags| - 1]
  {
    FinalShape(table, aesHardware, t, strict, rule);
    var s := Final(table, aesHardware, Configured(t, strict, rule).value);
    if p.flags != [] {
      LastEnabled(s);
    }
  }
}
