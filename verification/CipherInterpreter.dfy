/** Interpreting a rule string on the linked list, and building the preference list. */
module CipherInterpreter {
  import opened Bytes
  import opened CipherList
  import opened CipherRules
  import opened CipherOrdering
  import opened CipherCommands
  import opened CipherParser

  /** The token at position l. */
  method ScanToken(s: string, l: nat) returns (n: nat)
    requires l <= |s|
    ensures n == TokenLength(s[l..]) && l + n <= |s|
  {
    n := 0;
    while l + n < |s| && TokenChar(s[l + n])
      invariant l + n <= |s|
      invariant TokenLength(s[l..]) == n + TokenLength(s[l + n..])
    {
      assert s[l + n..][1..] == s[l + n + 1..];
      n := n + 1;
    }
  }

  /** The first cipher of that name, under either spelling. */
  method FindId(names: seq<Named>, token: string) returns (id: nat)
    ensures id == IdNamed(names, token)
  {
    id := 0;
    var j := 0;
    while j < |names|
      invariant j <= |names| && IdNamed(names, token) == IdNamed(names[j..], token)
    {
      if names[j].name == token || names[j].standardName == token {
        id := names[j].id;
        return;
      }
      assert names[j..][1..] == names[j + 1..];
      j := j + 1;
    }
  }

  method FindAlias(aliases: seq<Alias>, token: string) returns (a: Option<Alias>)
    ensures a == AliasNamed(aliases, token)
  {
    a := None;
    var j := 0;
    while j < |aliases|
      invariant j <= |aliases| && AliasNamed(aliases, token) == AliasNamed(aliases[j..], token)
    {
      if aliases[j].name == token {
        a := Some(aliases[j]);
        return;
      }
      assert aliases[j..][1..] == aliases[j + 1..];
      j := j + 1;
    }
  }

  /** One round of the loop over a rule's parts. */
  method AddPart(t: Tables, strict: bool, p: Parts, token: string, last: bool) returns (r: Option<Parts>)
    ensures r == TakePart(t, strict, p, token, last)
  {
    var id := p.id;
    if !p.multi && last {
      id := FindId(t.names, token);
    }
    if id != 0 {
      return Some(p.(id := id));
    }
    var a := FindAlias(t.aliases, token);
    match a
    case Some(alias) => r := Some(p.Narrow(alias));
    case None => r := if strict then None else Some(p.(skip := true));
  }

  /** Reading from (l, p) comes to reading from (l', p'), or has ended with p' at l'. */
  ghost predicate ReadsTo(t: Tables, strict: bool, s: string, l: nat, p: Parts, done: bool, l': nat, p': Option<Parts>)
    requires l <= |s| && l' <= |s|
  {
    ReadParts(t, strict, s[l..], p)
    == if p'.None? then None else if done then Some(Reading(p'.value, s[l'..])) else ReadParts(t, strict, s[l'..], p'.value)
  }

  /** A token has been read at position l, and r made of it. */
  lemma ReadsOn(t: Tables, strict: bool, s: string, l: nat, n: nat, p: Parts, last: bool, r: Option<Parts>)
    requires l + n <= |s| && n == TokenLength(s[l..]) && n > 0 && last == (Peek(s[l + n..]) != '+')
    requires r == TakePart(t, strict, p, s[l..l + n], last)
    ensures ReadsTo(t, strict, s, l, p, last, if last then l + n else l + n + 1, Multi(r, last))
  {
    assert s[l..][..n] == s[l..l + n] && s[l..][n..] == s[l + n..];
    if l + n < |s| {
      assert s[l..][n + 1..] == s[l + n + 1..];
    }
  }

  function Multi(r: Option<Parts>, last: bool): Option<Parts> {
    if r.None? || last then r else Some(r.value.(multi := true))
  }

  method ReadPart(t: Tables, strict: bool, s: string, l: nat, p: Parts) returns (done: bool, l': nat, p': Option<Parts>)
    requires l <= |s|
    ensures l' <= |s| && (p'.Some? ==> l < l') && ReadsTo(t, strict, s, l, p, done, l', p')
  {
    var n := ScanToken(s, l);
    if n == 0 {
      return true, l, None;
    }
    done := !(l + n < |s| && s[l + n] == '+');
    var r := AddPart(t, strict, p, s[l..l + n], done);
    ReadsOn(t, strict, s, l, n, p, done, r);
    l' := if done then l + n else l + n + 1;
    p' := Multi(r, done);
  }

  /** The loop over a rule's parts. */
  method ReadRule(t: Tables, strict: bool, s: string, start: nat, none: Parts) returns (r: Option<Parts>, l: nat)
    requires start <= |s|
    ensures l <= |s| && (r.Some? ==> start < l)
    ensures ReadsTo(t, strict, s, start, none, true, l, r)
  {
    var done;
    done, l, r := ReadPart(t, strict, s, start, none);
    while !done && r.Some?
      invariant start <= |s| && l <= |s| && (r.Some? ==> start < l)
      invariant ReadsTo(t, strict, s, start, none, done, l, r)
      decreases !done && r.Some?, |s| - l
    {
      done, l, r := ReadPart(t, strict, s, l, r.value);
    }
  }

  /** What is left after @STRENGTH is thrown away up to a separator. */
  method SkipToSeparator(s: string, start: nat, strict: bool) returns (l: nat)
    requires start <= |s|
    ensures start <= l <= |s| && s[l..] == FromSeparator(s[start..], strict)
  {
    l := start;
    while l < |s| && s[l] != '\0' && !Separator(s[l], strict)
      invariant start <= l <= |s| && FromSeparator(s[start..], strict) == FromSeparator(s[l..], strict)
    {
      assert s[l..][1..] == s[l + 1..];
      l := l + 1;
    }
  }

  /** The list holds what the commands made of its start. */
  ghost predicate Reached(l: CipherOrderList, start: seq<Entry>, cmds: seq<Command>)
    reads l
  {
    l.Valid() && InTable(l.ciphers, start) && l.entries == Run(l.ciphers, cmds, start)
  }

  lemma ReachedMore(c: seq<Cipher>, start: seq<Entry>, cmds: seq<Command>, cmd: Command)
    requires InTable(c, start)
    ensures InTable(c, Run(c, cmds, start)) && Run(c, cmds + [cmd], start) == Exec(c, cmd, Run(c, cmds, start))
  {
    RunPrepended(c, start, cmds, [cmd]);
    RunOne(c, Run(c, cmds, start), cmd);
  }

  method Issuing(l: CipherOrderList, rule: Rule, sel: Selector, group: bool, ghost start: seq<Entry>, ghost cmds: seq<Command>)
    requires Reached(l, start, cmds)
    modifies l
    ensures Reached(l, start, cmds + [Issue(rule, sel, group)])
  {
    ReachedMore(l.ciphers, start, cmds, Issue(rule, sel, group));
    l.ApplyRule(sel, rule, group);
  }

  method Closing(l: CipherOrderList, ghost start: seq<Entry>, ghost cmds: seq<Command>)
    requires Reached(l, start, cmds)
    modifies l
    ensures Reached(l, start, cmds + [CloseGroup])
  {
    ReachedMore(l.ciphers, start, cmds, CloseGroup);
    l.CloseTail();
  }

  method Sorting(l: CipherOrderList, ghost start: seq<Entry>, ghost cmds: seq<Command>)
    requires Reached(l, start, cmds)
    modifies l
    ensures Reached(l, start, cmds + [SortByStrength])
  {
    ReachedMore(l.ciphers, start, cmds, SortByStrength);
    StrengthSort(l);
  }

  lemma SpecialAt(t: Tables, strict: bool, s: string, at: nat, n: nat, inGroup: bool)
    requires at + n <= |s| && n == TokenLength(s[at..])
    ensures Directive(t, strict, Special, s[at..], inGroup) ==
      if s[at..at + n] == "STRENGTH" then Some(Directed([SortByStrength], FromSeparator(s[at + n..], strict))) else None
  {
    assert s[at..][..n] == s[at..at + n] && s[at..][n..] == s[at + n..];
  }

  /** @STRENGTH, from past the '@'. */
  method RunSpecial(l: CipherOrderList, t: Tables, strict: bool, s: string, at: nat, inGroup: bool,
                    ghost start: seq<Entry>, ghost cmds: seq<Command>) returns (ok: bool, next: nat)
    requires at <= |s| && Reached(l, start, cmds)
    modifies l
    ensures l.Valid() && next <= |s| && (ok ==> at < next)
    ensures Directive(t, strict, Special, s[at..], inGroup) == if ok then Some(Directed([SortByStrength], s[next..])) else None
    ensures ok ==> Reached(l, start, cmds + [SortByStrength])
  {
    var n := ScanToken(s, at);
    SpecialAt(t, strict, s, at, n, inGroup);
    next := at + n;
    ok := s[at..at + n] == "STRENGTH";
    if ok {
      Sorting(l, start, cmds);
      next := SkipToSeparator(s, next, strict);
    }
  }

  /** A rule, from past its operator. */
  method RunRule(l: CipherOrderList, t: Tables, strict: bool, rule: Rule, s: string, at: nat, inGroup: bool,
                 ghost start: seq<Entry>, ghost cmds: seq<Command>) returns (r: Option<Parts>, next: nat)
    requires at <= |s| && Reached(l, start, cmds)
    modifies l
    ensures l.Valid() && next <= |s| && (r.Some? ==> at < next)
    ensures ReadParts(t, strict, s[at..], NO_PARTS) == if r.Some? then Some(Reading(r.value, s[next..])) else None
    ensures r.Some? ==> Reached(l, start, cmds + RuleCommands(rule, inGroup, r.value))
  {
    r, next := ReadRule(t, strict, s, at, NO_PARTS);
    if r.Some? && !r.value.skip {
      Issuing(l, rule, r.value.ToSelector(), inGroup, start, cmds);
    } else {
      assert cmds + [] == cmds;
    }
  }

  /** A directive, from past its operator. */
  method RunDirective(l: CipherOrderList, t: Tables, strict: bool, op: Op, s: string, at: nat, inGroup: bool,
                      ghost start: seq<Entry>, ghost cmds: seq<Command>) returns (ok: bool, next: nat)
    requires at <= |s| && Reached(l, start, cmds)
    modifies l
    ensures l.Valid() && next <= |s| && (ok ==> at < next)
    ensures var d := Directive(t, strict, op, s[at..], inGroup);
            ok == d.Some? && (ok ==> d.value.rest == s[next..] && Reached(l, start, cmds + d.value.cmds))
  {
    match op
    case Special =>
      ok, next := RunSpecial(l, t, strict, s, at, inGroup, start, cmds);
    case RuleOp(rule) =>
      var r;
      r, next := RunRule(l, t, strict, rule, s, at, inGroup, start, cmds);
      ok := r.Some?;
  }

  /** Where the interpreter stands in the string. */
  datatype Cursor = Cursor(at: nat, inGroup: bool, hasGroup: bool) {
    /** The commands issued so far, and those to come, are the string's. */
    ghost predicate Follows(t: Tables, strict: bool, s: string, cmds: seq<Command>) {
      at <= |s| && Parse(t, strict, s, false, false) == Prepend(cmds, Parse(t, strict, s[at..], inGroup, hasGroup))
    }
  }

  lemma PrependMore(a: seq<Command>, b: seq<Command>, r: Option<seq<Command>>)
    ensures Prepend(a, Prepend(b, r)) == Prepend(a + b, r)
  {
    if r.Some? {
      assert a + (b + r.value) == (a + b) + r.value;
    }
  }

  lemma PrependNone(r: Option<seq<Command>>)
    ensures Prepend([], r) == r
  {
    if r.Some? {
      assert [] + r.value == r.value;
    }
  }

  /** One round of the main loop. */
  method Round(l: CipherOrderList, t: Tables, strict: bool, s: string, k: Cursor, ghost start: seq<Entry>, ghost cmds: seq<Command>)
    returns (ok: bool, k': Cursor, ghost cmds': seq<Command>)
    requires k.Follows(t, strict, s, cmds) && Reached(l, start, cmds) && k.at < |s| && s[k.at] != '\0'
    modifies l
    ensures l.Valid()
    ensures ok ==> k'.Follows(t, strict, s, cmds') && Reached(l, start, cmds') && k.at < k'.at
    ensures !ok ==> Parse(t, strict, s, false, false).None?
  {
    var ch := s[k.at];
    ok, k', cmds' := true, k.(at := k.at + 1), cmds;
    ghost var str := s[k.at..];
    assert Peek(str) == ch && str[1..] == s[k.at + 1..];
    if k.inGroup && ch == ']' {
      Closing(l, start, cmds);
      k' := k'.(inGroup := false);
      cmds' := cmds + [CloseGroup];
      PrependMore(cmds, [CloseGroup], Parse(t, strict, str[1..], false, k.hasGroup));
    } else if k.inGroup && ch == '|' {
    } else if k.inGroup && !Alnum(ch) {
      ok := false;
    } else if !k.inGroup && ch == '[' {
      k' := k'.(inGroup := true, hasGroup := true);
    } else {
      ok, k', cmds' := RuleRound(l, t, strict, s, k, start, cmds);
    }
  }

  /** The rest of the main loop's body: a separator or a directive. */
  method RuleRound(l: CipherOrderList, t: Tables, strict: bool, s: string, k: Cursor, ghost start: seq<Entry>, ghost cmds: seq<Command>)
    returns (ok: bool, k': Cursor, ghost cmds': seq<Command>)
    requires k.Follows(t, strict, s, cmds) && Reached(l, start, cmds) && k.at < |s| && s[k.at] != '\0'
    requires if k.inGroup then Alnum(s[k.at]) else s[k.at] != '['
    modifies l
    ensures l.Valid()
    ensures ok ==> k'.Follows(t, strict, s, cmds') && Reached(l, start, cmds') && k.at < k'.at
    ensures !ok ==> Parse(t, strict, s, false, false).None?
  {
    var ch := s[k.at];
    ok, k', cmds' := true, k.(at := k.at + 1), cmds;
    ghost var str := s[k.at..];
    assert Peek(str) == ch && str[1..] == s[k.at + 1..];
    var op := if k.inGroup then ADD else Operator(ch);
    if k.hasGroup && op != ADD {
      ok := false;
    } else if Separator(ch, strict) {
    } else {
      var at := if op == ADD then k.at else k.at + 1;
      assert op == OpAt(str, k.inGroup) && s[at..] == PastOp(str, k.inGroup);
      ghost var d := Directive(t, strict, op, s[at..], k.inGroup);
      ok, at := RunDirective(l, t, strict, op, s, at, k.inGroup, start, cmds);
      k' := k.(at := at);
      if ok {
        cmds' := cmds + d.value.cmds;
        PrependMore(cmds, d.value.cmds, Parse(t, strict, d.value.rest, k.inGroup, k.hasGroup));
      }
    }
  }

  lemma Finished(k: Cursor, t: Tables, strict: bool, s: string, cmds: seq<Command>)
    requires k.Follows(t, strict, s, cmds) && (k.at == |s| || s[k.at] == '\0')
    ensures Parse(t, strict, s, false, false) == if k.inGroup then None else Some(cmds)
  {
    assert cmds + [] == cmds;
  }

  /**
   * ssl_cipher_process_rulestr: the string is accepted exactly when it parses,
   * and then its commands have been carried out on the list.
   */
  method ProcessRuleStr(l: CipherOrderList, t: Tables, strict: bool, s: string) returns (ok: bool)
    requires l.Valid()
    modifies l
    ensures l.Valid() && ok == Parse(t, strict, s, false, false).Some?
    ensures ok ==> Reached(l, old(l.entries), Parse(t, strict, s, false, false).value)
  {
    ghost var start, cmds := l.entries, [];
    var k := Cursor(0, false, false);
    l.EntriesInTable();
    assert s[0..] == s;
    PrependNone(Parse(t, strict, s, false, false));
    while k.at < |s| && s[k.at] != '\0'
      invariant k.Follows(t, strict, s, cmds) && Reached(l, start, cmds)
      decreases |s| - k.at
    {
      ok, k, cmds := Round(l, t, strict, s, k, start, cmds);
      if !ok {
        return;
      }
    }
    Finished(k, t, strict, s, cmds);
    ok := !k.inGroup;
  }
}
