/** The cipher preference language: what a rule string says. */
module CipherParser {
  import opened Bytes
  import opened CipherRules
  import opened CipherOrdering
  import opened CipherCommands

  datatype Named = Named(name: string, standardName: string, id: nat)

  datatype Alias = Alias(name: string, mkey: mask, auth: mask, enc: mask, mac: mask, minVersion: nat)

  /** The cipher names and aliases compiled in. */
  datatype Tables = Tables(names: seq<Named>, aliases: seq<Alias>)

  predicate Alnum(ch: char) {
    'a' <= ch <= 'z' || 'A' <= ch <= 'Z' || '0' <= ch <= '9'
  }

  predicate TokenChar(ch: char) {
    Alnum(ch) || ch == '-' || ch == '.' || ch == '_'
  }

  predicate Separator(ch: char, strict: bool) {
    ch == ':' || (!strict && (ch == ' ' || ch == ';' || ch == ','))
  }

  /** The character under the cursor; strings end in NUL. */
  function Peek(s: string): char {
    if s == [] then '\0' else s[0]
  }

  /** The length of the token s begins with. */
  function TokenLength(s: string): (n: nat)
    ensures n <= |s|
  {
    if s == [] || !TokenChar(s[0]) then 0 else 1 + TokenLength(s[1..])
  }

  /** What is left of s from its first separator, or its end. */
  function FromSeparator(s: string, strict: bool): (rest: string)
    ensures |rest| <= |s|
  {
    if Peek(s) == '\0' || Separator(s[0], strict) then s else FromSeparator(s[1..], strict)
  }

  /** The id of the first cipher of that name, or zero. */
  function IdNamed(names: seq<Named>, token: string): nat {
    if names == [] then 0
    else if names[0].name == token || names[0].standardName == token then names[0].id
    else IdNamed(names[1..], token)
  }

  function AliasNamed(aliases: seq<Alias>, token: string): Option<Alias> {
    if aliases == [] then None
    else if aliases[0].name == token then Some(aliases[0])
    else AliasNamed(aliases[1..], token)
  }

  /** The parts of a rule read so far. */
  datatype Parts = Parts(multi: bool, id: nat, mkey: mask, auth: mask, enc: mask, mac: mask, minVersion: nat, skip: bool) {
    function ToSelector(): Selector {
      Selector(id, mkey, auth, enc, mac, minVersion, -1)
    }

    /** A further alias narrows the selection. */
    function Narrow(a: Alias): Parts {
      var p := this.(mkey := mkey * a.mkey, auth := auth * a.auth, enc := enc * a.enc, mac := mac * a.mac);
      if minVersion != 0 && minVersion != a.minVersion then p.(skip := true) else p.(minVersion := a.minVersion)
    }
  }

  /** The mask ~0u. */
  const ALL_BITS: mask := set i: nat | i < 32

  const NO_PARTS := Parts(false, 0, ALL_BITS, ALL_BITS, ALL_BITS, ALL_BITS, 0, false)

  /** One token of a rule; `last` when no '+' follows it. */
  function TakePart(t: Tables, strict: bool, p: Parts, token: string, last: bool): Option<Parts> {
    var id := if !p.multi && last then IdNamed(t.names, token) else p.id;
    if id != 0 then Some(p.(id := id))
    else
      match AliasNamed(t.aliases, token)
      case Some(a) => Some(p.Narrow(a))
      case None => if strict then None else Some(p.(skip := true))
  }

  datatype Reading = Reading(parts: Parts, rest: string)

  /** The tokens of a rule, joined by '+'. */
  function ReadParts(t: Tables, strict: bool, s: string, p: Parts): (r: Option<Reading>)
    ensures r.Some? ==> |r.value.rest| < |s|
    decreases |s|
  {
    var n := TokenLength(s);
    if n == 0 then None
    else
      var last := Peek(s[n..]) != '+';
      match TakePart(t, strict, p, s[..n], last)
      case None => None
      case Some(p') =>
        if last then Some(Reading(p', s[n..])) else ReadParts(t, strict, s[n + 1..], p'.(multi := true))
  }

  datatype Op = RuleOp(rule: Rule) | Special

  /** The operator a directive begins with; without one it is ADD. */
  function Operator(ch: char): Op {
    if ch == '-' then RuleOp(Del)
    else if ch == '+' then RuleOp(Ord)
    else if ch == '!' then RuleOp(Kill)
    else if ch == '@' then Special
    else RuleOp(Add)
  }

  function Prepend(cmds: seq<Command>, r: Option<seq<Command>>): Option<seq<Command>> {
    if r.Some? then Some(cmds + r.value) else None
  }

  /** The commands of a rule that has been read. */
  function RuleCommands(rule: Rule, group: bool, p: Parts): seq<Command> {
    if p.skip then [] else [Issue(rule, p.ToSelector(), group)]
  }

  /** What a directive issues, and what follows it in the string. */
  datatype Directed = Directed(cmds: seq<Command>, rest: string)

  /** A directive, past its operator. */
  function Directive(t: Tables, strict: bool, op: Op, s: string, inGroup: bool): (r: Option<Directed>)
    ensures r.Some? ==> |r.value.rest| < |s|
  {
    match op
    case Special =>
      var n := TokenLength(s);
      if s[..n] != "STRENGTH" then None else Some(Directed([SortByStrength], FromSeparator(s[n..], strict)))
    case RuleOp(rule) =>
      match ReadParts(t, strict, s, NO_PARTS)
      case None => None
      case Some(r) => Some(Directed(RuleCommands(rule, inGroup, r.parts), r.rest))
  }

  const ADD := RuleOp(Add)

  /** The operator at the cursor: inside a group there are none. */
  function OpAt(s: string, inGroup: bool): Op {
    if inGroup then ADD else Operator(Peek(s))
  }

  function PastOp(s: string, inGroup: bool): (r: string)
    ensures |r| <= |s|
  {
    if OpAt(s, inGroup) == ADD then s else s[1..]
  }

  /** ssl_cipher_process_rulestr: the commands a string issues, or None when it is refused. */
  function Parse(t: Tables, strict: bool, s: string, inGroup: bool, hasGroup: bool): Option<seq<Command>>
    decreases |s|
  {
    var ch := Peek(s);
    if ch == '\0' then if inGroup then None else Some([])
    else if inGroup && ch == ']' then Prepend([CloseGroup], Parse(t, strict, s[1..], false, hasGroup))
    else if inGroup && ch == '|' then Parse(t, strict, s[1..], inGroup, hasGroup)
    else if inGroup && !Alnum(ch) then None
    else if !inGroup && ch == '[' then Parse(t, strict, s[1..], true, true)
    else if hasGroup && OpAt(s, inGroup) != ADD then None
    else if Separator(ch, strict) then Parse(t, strict, s[1..], inGroup, hasGroup)
    else
      match Directive(t, strict, OpAt(s, inGroup), PastOp(s, inGroup), inGroup)
      case None => None
      case Some(d) => Prepend(d.cmds, Parse(t, strict, d.rest, inGroup, hasGroup))
  }

  // Groups

  /** Commands that keep groups well formed take an invariant list to another one. */
  lemma RunPrepended(c: seq<Cipher>, s: seq<Entry>, cmds: seq<Command>, more: seq<Command>)
    requires InTable(c, s)
    ensures InTable(c, Run(c, cmds, s)) && Run(c, cmds + more, s) == Run(c, more, Run(c, cmds, s))
  {
    RunConcat(c, cmds, more, s);
  }

  lemma RunOne(c: seq<Cipher>, s: seq<Entry>, cmd: Command)
    requires InTable(c, s)
    ensures Run(c, [cmd], s) == Exec(c, cmd, s)
  {
    ExecIds(c, cmd, s);
    assert [cmd][1..] == [];
  }

  /** A directive's commands respect the groups. */
  lemma DirectiveAllowed(t: Tables, strict: bool, op: Op, s: string, inGroup: bool, hasGroup: bool)
    requires hasGroup ==> op == ADD
    ensures var d := Directive(t, strict, op, s, inGroup);
            d.Some? ==> |d.value.cmds| <= 1 && forall cmd | cmd in d.value.cmds :: Allowed(cmd, inGroup, hasGroup) && !cmd.CloseGroup?
  {
  }

  lemma StepKeepsGroupInv(c: seq<Cipher>, cmds: seq<Command>, s: seq<Entry>, inGroup: bool, hasGroup: bool)
    requires InTable(c, s) && GroupInv(s, inGroup, hasGroup) && |cmds| <= 1
    requires forall cmd | cmd in cmds :: Allowed(cmd, inGroup, hasGroup)
    ensures GroupInv(Run(c, cmds, s), inGroup && (cmds == [] || !cmds[0].CloseGroup?), hasGroup)
  {
    if cmds != [] {
      assert cmds == [cmds[0]];
      RunOne(c, s, cmds[0]);
      ExecKeepsGroupInv(c, cmds[0], s, inGroup, hasGroup);
    }
  }

  /** Every string that parses leaves its last cipher outside any group. */
  lemma {:induction false} ParsedTailClear(t: Tables, strict: bool, str: string, inGroup: bool, hasGroup: bool,
                                           c: seq<Cipher>, s: seq<Entry>)
    requires InTable(c, s) && GroupInv(s, inGroup, hasGroup)
    ensures var p := Parse(t, strict, str, inGroup, hasGroup);
            p.Some? ==> TailClear(Run(c, p.value, s))
    decreases |str|, 0
  {
    var ch := Peek(str);
    if ch == '\0' || Parse(t, strict, str, inGroup, hasGroup).None? {
    } else if inGroup && ch == ']' {
      StepKeepsGroupInv(c, [CloseGroup], s, inGroup, hasGroup);
      Continue(t, strict, str[1..], false, hasGroup, c, s, [CloseGroup]);
    } else if inGroup && ch == '|' {
      ParsedTailClear(t, strict, str[1..], inGroup, hasGroup, c, s);
    } else if !inGroup && ch == '[' {
      ParsedTailClear(t, strict, str[1..], true, true, c, s);
    } else if Separator(ch, strict) {
      ParsedTailClear(t, strict, str[1..], inGroup, hasGroup, c, s);
    } else {
      var d := Directive(t, strict, OpAt(str, inGroup), PastOp(str, inGroup), inGroup).value;
      DirectiveAllowed(t, strict, OpAt(str, inGroup), PastOp(str, inGroup), inGroup, hasGroup);
      StepKeepsGroupInv(c, d.cmds, s, inGroup, hasGroup);
      Continue(t, strict, d.rest, inGroup, hasGroup, c, s, d.cmds);
    }
  }

  lemma {:induction false} Continue(t: Tables, strict: bool, rest: string, inGroup: bool, hasGroup: bool,
                                    c: seq<Cipher>, s: seq<Entry>, cmds: seq<Command>)
    requires InTable(c, s) && GroupInv(Run(c, cmds, s), inGroup, hasGroup)
    ensures var p := Parse(t, strict, rest, inGroup, hasGroup);
            p.Some? ==> TailClear(Run(c, cmds + p.value, s))
    decreases |rest|, 1
  {
    RunIds(c, cmds, s);
    ParsedTailClear(t, strict, rest, inGroup, hasGroup, c, Run(c, cmds, s));
    var p := Parse(t, strict, rest, inGroup, hasGroup);
    if p.Some? {
      RunPrepended(c, s, cmds, p.value);
    }
  }
}
