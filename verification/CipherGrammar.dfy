/**
 * The preference language as a grammar: directives with their written form and
 * their meaning. The parser reads every written directive back as its meaning,
 * and a selector of several rules means their intersection, but for one family.
 */
module CipherGrammar {
  import opened Bytes
  import opened CipherRules
  import opened CipherCommands
  import opened CipherParser

  type Word = w: string | w != [] && Alnum(w[0]) && forall i | 0 <= i < |w| :: TokenChar(w[i]) witness "A"

  /** Rules joined by '+'. */
  type Words = ws: seq<Word> | ws != [] witness ["A"]

  datatype Item = Rules(rule: Rule, words: Words) | Strength | Group(members: seq<Words>)

  function WordsText(ws: Words): (s: string)
    ensures s != [] && Alnum(s[0])
  {
    if |ws| == 1 then ws[0] else ws[0] + ("+" + WordsText(ws[1..]))
  }

  function RuleText(rule: Rule): string {
    match rule case Add => "" case Del => "-" case Ord => "+" case Kill => "!"
  }

  function MembersText(ms: seq<Words>): string {
    if ms == [] then "" else if |ms| == 1 then WordsText(ms[0]) else WordsText(ms[0]) + ("|" + MembersText(ms[1..]))
  }

  function ItemText(item: Item): string {
    match item
    case Rules(rule, words) => RuleText(rule) + WordsText(words)
    case Strength => "@STRENGTH"
    case Group(members) => "[" + MembersText(members) + "]"
  }

  function Text(items: seq<Item>): string {
    if items == [] then "" else if |items| == 1 then ItemText(items[0]) else ItemText(items[0]) + (":" + Text(items[1..]))
  }

  /** The parts a sequence of words amounts to; None for a word strict mode refuses. */
  function Resolve(t: Tables, strict: bool, ws: Words, p: Parts): Option<Parts> {
    match TakePart(t, strict, p, ws[0], |ws| == 1)
    case None => None
    case Some(p') => if |ws| == 1 then Some(p') else Resolve(t, strict, ws[1..], p'.(multi := true))
  }

  function WordsMeaning(t: Tables, strict: bool, rule: Rule, group: bool, ws: Words): Option<seq<Command>> {
    match Resolve(t, strict, ws, NO_PARTS)
    case None => None
    case Some(p) => Some(RuleCommands(rule, group, p))
  }

  function Then(a: Option<seq<Command>>, b: Option<seq<Command>>): Option<seq<Command>> {
    if a.Some? then Prepend(a.value, b) else None
  }

  function MembersMeaning(t: Tables, strict: bool, ms: seq<Words>): Option<seq<Command>> {
    if ms == [] then Some([CloseGroup])
    else Then(WordsMeaning(t, strict, Add, true, ms[0]), MembersMeaning(t, strict, ms[1..]))
  }

  /** What one directive issues; after a group only additions are allowed. */
  function ItemMeaning(t: Tables, strict: bool, item: Item, hasGroup: bool): Option<seq<Command>> {
    match item
    case Rules(rule, words) => if hasGroup && rule != Add then None else WordsMeaning(t, strict, rule, false, words)
    case Strength => if hasGroup then None else Some([SortByStrength])
    case Group(members) => MembersMeaning(t, strict, members)
  }

  function Meaning(t: Tables, strict: bool, items: seq<Item>, hasGroup: bool): Option<seq<Command>> {
    if items == [] then Some([])
    else Then(ItemMeaning(t, strict, items[0], hasGroup), Meaning(t, strict, items[1..], hasGroup || items[0].Group?))
  }

  /** A token cannot run into what follows it. */
  predicate EndsToken(rest: string) {
    rest == [] || !TokenChar(rest[0])
  }

  lemma {:induction false} TokenOf(w: string, rest: string)
    requires (forall i | 0 <= i < |w| :: TokenChar(w[i])) && EndsToken(rest)
    ensures TokenLength(w + rest) == |w|
  {
    if w == [] {
      assert w + rest == rest;
    } else {
      assert (w + rest)[1..] == w[1..] + rest;
      TokenOf(w[1..], rest);
    }
  }

  lemma TokenSplit(w: string, rest: string)
    requires (forall i | 0 <= i < |w| :: TokenChar(w[i])) && EndsToken(rest)
    ensures TokenLength(w + rest) == |w| && (w + rest)[..|w|] == w && (w + rest)[|w|..] == rest
  {
    TokenOf(w, rest);
  }

  function ReadingOf(p: Option<Parts>, rest: string): Option<Reading> {
    if p.Some? then Some(Reading(p.value, rest)) else None
  }

  lemma {:induction false} ReadsWords(t: Tables, strict: bool, ws: Words, p: Parts, rest: string)
    requires EndsToken(rest) && Peek(rest) != '+'
    ensures ReadParts(t, strict, WordsText(ws) + rest, p) == ReadingOf(Resolve(t, strict, ws, p), rest)
    decreases |ws|
  {
    if |ws| == 1 {
      TokenSplit(ws[0], rest);
    } else {
      var more := "+" + WordsText(ws[1..]) + rest;
      assert WordsText(ws) + rest == ws[0] + more;
      TokenSplit(ws[0], more);
      assert more[1..] == WordsText(ws[1..]) + rest;
      assert (ws[0] + more)[|ws[0]| + 1..] == more[1..];
      var p' := TakePart(t, strict, p, ws[0], false);
      if p'.Some? {
        ReadsWords(t, strict, ws[1..], p'.value.(multi := true), rest);
      }
    }
  }

  lemma DirectsWords(t: Tables, strict: bool, rule: Rule, ws: Words, rest: string, inGroup: bool)
    requires EndsToken(rest) && Peek(rest) != '+'
    ensures var d := Directive(t, strict, RuleOp(rule), WordsText(ws) + rest, inGroup);
            var m := WordsMeaning(t, strict, rule, inGroup, ws);
            d == if m.Some? then Some(Directed(m.value, rest)) else None
  {
    ReadsWords(t, strict, ws, NO_PARTS, rest);
  }

  /** Where a written rule's operator and words are found. */
  lemma FindsOp(rule: Rule, ws: Words, rest: string, inGroup: bool)
    requires inGroup ==> rule == Add
    ensures var s := RuleText(rule) + WordsText(ws) + rest;
            && s != [] && s[0] != '\0' && s[0] != '[' && s[0] != ']' && s[0] != '|' && (inGroup ==> Alnum(s[0]))
            && !Separator(s[0], false) && OpAt(s, inGroup) == RuleOp(rule) && PastOp(s, inGroup) == WordsText(ws) + rest
  {
    var s := RuleText(rule) + WordsText(ws) + rest;
    if rule == Add {
      assert s == WordsText(ws) + rest;
    } else {
      assert s[1..] == WordsText(ws) + rest;
    }
  }

  /** A rule, inside or outside a group, issues what its words mean. */
  lemma ParsesWords(t: Tables, strict: bool, rule: Rule, ws: Words, rest: string, inGroup: bool, hasGroup: bool)
    requires EndsToken(rest) && Peek(rest) != '+' && (hasGroup ==> rule == Add) && (inGroup ==> hasGroup)
    ensures Parse(t, strict, RuleText(rule) + WordsText(ws) + rest, inGroup, hasGroup)
         == Then(WordsMeaning(t, strict, rule, inGroup, ws), Parse(t, strict, rest, inGroup, hasGroup))
  {
    FindsOp(rule, ws, rest, inGroup);
    DirectsWords(t, strict, rule, ws, rest, inGroup);
  }

  lemma ParsesLastMember(t: Tables, strict: bool, rest: string)
    ensures Parse(t, strict, "]" + rest, true, true) == Then(Some([CloseGroup]), Parse(t, strict, rest, false, true))
  {
    assert ("]" + rest)[1..] == rest;
  }

  lemma SkipsBar(t: Tables, strict: bool, rest: string)
    ensures Parse(t, strict, "|" + rest, true, true) == Parse(t, strict, rest, true, true)
  {
    assert ("|" + rest)[1..] == rest;
  }

  /** The text after a group's first member. */
  function MoreMembers(ms: seq<Words>, rest: string): string
    requires ms != []
  {
    if |ms| == 1 then "]" + rest else "|" + (MembersText(ms[1..]) + "]" + rest)
  }

  lemma MembersSplit(ms: seq<Words>, rest: string)
    requires ms != []
    ensures MembersText(ms) + "]" + rest == RuleText(Add) + WordsText(ms[0]) + MoreMembers(ms, rest)
  {
  }

  lemma {:induction false} ParsesMembers(t: Tables, strict: bool, ms: seq<Words>, rest: string)
    ensures Parse(t, strict, MembersText(ms) + "]" + rest, true, true)
         == Then(MembersMeaning(t, strict, ms), Parse(t, strict, rest, false, true))
    decreases |ms|
  {
    if ms == [] {
      assert MembersText(ms) + "]" + rest == "]" + rest;
      ParsesLastMember(t, strict, rest);
    } else {
      MembersSplit(ms, rest);
      ParsesWords(t, strict, Add, ms[0], MoreMembers(ms, rest), true, true);
      ParsesMembers(t, strict, ms[1..], rest);
      if |ms| == 1 {
        assert MembersText(ms[1..]) + "]" + rest == "]" + rest;
      } else {
        SkipsBar(t, strict, MembersText(ms[1..]) + "]" + rest);
      }
      ThenAssoc(WordsMeaning(t, strict, Add, true, ms[0]), MembersMeaning(t, strict, ms[1..]), Parse(t, strict, rest, false, true));
    }
  }

  lemma ThenAssoc(a: Option<seq<Command>>, b: Option<seq<Command>>, c: Option<seq<Command>>)
    ensures Then(a, Then(b, c)) == Then(Then(a, b), c)
  {
    if a.Some? && b.Some? && c.Some? {
      assert a.value + (b.value + c.value) == (a.value + b.value) + c.value;
    }
  }

  lemma DirectsStrength(t: Tables, strict: bool, rest: string)
    requires rest == [] || rest[0] == ':'
    ensures Directive(t, strict, Special, "STRENGTH" + rest, false) == Some(Directed([SortByStrength], rest))
  {
    TokenSplit("STRENGTH", rest);
  }

  lemma ParsesSpecial(t: Tables, strict: bool, s: string)
    requires s != [] && s[0] == '@'
    ensures var d := Directive(t, strict, Special, s[1..], false);
            Parse(t, strict, s, false, false) == (
              if d.Some? then Prepend(d.value.cmds, Parse(t, strict, d.value.rest, false, false)) else None)
  {
  }

  lemma ParsesStrength(t: Tables, strict: bool, rest: string)
    requires rest == [] || rest[0] == ':'
    ensures Parse(t, strict, ItemText(Strength) + rest, false, false)
         == Then(Some([SortByStrength]), Parse(t, strict, rest, false, false))
  {
    var s := ItemText(Strength) + rest;
    assert s[1..] == "STRENGTH" + rest;
    ParsesSpecial(t, strict, s);
    DirectsStrength(t, strict, rest);
  }

  lemma ParsesGroup(t: Tables, strict: bool, members: seq<Words>, rest: string, hasGroup: bool)
    ensures Parse(t, strict, ItemText(Group(members)) + rest, false, hasGroup)
         == Then(MembersMeaning(t, strict, members), Parse(t, strict, rest, false, true))
  {
    var s := ItemText(Group(members)) + rest;
    assert s[0] == '[' && s[1..] == MembersText(members) + "]" + rest;
    assert Parse(t, strict, s, false, hasGroup) == Parse(t, strict, s[1..], true, true);
    ParsesMembers(t, strict, members, rest);
  }

  lemma ParsesItem(t: Tables, strict: bool, item: Item, rest: string, hasGroup: bool)
    requires rest == [] || rest[0] == ':'
    ensures Parse(t, strict, ItemText(item) + rest, false, hasGroup)
         == Then(ItemMeaning(t, strict, item, hasGroup), Parse(t, strict, rest, false, hasGroup || item.Group?))
  {
    match item {
      case Rules(rule, words) =>
        if !(hasGroup && rule != Add) {
          ParsesWords(t, strict, rule, words, rest, false, hasGroup);
        }
      case Strength =>
        if !hasGroup {
          ParsesStrength(t, strict, rest);
        }
      case Group(members) =>
        ParsesGroup(t, strict, members, rest, hasGroup);
    }
  }

  /** Reading back: the text of any directives parses to exactly their meaning. */
  lemma {:induction false} ParseInvertsText(t: Tables, strict: bool, items: seq<Item>, hasGroup: bool)
    ensures Parse(t, strict, Text(items), false, hasGroup) == Meaning(t, strict, items, hasGroup)
    decreases |items|
  {
    if items != [] {
      var rest := if |items| == 1 then "" else ":" + Text(items[1..]);
      assert Text(items) == ItemText(items[0]) + rest;
      ParsesItem(t, strict, items[0], rest, hasGroup);
      ParseInvertsText(t, strict, items[1..], hasGroup || items[0].Group?);
      if |items| > 1 {
        assert rest[1..] == Text(items[1..]);
      }
    }
  }

  // Intersections

  /** Which ciphers one alias selects. */
  predicate AliasMatches(a: Alias, c: Cipher) {
    && a.mkey * c.mkey != {} && a.auth * c.auth != {} && a.enc * c.enc != {} && a.mac * c.mac != {}
    && (a.minVersion == 0 || c.minVersion == a.minVersion) && c.enc != E_NULL
  }

  ghost predicate OneBit(m: mask) {
    exists i: nat :: i < 32 && m == {i}
  }

  /** A cipher uses one algorithm of each kind. */
  ghost predicate Plain(c: Cipher) {
    OneBit(c.mkey) && OneBit(c.auth) && OneBit(c.enc) && OneBit(c.mac)
  }

  lemma AndBits(a: mask, b: mask, m: mask)
    requires OneBit(m)
    ensures (a * b) * m != {} <==> a * m != {} && b * m != {}
  {
    var i: nat :| m == {i};
    assert i in (a * b) * m || (a * b) * m == {};
    assert i in a * m || a * m == {};
    assert i in b * m || b * m == {};
  }

  ghost predicate AllMatch(rules: seq<Alias>, c: Cipher) {
    rules == [] || (AliasMatches(rules[0], c) && AllMatch(rules[1..], c))
  }

  function NarrowAll(p: Parts, rules: seq<Alias>): Parts
    decreases |rules|
  {
    if rules == [] then p else NarrowAll(p.Narrow(rules[0]), rules[1..])
  }

  /** A rule restricted to a version is followed by one that is not. */
  predicate VersionDropped(v: nat, rules: seq<Alias>)
    decreases |rules|
  {
    rules != [] && ((v != 0 && rules[0].minVersion == 0) || VersionDropped(if v != 0 then v else rules[0].minVersion, rules[1..]))
  }

  ghost predicate Selects(p: Parts, c: Cipher) {
    !p.skip && p.id == 0 && Matches(p.ToSelector(), c)
  }

  lemma NarrowSelects(p: Parts, a: Alias, c: Cipher)
    requires Plain(c) && p.id == 0
    ensures Selects(p.Narrow(a), c) <==> Selects(p, c) && AliasMatches(a, c) && !(p.minVersion != 0 && a.minVersion == 0)
  {
    AndBits(p.mkey, a.mkey, c.mkey);
    AndBits(p.auth, a.auth, c.auth);
    AndBits(p.enc, a.enc, c.enc);
    AndBits(p.mac, a.mac, c.mac);
  }

  lemma {:induction false} SkipIsKept(p: Parts, rules: seq<Alias>)
    requires p.skip
    ensures NarrowAll(p, rules).skip
    decreases |rules|
  {
    if rules != [] {
      SkipIsKept(p.Narrow(rules[0]), rules[1..]);
    }
  }

  /**
   * A selector of several rules selects the intersection of what they select,
   * except that it selects nothing at all as soon as a rule without a version
   * follows one with a version.
   */
  lemma {:induction false} SelectsIntersection(p: Parts, rules: seq<Alias>, c: Cipher)
    requires Plain(c) && p.id == 0
    ensures Selects(NarrowAll(p, rules), c) <==> Selects(p, c) && AllMatch(rules, c) && !VersionDropped(p.minVersion, rules)
    decreases |rules|
  {
    if rules != [] {
      NarrowSelects(p, rules[0], c);
      SelectsIntersection(p.Narrow(rules[0]), rules[1..], c);
      if p.Narrow(rules[0]).skip {
        SkipIsKept(p.Narrow(rules[0]), rules[1..]);
      }
    }
  }

  /** The order of rules matters: the same two, written the other way round, select nothing. */
  lemma IntersectionDependsOnOrder(c: Cipher)
    requires c == Cipher(7, {0}, {0}, {1}, {0}, 0x0303, 128)
    ensures var v := Alias("TLSv1.2", ALL_BITS, ALL_BITS, ALL_BITS, ALL_BITS, 0x0303);
            var e := Alias("AES", ALL_BITS, ALL_BITS, {1, 2, 3, 4}, ALL_BITS, 0);
            AllMatch([v, e], c) && Selects(NarrowAll(NO_PARTS, [e, v]), c) && !Selects(NarrowAll(NO_PARTS, [v, e]), c)
  {
    var v := Alias("TLSv1.2", ALL_BITS, ALL_BITS, ALL_BITS, ALL_BITS, 0x0303);
    var e := Alias("AES", ALL_BITS, ALL_BITS, {1, 2, 3, 4}, ALL_BITS, 0);
    assert [v, e][1..] == [e] && [e, v][1..] == [v] && [v][1..] == [] && [e][1..] == [];
    assert 0 in ALL_BITS * {0} && 1 in ALL_BITS * {1} && 1 in {1, 2, 3, 4} * {1};
    assert 1 in (ALL_BITS * {1, 2, 3, 4} * ALL_BITS) * {1} && 0 in (ALL_BITS * ALL_BITS * ALL_BITS) * {0};
    NarrowTwo(NO_PARTS, v, e);
    NarrowTwo(NO_PARTS, e, v);
  }

  lemma NarrowTwo(p: Parts, a: Alias, b: Alias)
    ensures NarrowAll(p, [a, b]) == p.Narrow(a).Narrow(b)
  {
    assert [a, b][1..] == [b] && [b][1..] == [];
    assert NarrowAll(p.Narrow(a), [b]) == NarrowAll(p.Narrow(a).Narrow(b), []);
  }

  /** What words resolve to when each names an alias and they are not one cipher's name. */
  ghost predicate NameAliases(t: Tables, ws: seq<Word>, rules: seq<Alias>) {
    |ws| == |rules| && forall i | 0 <= i < |ws| :: AliasNamed(t.aliases, ws[i]) == Some(rules[i])
  }

  lemma {:induction false} ResolveNarrows(t: Tables, strict: bool, ws: Words, rules: seq<Alias>, p: Parts)
    requires NameAliases(t, ws, rules) && p.id == 0 && (p.multi || |ws| > 1 || IdNamed(t.names, ws[0]) == 0)
    ensures var r := Resolve(t, strict, ws, p);
            r.Some? && r.value.(multi := false) == NarrowAll(p, rules).(multi := false)
    decreases |ws|
  {
    if |ws| > 1 {
      var q := p.Narrow(rules[0]).(multi := true);
      ResolveNarrows(t, strict, ws[1..], rules[1..], q);
      MultiIsKept(p.Narrow(rules[0]), rules[1..]);
    }
  }

  lemma {:induction false} MultiIsKept(p: Parts, rules: seq<Alias>)
    ensures NarrowAll(p.(multi := true), rules).(multi := false) == NarrowAll(p, rules).(multi := false)
    decreases |rules|
  {
    if rules != [] {
      MultiIsKept(p.Narrow(rules[0]), rules[1..]);
      assert p.(multi := true).Narrow(rules[0]) == p.Narrow(rules[0]).(multi := true);
    }
  }

  /** What a written rule of aliases issues, and which ciphers it then reaches. */
  lemma RuleSelectsIntersection(t: Tables, strict: bool, rule: Rule, group: bool, ws: Words, rules: seq<Alias>, c: Cipher)
    requires NameAliases(t, ws, rules) && (|ws| > 1 || IdNamed(t.names, ws[0]) == 0) && Plain(c) && c.enc != E_NULL
    ensures var m := WordsMeaning(t, strict, rule, group, ws);
            && m.Some?
            && ((m.value != [] && m.value[0].Issue? && Matches(m.value[0].sel, c)) <==> AllMatch(rules, c) && !VersionDropped(0, rules))
  {
    ResolveNarrows(t, strict, ws, rules, NO_PARTS);
    NarrowedId(NO_PARTS, rules);
    SelectsIntersection(NO_PARTS, rules, c);
    FullMask(c.mkey);
    FullMask(c.auth);
    FullMask(c.enc);
    FullMask(c.mac);
  }

  lemma {:induction false} NarrowedId(p: Parts, rules: seq<Alias>)
    ensures NarrowAll(p, rules).id == p.id
    decreases |rules|
  {
    if rules != [] {
      NarrowedId(p.Narrow(rules[0]), rules[1..]);
    }
  }

  lemma FullMask(m: mask)
    requires OneBit(m)
    ensures ALL_BITS * m == m && m != {}
  {
  }
}
