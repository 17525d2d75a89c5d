/** Whole runs of preference commands, as a rule string issues them. */
module CipherCommands {
  import opened CipherRules
  import opened CipherOrdering

  datatype Command =
    | Issue(rule: Rule, sel: Selector, group: bool)
    | SortByStrength
    | CloseGroup

  /** Closing a group ends it at the last cipher of the list. */
  ghost function Closed(s: seq<Entry>): seq<Entry> {
    if s == [] then [] else s[..|s| - 1] + [s[|s| - 1].(inGroup := false)]
  }

  ghost function Exec(c: seq<Cipher>, cmd: Command, s: seq<Entry>): seq<Entry>
    requires InTable(c, s)
  {
    match cmd
    case Issue(rule, sel, group) => Apply(rule, Picks(c, sel), group, s)
    case SortByStrength => StrengthSorted(c, s)
    case CloseGroup => Closed(s)
  }

  ghost function Run(c: seq<Cipher>, cmds: seq<Command>, s: seq<Entry>): seq<Entry>
    requires InTable(c, s)
    decreases |cmds|
  {
    if cmds == [] then s
    else
      ExecIds(c, cmds[0], s);
      Run(c, cmds[1..], Exec(c, cmds[0], s))
  }

  lemma {:induction false} InTableIds(c: seq<Cipher>, s: seq<Entry>)
    ensures InTable(c, s) <==> forall x | x in IdSet(s) :: x < |c|
  {
    if s != [] {
      InTableIds(c, s[1..]);
      assert s[0] in s && s[0].id in IdSet(s);
      assert forall e | e in s :: e == s[0] || e in s[1..];
      assert forall x | x in IdSet(s[1..]) :: x in IdSet(s);
    }
  }

  ghost function Removed(c: seq<Cipher>, cmd: Command): set<nat> {
    if cmd.Issue? && cmd.rule == Kill then Picks(c, cmd.sel) else {}
  }

  /** A command loses exactly the ciphers it kills. */
  lemma ExecIds(c: seq<Cipher>, cmd: Command, s: seq<Entry>)
    requires InTable(c, s)
    ensures IdSet(Exec(c, cmd, s)) == IdSet(s) - Removed(c, cmd)
    ensures InTable(c, Exec(c, cmd, s))
  {
    match cmd {
      case Issue(rule, sel, group) => ApplyIds(rule, Picks(c, sel), group, s);
      case SortByStrength => StrengthIds(c, s);
      case CloseGroup => ClosedIds(s);
    }
    InTableIds(c, s);
    InTableIds(c, Exec(c, cmd, s));
  }

  lemma ClosedIds(s: seq<Entry>)
    ensures IdSet(Closed(s)) == IdSet(s)
  {
    if s != [] {
      var init, e := s[..|s| - 1], s[|s| - 1];
      IdSetConcat(init, [e]);
      IdSetConcat(init, [e.(inGroup := false)]);
      assert s == init + [e];
    }
  }

  /** What the commands of a run kill, all told. */
  ghost function AllRemoved(c: seq<Cipher>, cmds: seq<Command>): set<nat> {
    if cmds == [] then {} else Removed(c, cmds[0]) + AllRemoved(c, cmds[1..])
  }

  /** Over a whole run the list holds exactly what it held before, less what was killed. */
  lemma {:induction false} RunIds(c: seq<Cipher>, cmds: seq<Command>, s: seq<Entry>)
    requires InTable(c, s)
    ensures InTable(c, Run(c, cmds, s)) && IdSet(Run(c, cmds, s)) == IdSet(s) - AllRemoved(c, cmds)
    decreases |cmds|
  {
    if cmds != [] {
      ExecIds(c, cmds[0], s);
      RunIds(c, cmds[1..], Exec(c, cmds[0], s));
    }
  }

  lemma {:induction false} KillIsRemoved(c: seq<Cipher>, cmds: seq<Command>, k: nat)
    requires k < |cmds| && cmds[k].Issue? && cmds[k].rule == Kill
    ensures Picks(c, cmds[k].sel) <= AllRemoved(c, cmds)
  {
    if k > 0 {
      KillIsRemoved(c, cmds[1..], k - 1);
    }
  }

  /** Killed ciphers never return, whatever commands come later. */
  lemma KilledStaysOut(c: seq<Cipher>, cmds: seq<Command>, k: nat, s: seq<Entry>, x: nat)
    requires InTable(c, s) && k < |cmds| && cmds[k].Issue? && cmds[k].rule == Kill && x in Picks(c, cmds[k].sel)
    ensures x !in IdSet(Run(c, cmds, s))
  {
    RunIds(c, cmds, s);
    KillIsRemoved(c, cmds, k);
  }

  // @STRENGTH in a run

  lemma {:induction false} LowInactive(c: seq<Cipher>, s: seq<Entry>)
    requires InTable(c, s)
    ensures AllInactive(Low(c, s, -1)) && forall e | e in Low(c, s, -1) :: e in s
  {
    if s != [] {
      assert s[0] in s;
      LowInactive(c, s[1..]);
    }
  }

  /** The ids of disabled entries, in order. */
  ghost function DisabledIds(s: seq<Entry>): seq<nat> {
    if s == [] then [] else (if s[0].active then [] else [s[0].id]) + DisabledIds(s[1..])
  }

  lemma {:induction false} LowIds(c: seq<Cipher>, s: seq<Entry>)
    requires InTable(c, s)
    ensures Ids(Low(c, s, -1)) == DisabledIds(s)
  {
    if s != [] {
      assert s[0] in s;
      LowIds(c, s[1..]);
    }
  }

  lemma {:induction false} OfBitsMembers(c: seq<Cipher>, s: seq<Entry>, x: nat, b: int)
    requires InTable(c, s)
    ensures x in OfBits(c, s, b) <==> exists e :: e in s && e.active && e.id == x && c[x].bits == b
  {
    if s != [] {
      OfBitsMembers(c, s[1..], x, b);
      assert s == [s[0]] + s[1..];
    }
  }

  /**
   * What @STRENGTH means: disabled ciphers first, unmoved among themselves;
   * then the enabled ones, strongest first, each strength in its old order,
   * none in a group.
   */
  lemma StrengthMeaning(c: seq<Cipher>, s: seq<Entry>) returns (low: seq<Entry>, high: seq<Entry>)
    requires InTable(c, s)
    ensures StrengthSorted(c, s) == low + high
    ensures AllInactive(low) && Ids(low) == DisabledIds(s) && forall e | e in low :: e in s
    ensures AllActive(high) && SortedDown(c, high) && NoGroups(high)
    ensures forall b: nat :: OfBits(c, high, b) == OfBits(c, s, b)
  {
    var max := MaxBits(c, s);
    low, high := Low(c, s, -1), High(c, s, -1, max);
    LowInactive(c, s);
    LowIds(c, s);
    HighIsSorted(c, s, -1, max);
    HighNoGroups(c, s, -1, max);
    forall b: nat ensures OfBits(c, high, b) == OfBits(c, s, b) {
      HighIsStable(c, s, -1, max, b);
      if b > max {
        MaxBitsIsMax(c, s);
        NoneAbove(c, s, b);
      }
    }
  }

  lemma {:induction false} NoneAbove(c: seq<Cipher>, s: seq<Entry>, b: int)
    requires InTable(c, s) && forall e | e in s && e.active :: c[e.id].bits < b
    ensures OfBits(c, s, b) == []
  {
    if s != [] {
      assert s[0] in s;
      NoneAbove(c, s[1..], b);
    }
  }

  ghost predicate NoGroups(s: seq<Entry>) {
    forall e | e in s :: !e.inGroup
  }

  lemma {:induction false} HighNoGroups(c: seq<Cipher>, s: seq<Entry>, i: int, max: int)
    requires InTable(c, s)
    ensures NoGroups(High(c, s, i, max))
    decreases max - i
  {
    if i < max {
      HighNoGroups(c, s, i + 1, max);
      BucketBits(c, s, i + 1);
    }
  }

  lemma StrengthIds(c: seq<Cipher>, s: seq<Entry>)
    requires InTable(c, s)
    ensures IdSet(StrengthSorted(c, s)) == IdSet(s)
  {
    var max := MaxBits(c, s);
    MaxBitsIsMax(c, s);
    IdSetConcat(Low(c, s, -1), High(c, s, -1, max));
    LowHighIds(c, s, -1, max);
  }

  lemma {:induction false} BucketIds(c: seq<Cipher>, s: seq<Entry>, i: int)
    requires InTable(c, s)
    ensures IdSet(Low(c, s, i - 1)) + IdSet(Bucket(c, s, i)) == IdSet(Low(c, s, i))
  {
    if s != [] {
      var e := s[0];
      assert e in s;
      BucketIds(c, s[1..], i);
      IdSetConcat(if !e.active || c[e.id].bits <= i then [e] else [], Low(c, s[1..], i));
      IdSetConcat(if !e.active || c[e.id].bits <= i - 1 then [e] else [], Low(c, s[1..], i - 1));
      IdSetConcat(if e.active && c[e.id].bits == i then [Entry(e.id, true, false)] else [], Bucket(c, s[1..], i));
    }
  }

  lemma HighIds(c: seq<Cipher>, s: seq<Entry>, i: int, max: int)
    requires InTable(c, s) && i < max
    ensures IdSet(High(c, s, i, max)) == IdSet(High(c, s, i + 1, max)) + IdSet(Bucket(c, s, i + 1))
  {
    IdSetConcat(High(c, s, i + 1, max), Bucket(c, s, i + 1));
  }

  lemma BucketMoves(c: seq<Cipher>, s: seq<Entry>, i: int, max: int)
    requires InTable(c, s) && i < max
    ensures IdSet(Low(c, s, i)) + IdSet(High(c, s, i, max)) == IdSet(Low(c, s, i + 1)) + IdSet(High(c, s, i + 1, max))
  {
    BucketIds(c, s, i + 1);
    HighIds(c, s, i, max);
  }

  lemma {:induction false} LowHighIds(c: seq<Cipher>, s: seq<Entry>, i: int, max: int)
    requires IsMaxBits(c, s, max) && i <= max
    ensures IdSet(Low(c, s, i)) + IdSet(High(c, s, i, max)) == IdSet(s)
    decreases max - i
  {
    if i == max {
      LowIsAll(c, s, max);
    } else {
      LowHighIds(c, s, i + 1, max);
      BucketMoves(c, s, i, max);
    }
  }

  lemma ActiveLast(a: seq<Entry>, b: seq<Entry>)
    requires AllInactive(a) && AllActive(b)
    ensures InactiveFirst(a + b)
  {
  }

  lemma ExecKeepsInactiveFirst(c: seq<Cipher>, cmd: Command, s: seq<Entry>)
    requires InTable(c, s) && InactiveFirst(s)
    ensures InactiveFirst(Exec(c, cmd, s))
  {
    match cmd {
      case Issue(rule, sel, group) => ApplyKeepsInactiveFirst(rule, Picks(c, sel), group, s);
      case SortByStrength =>
        var low, high := StrengthMeaning(c, s);
        ActiveLast(low, high);
      case CloseGroup =>
    }
  }

  /** Disabled ciphers precede enabled ones after any run. */
  lemma {:induction false} RunKeepsInactiveFirst(c: seq<Cipher>, cmds: seq<Command>, s: seq<Entry>)
    requires InTable(c, s) && InactiveFirst(s)
    ensures InactiveFirst(Run(c, cmds, s))
    decreases |cmds|
  {
    if cmds != [] {
      ExecIds(c, cmds[0], s);
      ExecKeepsInactiveFirst(c, cmds[0], s);
      RunKeepsInactiveFirst(c, cmds[1..], Exec(c, cmds[0], s));
    }
  }

  lemma {:induction false} RunConcat(c: seq<Cipher>, p: seq<Command>, q: seq<Command>, s: seq<Entry>)
    requires InTable(c, s)
    ensures InTable(c, Run(c, p, s)) && Run(c, p + q, s) == Run(c, q, Run(c, p, s))
    decreases |p|
  {
    RunIds(c, p, s);
    if p == [] {
      assert p + q == q;
    } else {
      ExecIds(c, p[0], s);
      assert (p + q)[1..] == p[1..] + q;
      RunConcat(c, p[1..], q, Exec(c, p[0], s));
    }
  }

  // Equal-preference groups

  /** The list does not end inside a group. */
  ghost predicate TailClear(s: seq<Entry>) {
    s == [] || !s[|s| - 1].inGroup
  }

  /** What holds between commands: groups end, unless one is open. */
  ghost predicate GroupInv(s: seq<Entry>, inGroup: bool, hasGroup: bool) {
    && (inGroup ==> hasGroup)
    && (!hasGroup ==> NoGroups(s))
    && (!inGroup ==> TailClear(s))
  }

  lemma {:induction false} NothingMoved(rule: Rule, sel: set<nat>, group: bool, s: seq<Entry>)
    ensures Moved(rule, sel, group, s) == [] ==> Kept(rule, sel, s) == s
    ensures NoGroups(s) ==> NoGroups(Kept(rule, sel, s))
  {
    if s != [] {
      NothingMoved(rule, sel, group, s[1..]);
      assert s == [s[0]] + s[1..];
    }
  }

  /** Outside a group, adding ciphers leaves the list's end outside any group. */
  lemma AddKeepsTail(sel: set<nat>, s: seq<Entry>)
    requires TailClear(s)
    ensures TailClear(Apply(Add, sel, false, s))
  {
    var k, m := Kept(Add, sel, s), Moved(Add, sel, false, s);
    NothingMoved(Add, sel, false, s);
    MovedFlags(Add, sel, false, s);
    if m == [] {
      assert k + m == s;
    } else {
      assert (k + m)[|k + m| - 1] == m[|m| - 1];
      assert m[|m| - 1] in m;
    }
  }

  lemma RuleKeepsNoGroups(rule: Rule, sel: set<nat>, s: seq<Entry>)
    requires NoGroups(s)
    ensures NoGroups(Apply(rule, sel, false, s))
  {
    NothingMoved(rule, sel, false, s);
    MovedFlags(rule, sel, false, s);
  }

  /** Which commands may be issued, given the groups seen so far. */
  predicate Allowed(cmd: Command, inGroup: bool, hasGroup: bool) {
    match cmd
    case Issue(rule, _, group) => group == inGroup && (hasGroup ==> rule == Add)
    case SortByStrength => !hasGroup
    case CloseGroup => inGroup
  }

  lemma ExecKeepsGroupInv(c: seq<Cipher>, cmd: Command, s: seq<Entry>, inGroup: bool, hasGroup: bool)
    requires InTable(c, s) && GroupInv(s, inGroup, hasGroup) && Allowed(cmd, inGroup, hasGroup)
    ensures GroupInv(Exec(c, cmd, s), inGroup && !cmd.CloseGroup?, hasGroup)
  {
    match cmd {
      case Issue(rule, sel, group) =>
        if !hasGroup {
          RuleKeepsNoGroups(rule, Picks(c, sel), s);
        } else if !inGroup {
          AddKeepsTail(Picks(c, sel), s);
        }
      case SortByStrength =>
        var low, high := StrengthMeaning(c, s);
      case CloseGroup =>
    }
  }
}
