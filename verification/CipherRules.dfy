/**
 * Cipher preference rules. On sequences a rule is a stable filter and append;
 * on the linked list it is a traversal that splices while it walks. The two
 * agree for every cipher table.
 */
module CipherRules {
  import opened CipherList

  /** A bit mask, as the set of its bit positions. */
  type mask = set<nat>

  /** SSL_CIPHER, as far as rules look at it */
  datatype Cipher = Cipher(id: nat, mkey: mask, auth: mask, enc: mask, mac: mask, minVersion: nat, bits: nat)

  const E_NULL: mask := {5}

  datatype Selector =
    Selector(cipherId: nat, mkey: mask, auth: mask, enc: mask, mac: mask, minVersion: nat, strengthBits: int)

  /** Which ciphers a rule's parameters select. */
  predicate Matches(sel: Selector, c: Cipher) {
    if sel.cipherId != 0 then sel.cipherId == c.id
    else if sel.strengthBits >= 0 then sel.strengthBits == c.bits
    else
      && sel.mkey * c.mkey != {} && sel.auth * c.auth != {} && sel.enc * c.enc != {} && sel.mac * c.mac != {}
      && (sel.minVersion == 0 || c.minVersion == sel.minVersion)
      && c.enc != E_NULL
  }

  /** The table indices a selector picks. */
  ghost function Picks(c: seq<Cipher>, sel: Selector): set<nat> {
    set x: nat | x < |c| && Matches(sel, c[x])
  }

  datatype Rule = Add | Kill | Del | Ord

  /** A list element: its table index and its two flags. */
  datatype Entry = Entry(id: nat, active: bool, inGroup: bool)

  /** The elements a rule acts on, among those selected. */
  predicate Hit(rule: Rule, sel: set<nat>, e: Entry) {
    e.id in sel && match rule case Add => !e.active case Ord => e.active case Del => e.active case Kill => true
  }

  function Update(rule: Rule, group: bool, e: Entry): (r: Entry)
    ensures r.id == e.id
  {
    match rule
    case Add => Entry(e.id, true, group)
    case Ord => Entry(e.id, e.active, false)
    case Del => Entry(e.id, false, false)
    case Kill => Entry(e.id, false, e.inGroup)
  }

  /** The elements the rule leaves alone, in order. */
  function Kept(rule: Rule, sel: set<nat>, s: seq<Entry>): seq<Entry> {
    if s == [] then [] else (if Hit(rule, sel, s[0]) then [] else [s[0]]) + Kept(rule, sel, s[1..])
  }

  /** The elements the rule acts on, updated, in order. */
  function Moved(rule: Rule, sel: set<nat>, group: bool, s: seq<Entry>): seq<Entry> {
    if s == [] then []
    else (if Hit(rule, sel, s[0]) then [Update(rule, group, s[0])] else []) + Moved(rule, sel, group, s[1..])
  }

  /** The rule as sequence rewriting. */
  function Apply(rule: Rule, sel: set<nat>, group: bool, s: seq<Entry>): seq<Entry> {
    match rule
    case Add => Kept(rule, sel, s) + Moved(rule, sel, group, s)
    case Ord => Kept(rule, sel, s) + Moved(rule, sel, group, s)
    case Del => Moved(rule, sel, group, s) + Kept(rule, sel, s)
    case Kill => Kept(rule, sel, s)
  }

  ghost function Ids(s: seq<Entry>): (r: seq<nat>)
    ensures |r| == |s| && forall i | 0 <= i < |s| :: r[i] == s[i].id
  {
    seq(|s|, i requires 0 <= i < |s| => s[i].id)
  }

  /** The entries carry the flags the table holds for them. */
  ghost predicate Shows(s: seq<Entry>, active: seq<bool>, inGroup: seq<bool>) {
    |active| == |inGroup| && forall i | 0 <= i < |s| :: s[i].id < |active| && s[i].active == active[s[i].id] && s[i].inGroup == inGroup[s[i].id]
  }

  lemma ShowsConcat(a: seq<Entry>, b: seq<Entry>, active: seq<bool>, inGroup: seq<bool>)
    ensures Shows(a + b, active, inGroup) <==> Shows(a, active, inGroup) && Shows(b, active, inGroup)
  {
    if Shows(a + b, active, inGroup) {
      forall i | 0 <= i < |a| ensures a[i] == (a + b)[i] {}
      forall i | 0 <= i < |b| ensures b[i] == (a + b)[|a| + i] {}
    }
  }

  lemma ShowsFrame(s: seq<Entry>, active: seq<bool>, inGroup: seq<bool>, x: nat, act: bool, grp: bool)
    requires Shows(s, active, inGroup) && x < |active| && x !in Ids(s)
    ensures Shows(s, active[x := act], inGroup[x := grp])
  {
  }

  lemma SplitIds(a: seq<Entry>, e: Entry, b: seq<Entry>)
    ensures Ids(a + [e] + b) == Ids(a) + [e.id] + Ids(b)
    ensures Ids(a + b) == Ids(a) + Ids(b)
    ensures forall e': Entry | e'.id == e.id :: Ids(a + b + [e']) == Ids(a) + Ids(b) + [e.id]
    ensures forall e': Entry | e'.id == e.id :: Ids([e'] + (a + b)) == [e.id] + Ids(a) + Ids(b)
  {
  }

  lemma ShowsAround(a: seq<Entry>, e: Entry, b: seq<Entry>, active: seq<bool>, inGroup: seq<bool>)
    requires Shows(a + [e] + b, active, inGroup)
    ensures Shows(a + b, active, inGroup)
    ensures e.id < |active| && e.active == active[e.id] && e.inGroup == inGroup[e.id]
  {
    ShowsConcat(a + [e], b, active, inGroup);
    ShowsConcat(a, [e], active, inGroup);
    ShowsConcat(a, b, active, inGroup);
    assert [e][0] == e;
  }

  /** An entry outside c takes new flags and joins c at either end. */
  lemma ShowsMoved(c: seq<Entry>, e: Entry, active: seq<bool>, inGroup: seq<bool>)
    requires Shows(c, active, inGroup) && e.id < |active| && e.id !in Ids(c)
    ensures Shows(c + [e], active[e.id := e.active], inGroup[e.id := e.inGroup])
    ensures Shows([e] + c, active[e.id := e.active], inGroup[e.id := e.inGroup])
  {
    ShowsFrame(c, active, inGroup, e.id, e.active, e.inGroup);
    ShowsConcat(c, [e], active[e.id := e.active], inGroup[e.id := e.inGroup]);
    ShowsConcat([e], c, active[e.id := e.active], inGroup[e.id := e.inGroup]);
  }

  /** The list after a rule has looked at e, between a and b. */
  ghost function Step(rule: Rule, sel: set<nat>, group: bool, a: seq<Entry>, e: Entry, b: seq<Entry>): seq<Entry> {
    if !Hit(rule, sel, e) then a + [e] + b
    else
      match rule
      case Add => a + b + [Update(rule, group, e)]
      case Ord => a + b + [Update(rule, group, e)]
      case Del => [Update(rule, group, e)] + (a + b)
      case Kill => a + b
  }

  const K_GENERIC: mask := {3}

  /** TLS 1.3 ciphers take no part in preference rules. */
  function Collected(table: seq<Cipher>): seq<Cipher> {
    if table == [] then []
    else (if table[0].mkey != K_GENERIC then [table[0]] else []) + Collected(table[1..])
  }

  ghost function AllDisabled(n: nat): (s: seq<Entry>)
    ensures |s| == n && forall i | 0 <= i < n :: s[i] == Entry(i, false, false)
  {
    seq(n, i requires 0 <= i < n => Entry(i, false, false))
  }

  /** The table of CIPHER_ORDER entries, field by field, and the list through it. */
  class CipherOrderList {
    const ciphers: seq<Cipher>
    var active: seq<bool>
    var inGroup: seq<bool>
    var next: seq<int>
    var prev: seq<int>
    var head: int
    var tail: int
    /** table indices in list order */
    ghost var nodes: seq<nat>
    /** the list as a value */
    ghost var entries: seq<Entry>

    ghost predicate Valid()
      reads this
    {
      LinksValid() && |active| == |inGroup| == |next| == |ciphers| && nodes == Ids(entries) && Shows(entries, active, inGroup)
    }

    ghost predicate LinksValid()
      reads this`next, this`prev, this`head, this`tail, this`nodes
    {
      Linked(next, prev, nodes) && head == First(nodes) && tail == Last(nodes)
    }

    /** ssl_cipher_collect_ciphers: the table in its own order, all disabled. */
    constructor (table: seq<Cipher>)
      ensures Valid() && ciphers == Collected(table) && entries == AllDisabled(|ciphers|)
    {
      var c := Collected(table);
      ciphers := c;
      active := seq(|c|, _ => false);
      inGroup := seq(|c|, _ => false);
      next := seq(|c|, i => if i + 1 < |c| then i + 1 else NULL);
      prev := seq(|c|, i => if i > 0 then i - 1 else NULL);
      head := if c == [] then NULL else 0;
      tail := |c| - 1;
      nodes := UpTo(|c|);
      entries := AllDisabled(|c|);
      new;
      RowLinks(next, prev);
      assert nodes == Ids(entries);
    }

    /** The end of an equal-preference group. */
    method CloseTail()
      requires Valid()
      modifies this
      ensures Valid()
      ensures var s := old(entries); entries == if s == [] then [] else s[..|s| - 1] + [s[|s| - 1].(inGroup := false)]
    {
      Ends();
      if tail != NULL {
        ghost var a, e := entries[..|entries| - 1], entries[|entries| - 1];
        assert entries == a + [e] + [];
        ShowsAround(a, e, [], active, inGroup);
        Around(tail, a, e, []);
        assert a + [] == a && e.id !in Ids(a);
        ShowsMoved(a, e.(inGroup := false), active, inGroup);
        assert active == active[e.id := e.active];
        inGroup := inGroup[tail := false];
        entries := a + [e.(inGroup := false)];
        assert Ids(entries) == nodes;
      }
    }

    /** The start of every splice: the neighbours of curr point to each other. */
    method JoinNeighbours(curr: nat, ghost a: seq<nat>, ghost b: seq<nat>)
      requires Linked(next, prev, nodes) && nodes == a + [curr] + b
      modifies this`next, this`prev
      ensures |next| == |old(next)| && Linked(next, prev, a + b)
    {
      LinkedAround(next, prev, a, curr, b);
      JoinLinks(next, prev, a, curr, b);
      if prev[curr] != NULL {
        next := next[prev[curr] := next[curr]];
      }
      if next[curr] != NULL {
        prev := prev[next[curr] := prev[curr]];
      }
    }

    /** ll_append_tail: the node between a and b becomes the last. */
    method AppendTail(curr: nat, ghost a: seq<nat>, ghost b: seq<nat>)
      requires LinksValid() && nodes == a + [curr] + b
      modifies this`next, this`prev, this`head, this`tail, this`nodes
      ensures LinksValid() && nodes == a + b + [curr] && |next| == |old(next)|
    {
      LinkedAround(next, prev, a, curr, b);
      if curr == tail {
        assert b == [];
        assert nodes == a + b + [curr];
        return;
      }
      if curr == head {
        head := next[curr];
      }
      JoinNeighbours(curr, a, b);
      PushBackLinks(next, prev, a + b, curr);
      next := next[tail := curr];
      prev := prev[curr := tail];
      next := next[curr := NULL];
      tail := curr;
      nodes := a + b + [curr];
    }

    /** ll_append_head: the node between a and b becomes the first. */
    method AppendHead(curr: nat, ghost a: seq<nat>, ghost b: seq<nat>)
      requires LinksValid() && nodes == a + [curr] + b
      modifies this`next, this`prev, this`head, this`tail, this`nodes
      ensures LinksValid() && nodes == [curr] + a + b && |next| == |old(next)|
    {
      LinkedAround(next, prev, a, curr, b);
      if curr == head {
        assert a == [];
        assert nodes == [curr] + a + b;
        return;
      }
      if curr == tail {
        tail := prev[curr];
      }
      JoinNeighbours(curr, a, b);
      PushFrontLinks(next, prev, a + b, curr);
      prev := prev[head := curr];
      next := next[curr := head];
      prev := prev[curr := NULL];
      head := curr;
      nodes := [curr] + a + b;
      assert [curr] + (a + b) == nodes;
    }

    /** The unlinking of a KILL rule: the node between a and b leaves the list. */
    method Kill(curr: nat, ghost a: seq<nat>, ghost b: seq<nat>)
      requires LinksValid() && nodes == a + [curr] + b
      modifies this`next, this`prev, this`head, this`tail, this`nodes
      ensures LinksValid() && nodes == a + b && |next| == |old(next)|
    {
      LinkedAround(next, prev, a, curr, b);
      if head == curr {
        head := next[curr];
      }
      if tail == curr {
        tail := prev[curr];
      }
      JoinNeighbours(curr, a, b);
      DropLinks(next, prev, a + b, curr);
      next := next[curr := NULL];
      prev := prev[curr := NULL];
      nodes := a + b;
    }

    /** The table indices a selector picks. */
    ghost function Selected(sel: Selector): set<nat> {
      Picks(ciphers, sel)
    }

    method MoveBack(curr: nat, act: bool, grp: bool, ghost a: seq<Entry>, ghost e: Entry, ghost b: seq<Entry>)
      requires Valid() && entries == a + [e] + b && e.id == curr
      modifies this
      ensures Valid() && entries == a + b + [Entry(curr, act, grp)]
    {
      SplitIds(a, e, b);
      ShowsAround(a, e, b, active, inGroup);
      LinkedAround(next, prev, Ids(a), curr, Ids(b));
      AppendTail(curr, Ids(a), Ids(b));
      ShowsMoved(a + b, Entry(curr, act, grp), active, inGroup);
      active := active[curr := act];
      inGroup := inGroup[curr := grp];
      entries := a + b + [Entry(curr, act, grp)];
    }

    method MoveFront(curr: nat, act: bool, grp: bool, ghost a: seq<Entry>, ghost e: Entry, ghost b: seq<Entry>)
      requires Valid() && entries == a + [e] + b && e.id == curr
      modifies this
      ensures Valid() && entries == [Entry(curr, act, grp)] + (a + b)
    {
      SplitIds(a, e, b);
      ShowsAround(a, e, b, active, inGroup);
      LinkedAround(next, prev, Ids(a), curr, Ids(b));
      AppendHead(curr, Ids(a), Ids(b));
      ShowsMoved(a + b, Entry(curr, act, grp), active, inGroup);
      active := active[curr := act];
      inGroup := inGroup[curr := grp];
      entries := [Entry(curr, act, grp)] + (a + b);
    }

    method Drop(curr: nat, ghost a: seq<Entry>, ghost e: Entry, ghost b: seq<Entry>)
      requires Valid() && entries == a + [e] + b && e.id == curr
      modifies this
      ensures Valid() && entries == a + b
    {
      SplitIds(a, e, b);
      ShowsAround(a, e, b, active, inGroup);
      LinkedAround(next, prev, Ids(a), curr, Ids(b));
      Kill(curr, Ids(a), Ids(b));
      ShowsFrame(a + b, active, inGroup, curr, false, inGroup[curr]);
      assert inGroup == inGroup[curr := inGroup[curr]];
      active := active[curr := false];
      entries := a + b;
    }

    /** One step of ssl_cipher_apply_rule's loop, at the element between a and b. */
    method Visit(sel: Selector, rule: Rule, group: bool, curr: nat, ghost a: seq<Entry>, ghost e: Entry, ghost b: seq<Entry>)
      requires Valid() && entries == a + [e] + b && e.id == curr
      modifies this
      ensures Valid() && entries == Step(rule, Selected(sel), group, a, e, b)
    {
      ShowsAround(a, e, b, active, inGroup);
      if !Matches(sel, ciphers[curr]) {
        return;
      }
      match rule
      case Add =>
        if !active[curr] {
          MoveBack(curr, true, group, a, e, b);
        }
      case Ord =>
        if active[curr] {
          MoveBack(curr, active[curr], false, a, e, b);
        }
      case Del =>
        if active[curr] {
          MoveFront(curr, false, false, a, e, b);
        }
      case Kill =>
        Drop(curr, a, e, b);
    }

    /** The neighbours of the element between a and b. */
    lemma Around(curr: nat, a: seq<Entry>, e: Entry, b: seq<Entry>)
      requires Valid() && entries == a + [e] + b && e.id == curr
      ensures curr < |next| && next[curr] == First(Ids(b)) && prev[curr] == Last(Ids(a))
      ensures (forall x | x in a :: x.id != curr) && (forall x | x in b :: x.id != curr)
    {
      SplitIds(a, e, b);
      LinkedAround(next, prev, Ids(a), curr, Ids(b));
      forall x | x in a || x in b ensures x.id in Ids(a) + Ids(b) {
        assert x in a ==> x.id in Ids(a);
        assert x in b ==> x.id in Ids(b);
      }
    }

    lemma Ends()
      requires Valid()
      ensures entries == [] ==> head == tail == NULL
      ensures entries != [] ==> head == entries[0].id && tail == entries[|entries| - 1].id
    {
    }

    lemma EntriesInTable()
      requires Valid()
      ensures forall e | e in entries :: e.id < |ciphers|
    {
    }

    /** Following next from element i. */
    lemma NextOf(i: nat)
      requires Valid() && i < |entries|
      ensures var e := entries[i];
              && e.id < |ciphers| && e.active == active[e.id] && e.inGroup == inGroup[e.id]
              && next[e.id] == if i + 1 < |entries| then entries[i + 1].id else NULL
    {
      var a, e, b := entries[..i], entries[i], entries[i + 1..];
      assert entries == a + [e] + b;
      Around(e.id, a, e, b);
    }

    /** One round of a walk from the head; nxt was read before the element was spliced away. */
    method ForwardRound(sel: Selector, rule: Rule, group: bool, curr: nat, last: int, ghost w: Walk) returns (nxt: int)
      requires Valid() && w.Forward(entries) && w.todo != [] && rule != Del
      requires w.Runs(rule, Selected(sel), group) && curr == w.Cursor() && last == w.Final()
      modifies this
      ensures Valid() && w.Advance().Forward(entries)
      ensures Standing(w.Advance(), curr, nxt, last)
    {
      w.ForwardSplit(entries);
      w.ForwardStep(entries);
      ghost var a, e, b := w.kept, w.todo[0], w.todo[1..] + w.moved;
      Around(curr, a, e, b);
      nxt := next[curr];
      assert |w.todo| > 1 ==> b[0] == w.todo[1] && b[|w.todo| - 2] == w.todo[|w.todo| - 1];
      Visit(sel, rule, group, curr, a, e, b);
    }

    /** Where a walk from the head stands: at its last element, or before the next one. */
    static ghost predicate Standing(w: Walk, curr: int, nxt: int, last: int) {
      if w.todo == [] then curr == last else curr != last && nxt == w.Cursor() && last == w.Final()
    }

    /** The loop of ssl_cipher_apply_rule, from the head. */
    method WalkForward(sel: Selector, rule: Rule, group: bool, first: int, last: int, ghost w0: Walk) returns (ghost w: Walk)
      requires Valid() && w0.Forward(entries) && w0.Runs(rule, Selected(sel), group) && rule != Del
      requires Standing(w0, NULL, first, last)
      modifies this
      ensures Valid() && w.Forward(entries) && w.Runs(rule, Selected(sel), group) && w.all == w0.all && w.todo == []
    {
      w := w0;
      var curr, nxt := NULL, first;
      while curr != last
        invariant Valid() && w.Forward(entries) && w.Runs(rule, Selected(sel), group) && w.all == w0.all
        invariant Standing(w, curr, nxt, last)
        decreases |w.todo|
      {
        curr := nxt;
        if curr == NULL {
          break;
        }
        nxt := ForwardRound(sel, rule, group, curr, last, w);
        w := w.Advance();
      }
    }

    /**
     * ssl_cipher_apply_rule from the head: ADD, ORD and KILL. The walk follows
     * pointers while elements are spliced behind it, and stops at the element
     * that was last when it began.
     */
    method ApplyForward(sel: Selector, rule: Rule, group: bool)
      requires Valid() && rule != Del
      modifies this
      ensures Valid() && entries == Apply(rule, Selected(sel), group, old(entries))
    {
      ghost var w := Walk(rule, Selected(sel), group, entries, [], entries, []);
      w.ForwardBegin();
      Ends();
      w := WalkForward(sel, rule, group, head, tail, w);
      w.ForwardDone(entries);
    }

    /** Where a walk from the tail stands: at its last element, or before the next one. */
    static ghost predicate StandingBack(w: Walk, curr: int, nxt: int, last: int) {
      if w.todo == [] then curr == last else curr != last && nxt == w.Final() && last == w.Cursor()
    }

    /** One round of a walk from the tail. */
    method BackwardRound(sel: Selector, group: bool, curr: nat, last: int, ghost w: Walk) returns (nxt: int)
      requires Valid() && w.Backward(entries) && w.todo != []
      requires w.Runs(Del, Selected(sel), group) && curr == w.Final() && last == w.Cursor()
      modifies this
      ensures Valid() && w.Retreat().Backward(entries)
      ensures StandingBack(w.Retreat(), curr, nxt, last)
    {
      w.BackwardSplit(entries);
      w.BackwardStep(entries);
      ghost var n := |w.todo| - 1;
      ghost var a, e, b := w.moved + w.todo[..n], w.todo[n], w.kept;
      Around(curr, a, e, b);
      nxt := prev[curr];
      assert n > 0 ==> a[|a| - 1] == w.todo[n - 1] && a[|w.moved|] == w.todo[0];
      Visit(sel, Del, group, curr, a, e, b);
    }

    /** The loop of ssl_cipher_apply_rule, from the tail. */
    method WalkBackward(sel: Selector, group: bool, first: int, last: int, ghost w0: Walk) returns (ghost w: Walk)
      requires Valid() && w0.Backward(entries) && w0.Runs(Del, Selected(sel), group)
      requires StandingBack(w0, NULL, first, last)
      modifies this
      ensures Valid() && w.Backward(entries) && w.Runs(Del, Selected(sel), group) && w.all == w0.all && w.todo == []
    {
      w := w0;
      var curr, nxt := NULL, first;
      while curr != last
        invariant Valid() && w.Backward(entries) && w.Runs(Del, Selected(sel), group) && w.all == w0.all
        invariant StandingBack(w, curr, nxt, last)
        decreases |w.todo|
      {
        curr := nxt;
        if curr == NULL {
          break;
        }
        nxt := BackwardRound(sel, group, curr, last, w);
        w := w.Retreat();
      }
    }

    /** ssl_cipher_apply_rule from the tail: DEL. */
    method ApplyBackward(sel: Selector, group: bool)
      requires Valid()
      modifies this
      ensures Valid() && entries == Apply(Del, Selected(sel), group, old(entries))
    {
      ghost var w := Walk(Del, Selected(sel), group, entries, [], entries, []);
      w.BackwardBegin();
      Ends();
      w := WalkBackward(sel, group, tail, head, w);
      w.BackwardDone(entries);
    }

    /** A selector the source recognises as matching nothing. */
    static predicate MatchesNothing(sel: Selector) {
      sel.cipherId == 0 && sel.strengthBits == -1 && sel.minVersion == 0
      && (sel.mkey == {} || sel.auth == {} || sel.enc == {} || sel.mac == {})
    }

    /** ssl_cipher_apply_rule: on the list's value, every rule is its sequence rewriting. */
    method ApplyRule(sel: Selector, rule: Rule, group: bool)
      requires Valid()
      modifies this
      ensures Valid() && entries == Apply(rule, Selected(sel), group, old(entries))
    {
      if MatchesNothing(sel) {
        assert Selected(sel) == {};
        ApplyToNone(rule, group, entries);
        return;
      }
      if rule == Del {
        ApplyBackward(sel, group);
      } else {
        ApplyForward(sel, rule, group);
      }
    }
  }

  lemma {:induction false} KeepsUnselected(rule: Rule, group: bool, s: seq<Entry>)
    ensures Kept(rule, {}, s) == s && Moved(rule, {}, group, s) == []
  {
    if s != [] {
      KeepsUnselected(rule, group, s[1..]);
      assert s == [s[0]] + s[1..];
    }
  }

  lemma ApplyToNone(rule: Rule, group: bool, s: seq<Entry>)
    ensures Apply(rule, {}, group, s) == s
  {
    KeepsUnselected(rule, group, s);
  }

  lemma {:induction false} KeptOfConcat(rule: Rule, sel: set<nat>, a: seq<Entry>, b: seq<Entry>)
    ensures Kept(rule, sel, a + b) == Kept(rule, sel, a) + Kept(rule, sel, b)
  {
    if a == [] {
      assert a + b == b;
    } else {
      assert (a + b)[1..] == a[1..] + b;
      KeptOfConcat(rule, sel, a[1..], b);
    }
  }

  lemma {:induction false} MovedOfConcat(rule: Rule, sel: set<nat>, group: bool, a: seq<Entry>, b: seq<Entry>)
    ensures Moved(rule, sel, group, a + b) == Moved(rule, sel, group, a) + Moved(rule, sel, group, b)
  {
    if a == [] {
      assert a + b == b;
    } else {
      assert (a + b)[1..] == a[1..] + b;
      MovedOfConcat(rule, sel, group, a[1..], b);
    }
  }

  lemma KeptConcat(rule: Rule, sel: set<nat>, group: bool, a: seq<Entry>, b: seq<Entry>)
    ensures Kept(rule, sel, a + b) == Kept(rule, sel, a) + Kept(rule, sel, b)
    ensures Moved(rule, sel, group, a + b) == Moved(rule, sel, group, a) + Moved(rule, sel, group, b)
  {
    KeptOfConcat(rule, sel, a, b);
    MovedOfConcat(rule, sel, group, a, b);
  }

  lemma Assoc(a: seq<Entry>, b: seq<Entry>, c: seq<Entry>)
    ensures (a + b) + c == a + (b + c)
  {
  }

  /**
   * A rule's walk through the list `all`: what it has kept, what it has yet to
   * look at, what it has moved.
   */
  datatype Walk = Walk(rule: Rule, sel: set<nat>, group: bool, all: seq<Entry>, kept: seq<Entry>, todo: seq<Entry>, moved: seq<Entry>) {

    /** The list during a walk from the head that moves elements to the tail. */
    ghost predicate Forward(entries: seq<Entry>) {
      && entries == kept + todo + moved
      && kept + Kept(rule, sel, todo) == Kept(rule, sel, all)
      && if rule == Kill then moved == [] else moved + Moved(rule, sel, group, todo) == Moved(rule, sel, group, all)
    }

    /** The element to look at next when walking from the head, and the last one. */
    ghost function Cursor(): nat
      requires todo != []
    {
      todo[0].id
    }

    ghost function Final(): nat
      requires todo != []
    {
      todo[|todo| - 1].id
    }

    lemma ForwardBegin()
      requires kept == [] && moved == [] && todo == all
      ensures Forward(all)
    {
    }

    ghost predicate Runs(rule: Rule, sel: set<nat>, group: bool) {
      this.rule == rule && this.sel == sel && this.group == group
    }

    ghost function Advance(): (w: Walk)
      requires todo != []
      ensures w.Runs(rule, sel, group) && w.all == all && |w.todo| == |todo| - 1
    {
      var e := todo[0];
      var w := this.(todo := todo[1..]);
      if !Hit(rule, sel, e) then w.(kept := kept + [e])
      else if rule == Kill then w
      else w.(moved := moved + [Update(rule, group, e)])
    }

    lemma ForwardSplit(entries: seq<Entry>)
      requires Forward(entries) && todo != []
      ensures entries == kept + [todo[0]] + (todo[1..] + moved)
    {
      assert todo == [todo[0]] + todo[1..];
      Assoc(kept, [todo[0]], todo[1..]);
      Assoc(kept + [todo[0]], todo[1..], moved);
    }

    lemma ForwardStep(entries: seq<Entry>)
      requires Forward(entries) && todo != [] && rule != Del
      ensures Advance().Forward(Step(rule, sel, group, kept, todo[0], todo[1..] + moved))
    {
      var e, rest := todo[0], todo[1..];
      if !Hit(rule, sel, e) {
        Assoc(kept + [e], rest, moved);
        Assoc(kept, [e], Kept(rule, sel, rest));
        assert [] + Moved(rule, sel, group, rest) == Moved(rule, sel, group, rest);
      } else {
        var u := [Update(rule, group, e)];
        assert [] + Kept(rule, sel, rest) == Kept(rule, sel, rest);
        Assoc(kept, rest, moved);
        if rule != Kill {
          Assoc(kept + rest, moved, u);
          Assoc(moved, u, Moved(rule, sel, group, rest));
        }
      }
    }

    lemma ForwardDone(entries: seq<Entry>)
      requires Forward(entries) && todo == [] && rule != Del
      ensures entries == Apply(rule, sel, group, all)
    {
    }

    /** The list during a walk from the tail that moves elements to the head. */
    ghost predicate Backward(entries: seq<Entry>) {
      && entries == moved + todo + kept
      && Kept(rule, sel, todo) + kept == Kept(rule, sel, all)
      && Moved(rule, sel, group, todo) + moved == Moved(rule, sel, group, all)
    }

    lemma BackwardBegin()
      requires kept == [] && moved == [] && todo == all
      ensures Backward(all)
    {
    }

    ghost function Retreat(): (w: Walk)
      requires todo != []
      ensures w.Runs(rule, sel, group) && w.all == all && |w.todo| == |todo| - 1
    {
      var e := todo[|todo| - 1];
      var w := this.(todo := todo[..|todo| - 1]);
      if !Hit(rule, sel, e) then w.(kept := [e] + kept) else w.(moved := [Update(rule, group, e)] + moved)
    }

    lemma BackwardSplit(entries: seq<Entry>)
      requires Backward(entries) && todo != []
      ensures entries == (moved + todo[..|todo| - 1]) + [todo[|todo| - 1]] + kept
    {
      var init, last := todo[..|todo| - 1], [todo[|todo| - 1]];
      assert todo == init + last;
      Assoc(moved, init, last);
    }

    lemma BackwardStep(entries: seq<Entry>)
      requires Backward(entries) && todo != [] && rule == Del
      ensures Retreat().Backward(Step(rule, sel, group, moved + todo[..|todo| - 1], todo[|todo| - 1], kept))
    {
      var init, e := todo[..|todo| - 1], todo[|todo| - 1];
      KeptSnoc(rule, sel, group, todo);
      if !Hit(rule, sel, e) {
        Assoc(moved + init, [e], kept);
        Assoc(Kept(rule, sel, init), [e], kept);
      } else {
        var u := [Update(rule, group, e)];
        Assoc(u, moved + init, kept);
        Assoc(u, moved, init);
        Assoc(Moved(rule, sel, group, init), u, moved);
      }
    }

    lemma BackwardDone(entries: seq<Entry>)
      requires Backward(entries) && todo == [] && rule == Del
      ensures entries == Apply(rule, sel, group, all)
    {
    }
  }

  lemma KeptSnoc(rule: Rule, sel: set<nat>, group: bool, s: seq<Entry>)
    requires s != []
    ensures var init, e := s[..|s| - 1], s[|s| - 1];
            if Hit(rule, sel, e) then
              && Kept(rule, sel, s) == Kept(rule, sel, init)
              && Moved(rule, sel, group, s) == Moved(rule, sel, group, init) + [Update(rule, group, e)]
            else
              && Kept(rule, sel, s) == Kept(rule, sel, init) + [e]
              && Moved(rule, sel, group, s) == Moved(rule, sel, group, init)
  {
    var init, e := s[..|s| - 1], s[|s| - 1];
    assert s == init + [e];
    KeptConcat(rule, sel, group, init, [e]);
    Singleton(rule, sel, group, e);
  }

  lemma Singleton(rule: Rule, sel: set<nat>, group: bool, e: Entry)
    ensures Kept(rule, sel, [e]) == if Hit(rule, sel, e) then [] else [e]
    ensures Moved(rule, sel, group, [e]) == if Hit(rule, sel, e) then [Update(rule, group, e)] else []
  {
  }
}
