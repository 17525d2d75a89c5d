/**
 * Two parties on one script: how far one is behind the other is exactly what is
 * in flight between them.
 */
module HandshakeInFlight {
  import opened Bytes
  import opened HandshakeTypes

  /** The first present slot from n on, or the end. */
  ghost function NextSlot(sh: Shape, n: nat): (k: nat)
    ensures n <= End(sh.resumed) ==> n <= k <= End(sh.resumed)
    ensures k < End(sh.resumed) ==> SlotAt(sh, k).Some?
    decreases End(sh.resumed) - n
  {
    if n >= End(sh.resumed) then End(sh.resumed) else if SlotAt(sh, n).Some? then n else NextSlot(sh, n + 1)
  }

  /** A party at slot a that takes the items, all sent by dir, is level with a party at slot b. */
  ghost predicate Behind(sh: Shape, a: nat, b: nat, items: seq<Item>, dir: bool)
    decreases |items|
  {
    if items == [] then NextSlot(sh, a) == NextSlot(sh, b)
    else SlotAt(sh, NextSlot(sh, a)) == Some(LabelOf(dir, items[0])) && Behind(sh, NextSlot(sh, a) + 1, b, items[1..], dir)
  }

  /** Items that fill the slots from a up to b, in order. */
  ghost predicate Filled(sh: Shape, a: nat, b: nat, items: seq<Item>, dir: bool)
    decreases b - a
  {
    if a >= b then a == b && items == []
    else if SlotAt(sh, a).None? then Filled(sh, a + 1, b, items, dir)
    else items != [] && SlotAt(sh, a) == Some(LabelOf(dir, items[0])) && Filled(sh, a + 1, b, items[1..], dir)
  }

  lemma NextOf(sh: Shape, n: nat)
    requires n < End(sh.resumed)
    ensures NextSlot(sh, n) == if SlotAt(sh, n).Some? then n else NextSlot(sh, n + 1)
  {
  }

  /** Passing an absent slot changes nothing, on either side. */
  lemma SkipBehind(sh: Shape, a: nat, b: nat, items: seq<Item>, dir: bool)
    requires Behind(sh, a, b, items, dir) && a < End(sh.resumed) && SlotAt(sh, a).None?
    ensures Behind(sh, a + 1, b, items, dir)
  {
    NextOf(sh, a);
  }

  lemma {:induction false} SkipAhead(sh: Shape, a: nat, b: nat, items: seq<Item>, dir: bool)
    requires Behind(sh, a, b, items, dir) && b < End(sh.resumed) && SlotAt(sh, b).None?
    ensures Behind(sh, a, b + 1, items, dir)
    decreases |items|
  {
    if items == [] {
      NextOf(sh, b);
    } else {
      SkipAhead(sh, NextSlot(sh, a) + 1, b, items[1..], dir);
    }
  }

  /** The party behind takes the next item at its own slot. */
  lemma TakeBehind(sh: Shape, a: nat, b: nat, items: seq<Item>, dir: bool)
    requires Behind(sh, a, b, items, dir) && items != [] && a < End(sh.resumed) && SlotAt(sh, a).Some?
    ensures SlotAt(sh, a) == Some(LabelOf(dir, items[0])) && Behind(sh, a + 1, b, items[1..], dir)
  {
    NextOf(sh, a);
  }

  /** The party ahead sends the item of its own slot. */
  lemma {:induction false} SendAhead(sh: Shape, a: nat, b: nat, items: seq<Item>, dir: bool, x: Item)
    requires Behind(sh, a, b, items, dir) && b < End(sh.resumed) && SlotAt(sh, b) == Some(LabelOf(dir, x))
    ensures Behind(sh, a, b + 1, items + [x], dir)
    decreases |items|
  {
    if items == [] {
      NextOf(sh, b);
      assert items + [x] == [x] && [x][1..] == [];
    } else {
      assert (items + [x])[1..] == items[1..] + [x];
      SendAhead(sh, NextSlot(sh, a) + 1, b, items[1..], dir, x);
    }
  }

  lemma Regroup(items: seq<Item>, out: seq<Item>)
    requires out != []
    ensures (items + [out[0]]) + out[1..] == items + out
  {
  }

  lemma {:induction false} SendMany(sh: Shape, a: nat, b: nat, b': nat, items: seq<Item>, out: seq<Item>, dir: bool)
    requires Behind(sh, a, b, items, dir) && Filled(sh, b, b', out, dir) && b' <= End(sh.resumed)
    ensures Behind(sh, a, b', items + out, dir)
    decreases b' - b
  {
    if b == b' {
      assert items + out == items;
    } else if SlotAt(sh, b).None? {
      SkipAhead(sh, a, b, items, dir);
      SendMany(sh, a, b + 1, b', items, out, dir);
    } else {
      SendAhead(sh, a, b, items, dir, out[0]);
      Regroup(items, out);
      SendMany(sh, a, b + 1, b', items + [out[0]], out[1..], dir);
    }
  }

  /** Level parties are behind each other by nothing. */
  lemma LevelFlips(sh: Shape, a: nat, b: nat, dir: bool)
    requires Behind(sh, a, b, [], dir)
    ensures Behind(sh, b, a, [], !dir)
  {
  }

  /** A party whose own slot is next has nothing coming. */
  lemma OwnTurn(sh: Shape, a: nat, b: nat, items: seq<Item>, dir: bool)
    requires Behind(sh, a, b, items, dir) && a < End(sh.resumed) && SlotAt(sh, a).Some? && SlotAt(sh, a).value.byServer != dir
    ensures items == []
  {
    NextOf(sh, a);
  }

  /** At the end nothing is in flight. */
  lemma {:induction false} NothingLeft(sh: Shape, a: nat, b: nat, items: seq<Item>, dir: bool)
    requires Behind(sh, a, b, items, dir) && a >= End(sh.resumed)
    ensures items == []
  {
  }

  /** The messages among items. */
  ghost function Msgs(items: seq<Item>): seq<Msg> {
    if items == [] then [] else (if items[0].Hs? then [items[0].msg] else []) + Msgs(items[1..])
  }

  lemma {:induction false} MsgsConcat(a: seq<Item>, b: seq<Item>)
    ensures Msgs(a + b) == Msgs(a) + Msgs(b)
  {
    if a == [] {
      assert a + b == b;
    } else {
      assert (a + b)[1..] == a[1..] + b;
      MsgsConcat(a[1..], b);
      assert (a + b)[0] == a[0];
      var first := if a[0].Hs? then [a[0].msg] else [];
      assert first + (Msgs(a[1..]) + Msgs(b)) == (first + Msgs(a[1..])) + Msgs(b);
    }
  }

  /** Every Finished of a transcript is over exactly what precedes it. */
  ghost predicate WellHashed(t: seq<Msg>) {
    forall i | 0 <= i < |t| && t[i].tag == Finished :: t[i].body.Mac? && t[i].body.over == t[..i]
  }

  lemma WellHashedSnoc(t: seq<Msg>, m: Msg)
    requires WellHashed(t) && (m.tag == Finished ==> m.body.Mac? && m.body.over == t)
    ensures WellHashed(t + [m])
  {
    forall i | 0 <= i < |t + [m]| && (t + [m])[i].tag == Finished
      ensures (t + [m])[i].body.Mac? && (t + [m])[i].body.over == (t + [m])[..i]
    {
      assert (t + [m])[..i] == t[..i];
      assert i == |t| ==> t[..i] == t;
    }
  }
}
