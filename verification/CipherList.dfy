/**
 * The list that cipher preference rules rearrange in place. Its nodes are the
 * entries of one table; next and prev hold indices into the table. The three
 * pointer splices refine moving or removing one element of a sequence.
 */
module CipherList {

  const NULL: int := -1

  ghost function First(ns: seq<nat>): int {
    if ns == [] then NULL else ns[0]
  }

  ghost function Last(ns: seq<nat>): int {
    if ns == [] then NULL else ns[|ns| - 1]
  }

  ghost predicate Distinct(ns: seq<nat>) {
    forall i, j | 0 <= i < j < |ns| :: ns[i] != ns[j]
  }

  /** Following link from the first of ns visits ns in order and then arrives at end. */
  ghost predicate Visits(link: seq<int>, ns: seq<nat>, end: int) {
    if ns == [] then true
    else
      && ns[0] < |link|
      && link[ns[0]] == (if |ns| == 1 then end else ns[1])
      && Visits(link, ns[1..], end)
  }

  ghost function Reverse(ns: seq<nat>): (r: seq<nat>)
    ensures |r| == |ns|
  {
    if ns == [] then [] else Reverse(ns[1..]) + [ns[0]]
  }

  lemma {:induction false} VisitsConcat(link: seq<int>, a: seq<nat>, b: seq<nat>, end: int)
    ensures Visits(link, a + b, end) <==> Visits(link, a, if b == [] then end else b[0]) && Visits(link, b, end)
  {
    if a == [] {
      assert a + b == b;
    } else {
      assert (a + b)[1..] == a[1..] + b;
      VisitsConcat(link, a[1..], b, end);
    }
  }

  lemma {:induction false} VisitsFrame(link: seq<int>, ns: seq<nat>, end: int, x: nat, v: int)
    requires Visits(link, ns, end) && x !in ns && x < |link|
    ensures Visits(link[x := v], ns, end)
  {
    if ns != [] {
      VisitsFrame(link, ns[1..], end, x, v);
    }
  }

  /** Redirecting the last node changes where the walk ends. */
  lemma {:induction false} VisitsRetarget(link: seq<int>, ns: seq<nat>, end: int, end': int)
    requires Visits(link, ns, end) && Distinct(ns) && ns != []
    ensures ns[|ns| - 1] < |link| && Visits(link[ns[|ns| - 1] := end'], ns, end')
  {
    if |ns| > 1 {
      VisitsRetarget(link, ns[1..], end, end');
    }
  }

  /** Around x: the node before points to x, and x points to what follows. */
  lemma VisitsAround(link: seq<int>, a: seq<nat>, x: nat, b: seq<nat>, end: int)
    ensures Visits(link, a + [x] + b, end) <==>
            Visits(link, a, x) && x < |link| && link[x] == (if b == [] then end else b[0]) && Visits(link, b, end)
  {
    VisitsConcat(link, a + [x], b, end);
    VisitsConcat(link, a, [x], if b == [] then end else b[0]);
  }

  lemma {:induction false} ReverseConcat(a: seq<nat>, b: seq<nat>)
    ensures Reverse(a + b) == Reverse(b) + Reverse(a)
  {
    if a == [] {
      assert a + b == b;
    } else {
      assert (a + b)[1..] == a[1..] + b;
      ReverseConcat(a[1..], b);
    }
  }

  lemma {:induction false} ReverseSame(a: seq<nat>)
    ensures forall x :: x in Reverse(a) <==> x in a
    ensures a != [] ==> Reverse(a)[0] == a[|a| - 1] && Reverse(a)[|a| - 1] == a[0]
    ensures Distinct(a) ==> Distinct(Reverse(a))
  {
    if a != [] {
      ReverseSame(a[1..]);
      assert a == [a[0]] + a[1..];
      assert Distinct(a) ==> Distinct(a[1..]) && a[0] !in a[1..];
    }
  }

  lemma ReverseAround(a: seq<nat>, x: nat, b: seq<nat>)
    ensures Reverse(a + [x] + b) == Reverse(b) + [x] + Reverse(a)
  {
    ReverseConcat(a + [x], b);
    ReverseConcat(a, [x]);
    assert Reverse([x]) == [x];
    assert Reverse(b) + ([x] + Reverse(a)) == Reverse(b) + [x] + Reverse(a);
  }

  lemma DistinctAround(a: seq<nat>, x: nat, b: seq<nat>)
    requires Distinct(a + [x] + b)
    ensures Distinct(a) && Distinct(b) && x !in a && x !in b && (forall y | y in a :: y !in b)
  {
    var ns := a + [x] + b;
    assert forall i | 0 <= i < |a| :: ns[i] == a[i];
    assert forall i | 0 <= i < |b| :: ns[|a| + 1 + i] == b[i];
    assert ns[|a|] == x;
  }

  lemma DistinctConcat(a: seq<nat>, b: seq<nat>)
    requires Distinct(a) && Distinct(b) && forall y | y in a :: y !in b
    ensures Distinct(a + b)
  {
    forall i, j | 0 <= i < j < |a + b| ensures (a + b)[i] != (a + b)[j] {
      assert i < |a| ==> (a + b)[i] in a;
      assert j >= |a| ==> (a + b)[j] in b;
    }
  }

  // The three splices, in one direction of the links.

  /** Unlinking x from between a and b. */
  lemma Unlink(link: seq<int>, a: seq<nat>, x: nat, b: seq<nat>, end: int)
    requires Visits(link, a + [x] + b, end) && Distinct(a + [x] + b)
    ensures x < |link| && (a != [] ==> a[|a| - 1] < |link|)
    ensures var link' := if a == [] then link else link[a[|a| - 1] := if b == [] then end else b[0]];
            |link'| == |link| && Visits(link', a + b, end) && link'[x] == link[x]
  {
    VisitsAround(link, a, x, b, end);
    DistinctAround(a, x, b);
    var first := if b == [] then end else b[0];
    if a != [] {
      VisitsRetarget(link, a, x, first);
      VisitsFrame(link, b, end, a[|a| - 1], first);
    }
    VisitsConcat(if a == [] then link else link[a[|a| - 1] := first], a, b, end);
  }

  /** x becomes the last of a non-empty walk. */
  lemma HangLast(link: seq<int>, c: seq<nat>, x: nat, end: int)
    requires Visits(link, c, end) && Distinct(c) && x !in c && c != [] && x < |link|
    ensures c[|c| - 1] < |link| && Visits(link[c[|c| - 1] := x][x := end], c + [x], end)
  {
    VisitsRetarget(link, c, end, x);
    VisitsFrame(link[c[|c| - 1] := x], c, x, x, end);
    VisitsConcat(link[c[|c| - 1] := x][x := end], c, [x], end);
  }

  /** x becomes the first of a non-empty walk. */
  lemma HangFirst(link: seq<int>, c: seq<nat>, x: nat, end: int)
    requires Visits(link, c, end) && x !in c && c != [] && x < |link|
    ensures Visits(link[x := c[0]], [x] + c, end)
  {
    VisitsFrame(link, c, end, x, c[0]);
    assert ([x] + c)[1..] == c;
  }

  /** next and prev walk ns forwards and backwards. */
  ghost predicate Linked(next: seq<int>, prev: seq<int>, ns: seq<nat>) {
    && |next| == |prev| && Distinct(ns) && (forall x | x in ns :: x < |next|)
    && Visits(next, ns, NULL) && Visits(prev, Reverse(ns), NULL)
  }

  lemma LinkedAround(next: seq<int>, prev: seq<int>, a: seq<nat>, x: nat, b: seq<nat>)
    requires Linked(next, prev, a + [x] + b)
    ensures x < |next| && next[x] == First(b) && prev[x] == Last(a)
    ensures First(b) < |next| && Last(a) < |next|
    ensures x !in a + b && Distinct(a + b) && forall y | y in a + b :: y < |next|
  {
    assert forall y | y in a + b :: y in a + [x] + b;
    assert b != [] ==> b[0] in a + b;
    assert a != [] ==> a[|a| - 1] in a + b;
    VisitsAround(next, a, x, b, NULL);
    ReverseAround(a, x, b);
    VisitsAround(prev, Reverse(b), x, Reverse(a), NULL);
    ReverseSame(a);
    DistinctAround(a, x, b);
    DistinctConcat(a, b);
  }

  /** The common start of all splices: x's neighbours are joined, x keeps its own links. */
  lemma JoinLinks(next: seq<int>, prev: seq<int>, a: seq<nat>, x: nat, b: seq<nat>)
    requires Linked(next, prev, a + [x] + b)
    ensures x < |next| && First(b) < |next| && Last(a) < |next|
    ensures var next' := if a == [] then next else next[Last(a) := First(b)];
            var prev' := if b == [] then prev else prev[First(b) := Last(a)];
            Linked(next', prev', a + b) && next'[x] == next[x] && prev'[x] == prev[x]
  {
    LinkedAround(next, prev, a, x, b);
    Unlink(next, a, x, b, NULL);
    ReverseAround(a, x, b);
    ReverseSame(a + [x] + b);
    ReverseSame(a);
    ReverseSame(b);
    ReverseConcat(a, b);
    Unlink(prev, Reverse(b), x, Reverse(a), NULL);
  }

  lemma PushBackLinks(next: seq<int>, prev: seq<int>, c: seq<nat>, x: nat)
    requires Linked(next, prev, c) && c != [] && x !in c && x < |next|
    ensures c[|c| - 1] < |next| && Linked(next[c[|c| - 1] := x][x := NULL], prev[x := c[|c| - 1]], c + [x])
  {
    HangLast(next, c, x, NULL);
    ReverseSame(c);
    HangFirst(prev, Reverse(c), x, NULL);
    ReverseConcat(c, [x]);
    assert Reverse([x]) == [x];
    DistinctConcat(c, [x]);
  }

  lemma PushFrontLinks(next: seq<int>, prev: seq<int>, c: seq<nat>, x: nat)
    requires Linked(next, prev, c) && c != [] && x !in c && x < |next|
    ensures c[0] < |next| && Linked(next[x := c[0]], prev[c[0] := x][x := NULL], [x] + c)
  {
    HangFirst(next, c, x, NULL);
    ReverseSame(c);
    HangLast(prev, Reverse(c), x, NULL);
    ReverseConcat([x], c);
    assert Reverse([x]) == [x];
    DistinctConcat([x], c);
  }

  lemma DropLinks(next: seq<int>, prev: seq<int>, c: seq<nat>, x: nat)
    requires Linked(next, prev, c) && x !in c && x < |next|
    ensures Linked(next[x := NULL], prev[x := NULL], c)
  {
    ReverseSame(c);
    VisitsFrame(next, c, NULL, x, NULL);
    VisitsFrame(prev, Reverse(c), NULL, x, NULL);
  }

  // A table linked in its own order

  ghost function UpTo(n: nat): (r: seq<nat>)
    ensures |r| == n && forall i | 0 <= i < n :: r[i] == i
  {
    seq(n, i => i)
  }

  lemma {:induction false} RowVisits(next: seq<int>, n: nat, k: nat)
    requires k <= n == |next| && forall i | 0 <= i < n :: next[i] == if i + 1 < n then i + 1 else NULL
    ensures Visits(next, UpTo(n)[k..], NULL)
    decreases n - k
  {
    if k < n {
      RowVisits(next, n, k + 1);
      assert UpTo(n)[k..][1..] == UpTo(n)[k + 1..];
    }
  }

  lemma {:induction false} RowReturns(prev: seq<int>, k: nat)
    requires k <= |prev| && forall i | 0 <= i < |prev| :: prev[i] == if i > 0 then i - 1 else NULL
    ensures Visits(prev, Reverse(UpTo(k)), NULL)
  {
    if k > 0 {
      RowReturns(prev, k - 1);
      ReverseConcat(UpTo(k - 1), [k - 1]);
      assert UpTo(k) == UpTo(k - 1) + [k - 1] && Reverse([k - 1]) == [k - 1];
      ReverseSame(UpTo(k - 1));
      assert Reverse(UpTo(k))[1..] == Reverse(UpTo(k - 1));
    }
  }

  lemma RowLinks(next: seq<int>, prev: seq<int>)
    requires |next| == |prev|
    requires forall i | 0 <= i < |next| :: next[i] == if i + 1 < |next| then i + 1 else NULL
    requires forall i | 0 <= i < |prev| :: prev[i] == if i > 0 then i - 1 else NULL
    ensures Linked(next, prev, UpTo(|next|))
  {
    RowVisits(next, |next|, 0);
    RowReturns(prev, |prev|);
    assert UpTo(|next|)[0..] == UpTo(|next|);
  }
}
