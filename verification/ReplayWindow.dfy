/**
 * The anti-replay window of section 4.1.2.6 of RFC 6347: a 64-bit mask over
 * the last 64 record numbers, refining the set of all numbers recorded.
 */
module ReplayWindow {
  import opened Bytes

  /** sizeof(map) * 8 */
  const WINDOW: nat := 64

  // Bit operations on unsigned words, by repeated halving and doubling.

  /** m & (1 << i), as a truth value */
  predicate Bit(m: nat, i: nat)
    decreases i
  {
    if i == 0 then m % 2 == 1 else Bit(m / 2, i - 1)
  }

  /** m | (1 << i) */
  function SetBit(m: nat, i: nat): nat
    decreases i
  {
    if i == 0 then m / 2 * 2 + 1 else 2 * SetBit(m / 2, i - 1) + m % 2
  }

  /** m << s on 64-bit words: the bits pushed out are lost */
  function ShiftLeft(m: nat, s: nat): nat {
    if s == 0 then m else 2 * ShiftLeft(m, s - 1) % Pow2(WINDOW)
  }

  lemma {:induction false} SetBitBits(m: nat, j: nat, i: nat)
    ensures Bit(SetBit(m, j), i) <==> i == j || Bit(m, i)
    decreases j
  {
    var r := SetBit(m, j);
    if j > 0 && i > 0 {
      assert r / 2 == SetBit(m / 2, j - 1);
      SetBitBits(m / 2, j - 1, i - 1);
    }
  }

  lemma {:induction false} SetBitFits(m: nat, j: nat, k: nat)
    requires j < k && m < Pow2(k)
    ensures SetBit(m, j) < Pow2(k)
    decreases j
  {
    if j > 0 {
      SetBitFits(m / 2, j - 1, k - 1);
    }
  }

  /** Dropping the bit at k leaves the lower bits alone. */
  lemma {:induction false} DropHighBit(m: nat, k: nat, i: nat)
    requires i < k && m >= Pow2(k)
    ensures Bit(m - Pow2(k), i) <==> Bit(m, i)
    decreases i
  {
    if i > 0 {
      assert (m - Pow2(k)) / 2 == m / 2 - Pow2(k - 1);
      DropHighBit(m / 2, k - 1, i - 1);
    }
  }

  lemma ModOnce(x: nat, p: nat)
    requires x < 2 * p
    ensures x % p == if x >= p then x - p else x
  {
  }

  lemma DoubleMovesBits(m: nat, k: nat, i: nat)
    requires m < Pow2(k) && i < k
    ensures var d := if 2 * m >= Pow2(k) then 2 * m - Pow2(k) else 2 * m;
            Bit(d, i) <==> i > 0 && Bit(m, i - 1)
  {
    assert (2 * m) / 2 == m;
    if 2 * m >= Pow2(k) {
      DropHighBit(2 * m, k, i);
    }
  }

  lemma {:induction false} ShiftLeftBits(m: nat, s: nat, i: nat)
    requires m < Pow2(WINDOW) && i < WINDOW
    ensures ShiftLeft(m, s) < Pow2(WINDOW)
    ensures Bit(ShiftLeft(m, s), i) <==> i >= s && Bit(m, i - s)
    decreases s
  {
    if s > 0 {
      ShiftLeftBits(m, s - 1, if i > 0 then i - 1 else 0);
      ModOnce(2 * ShiftLeft(m, s - 1), Pow2(WINDOW));
      DoubleMovesBits(ShiftLeft(m, s - 1), WINDOW, i);
    }
  }

  lemma {:induction false} ZeroHasNoBits(i: nat)
    ensures !Bit(0, i)
  {
    if i > 0 {
      ZeroHasNoBits(i - 1);
    }
  }

  // The ideal window.

  /** Recorded before, or at least 64 behind the maximum. */
  ghost predicate MustDiscard(seen: set<nat>, max: nat, n: nat) {
    n in seen || n + WINDOW <= max
  }

  ghost predicate IsMax(seen: set<nat>, max: nat) {
    (forall n | n in seen :: n <= max) && (max in seen || (seen == {} && max == 0))
  }

  /** DTLS1_BITMAP with the set of numbers recorded in it. */
  class Bitmap {
    var map': nat
    var maxSeqNum: nat
    ghost var seen: set<nat>

    ghost predicate Valid()
      reads this
    {
      && map' < Pow2(WINDOW)
      && IsMax(seen, maxSeqNum)
      && forall i | 0 <= i < WINDOW :: Bit(map', i) <==> maxSeqNum - i in seen
    }

    constructor ()
      ensures Valid() && seen == {}
    {
      map', maxSeqNum, seen := 0, 0, {};
      new;
      forall i | 0 <= i < WINDOW ensures !Bit(map', i) {
        ZeroHasNoBits(i);
      }
    }

    /** Zeroing the structure at an epoch change. */
    method Reset()
      modifies this
      ensures Valid() && seen == {} && maxSeqNum == 0
    {
      map', maxSeqNum, seen := 0, 0, {};
      forall i | 0 <= i < WINDOW ensures !Bit(map', i) {
        ZeroHasNoBits(i);
      }
    }

    /** dtls1_bitmap_should_discard */
    method ShouldDiscard(n: nat) returns (discard: bool)
      requires Valid()
      ensures discard <==> MustDiscard(seen, maxSeqNum, n)
    {
      if n > maxSeqNum {
        return false;
      }
      var idx := maxSeqNum - n;
      return idx >= WINDOW || Bit(map', idx);
    }

    /** dtls1_bitmap_record: whatever n is, the window afterwards stands for one more number. */
    method Record(n: nat)
      requires Valid()
      modifies this
      ensures Valid() && seen == old(seen) + {n}
    {
      if n > maxSeqNum {
        Slide(n);
      }
      var idx := maxSeqNum - n;
      if idx < WINDOW {
        Mark(idx);
      }
      seen := seen + {n};
    }

    method Mark(idx: nat)
      requires idx < WINDOW && map' < Pow2(WINDOW)
      modifies this`map'
      ensures map' < Pow2(WINDOW)
      ensures forall i | 0 <= i < WINDOW :: Bit(map', i) <==> i == idx || Bit(old(map'), i)
    {
      SetBitFits(map', idx, WINDOW);
      forall i | 0 <= i < WINDOW ensures Bit(SetBit(map', idx), i) <==> i == idx || Bit(map', i) {
        SetBitBits(map', idx, i);
      }
      map' := SetBit(map', idx);
    }

    /** The shift that makes n the maximum, before its own bit is set. */
    method Slide(n: nat)
      requires Valid() && n > maxSeqNum
      modifies this`map', this`maxSeqNum
      ensures maxSeqNum == n && map' < Pow2(WINDOW)
      ensures forall i | 0 <= i < WINDOW :: Bit(map', i) <==> n - i in seen
    {
      var shift := n - maxSeqNum;
      ghost var m := map';
      if shift >= WINDOW {
        map' := 0;
      } else {
        map' := ShiftLeft(map', shift);
      }
      forall i | 0 <= i < WINDOW ensures Bit(map', i) <==> n - i in seen {
        if shift >= WINDOW {
          ZeroHasNoBits(i);
        } else {
          ShiftLeftBits(m, shift, i);
        }
      }
      ShiftLeftBits(m, shift, 0);
      maxSeqNum := n;
    }
  }
}
