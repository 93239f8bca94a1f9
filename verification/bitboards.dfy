/**
 Bitboards as the engine uses them: arbitrary-precision non-negative integers
 (JavaScript BigInts) read as sets of one bits. A bitboard is represented here
 by the set of the positions of its one bits, so `|` is union, `&` is
 intersection, `(a & m) == m` is `m <= a`, and a test `a & m` is truthy exactly
 when `a * m != {}`. `Value` recovers the integer itself, which the engine needs
 once, for the numeric comparison in its full-board test.
 */
module Bitboards {

  /** A non-negative integer, given by the positions of its one bits. */
  type Bitboard = set<nat>

  function Pow2(n: nat): (r: nat)
    ensures r >= 1
  {
    if n == 0 then 1 else 2 * Pow2(n - 1)
  }

  lemma {:induction false} Pow2Add(a: nat, b: nat)
    ensures Pow2(a + b) == Pow2(a) * Pow2(b)
  {
    if a > 0 {
      Pow2Add(a - 1, b);
    }
  }

  /** The powers of two the engine's constants are made of. */
  lemma Pow2Values()
    ensures Pow2(7) == 0x80
    ensures Pow2(8) == 0x100
    ensures Pow2(14) == 0x4000
    ensures Pow2(16) == 0x1_0000
    ensures Pow2(21) == 0x20_0000
    ensures Pow2(24) == 0x100_0000
    ensures Pow2(42) == 0x400_0000_0000
  {
    assert Pow2(7) == 0x80;
    Pow2Add(7, 1);
    Pow2Add(7, 7);
    Pow2Add(8, 8);
    Pow2Add(14, 7);
    Pow2Add(16, 8);
    Pow2Add(21, 21);
  }

  lemma Pow2Monotonic(a: nat, b: nat)
    requires a <= b
    ensures Pow2(a) <= Pow2(b)
  {
  }

  /** `b << k`: every one bit moves `k` places up. */
  function ShiftLeft(b: Bitboard, k: nat): Bitboard
  {
    set i | i in b :: i + k
  }

  /** A single one bit moves `k` places up; `0 << k` is still 0. */
  lemma ShiftSingle(n: nat, k: nat)
    ensures ShiftLeft({n}, k) == {n + k}
    ensures ShiftLeft({}, k) == {}
  {
  }

  /** `m` is the highest one bit of `b`. */
  predicate IsMax(b: Bitboard, m: nat) {
    m in b && forall i :: i in b ==> i <= m
  }

  /** The highest one bit of a non-zero bitboard. */
  function Max(b: Bitboard): (m: nat)
    requires b != {}
    ensures IsMax(b, m)
  {
    MaxExists(b);
    var m :| IsMax(b, m);
    m
  }

  lemma {:induction false} MaxExists(b: Bitboard)
    requires b != {}
    ensures exists m :: IsMax(b, m)
  {
    var x :| x in b;
    var rest := b - {x};
    if rest == {} {
      forall i | i in b
        ensures i <= x
      {
        assert i !in rest;
      }
      assert IsMax(b, x);
    } else {
      MaxExists(rest);
      var m :| IsMax(rest, m);
      var top := if x <= m then m else x;
      forall i | i in b
        ensures i <= top
      {
        if i != x {
          assert i in rest;
        }
      }
      assert IsMax(b, top);
    }
  }

  /** The integer a bitboard denotes: the sum of `2^i` over its one bits `i`. */
  function Value(b: Bitboard): (v: nat)
    decreases |b|
  {
    if b == {} then 0 else Pow2(Max(b)) + Value(b - {Max(b)})
  }

  /** The contribution of the one bits below position `n`. */
  function ValueBelow(b: Bitboard, n: nat): (v: nat)
  {
    if n == 0 then 0 else ValueBelow(b, n - 1) + (if n - 1 in b then Pow2(n - 1) else 0)
  }

  /** The bits below `n` add up to at most `2^n - 1`, and to exactly that iff all are set. */
  lemma {:induction false} ValueBelowBound(b: Bitboard, n: nat)
    ensures ValueBelow(b, n) <= Pow2(n) - 1
    ensures ValueBelow(b, n) == Pow2(n) - 1 <==> forall i :: 0 <= i < n ==> i in b
  {
    if n > 0 {
      ValueBelowBound(b, n - 1);
      if n - 1 !in b {
        assert ValueBelow(b, n) <= Pow2(n - 1) - 1;
      }
    }
  }

  /** Dropping a one bit below `n` takes away exactly its weight. */
  lemma {:induction false} ValueBelowRemove(b: Bitboard, k: nat, n: nat)
    requires k in b && k < n
    ensures ValueBelow(b, n) == ValueBelow(b - {k}, n) + Pow2(k)
  {
    if n - 1 != k {
      ValueBelowRemove(b, k, n - 1);
    } else {
      ValueBelowEqual(b, b - {k}, n - 1);
    }
  }

  /** Two bitboards that agree below `n` contribute alike below `n`. */
  lemma {:induction false} ValueBelowEqual(a: Bitboard, b: Bitboard, n: nat)
    requires forall i :: 0 <= i < n ==> (i in a <==> i in b)
    ensures ValueBelow(a, n) == ValueBelow(b, n)
  {
    if n > 0 {
      ValueBelowEqual(a, b, n - 1);
    }
  }

  /** Once `n` lies above every one bit, the bits below `n` are the whole value. */
  lemma {:induction false} ValueIsValueBelow(b: Bitboard, n: nat)
    requires forall i :: i in b ==> i < n
    ensures Value(b) == ValueBelow(b, n)
    decreases |b|
  {
    if b == {} {
      ValueBelowEqual(b, {}, n);
      ValueBelowEmpty(n);
    } else {
      var m := Max(b);
      ValueIsValueBelow(b - {m}, n);
      ValueBelowRemove(b, m, n);
    }
  }

  lemma {:induction false} ValueBelowEmpty(n: nat)
    ensures ValueBelow({}, n) == 0
  {
    if n > 0 {
      ValueBelowEmpty(n - 1);
    }
  }

  /** A one bit at position `k` makes the value at least `2^k`. */
  lemma {:induction false} ValueBelowAtLeast(b: Bitboard, k: nat, n: nat)
    requires k in b && k < n
    ensures ValueBelow(b, n) >= Pow2(k)
  {
    ValueBelowRemove(b, k, n);
  }

  lemma ValueAtLeast(b: Bitboard, k: nat)
    requires k in b
    ensures Value(b) >= Pow2(k)
  {
    ValueIsValueBelow(b, Max(b) + 1);
    ValueBelowAtLeast(b, k, Max(b) + 1);
  }
}
