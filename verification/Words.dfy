/**
64-bit machine words as their bits, least significant first, with the C operators used by
game/lib/lua-redis/dict.c on hashes, masks and scan cursors.
*/
module Words {
  import opened Basics

  const BITS := 64

  type Word = w: seq<bool> | |w| == 64 witness seq(64, _ => false)

  function Fill(n: nat, b: bool): (s: seq<bool>)
    ensures |s| == n && forall i :: 0 <= i < n ==> s[i] == b
  {
    seq(n, _ => b)
  }

  /** 2^a - 1 */
  function Mask(a: nat): Word
    requires a <= BITS
  {
    Fill(a, true) + Fill(BITS - a, false)
  }

  const ZERO: Word := Fill(BITS, false)
  const ONES: Word := Fill(BITS, true)

  function And(x: Word, y: Word): Word { seq(BITS, i requires 0 <= i < BITS => x[i] && y[i]) }
  function Or(x: Word, y: Word): Word { seq(BITS, i requires 0 <= i < BITS => x[i] || y[i]) }
  function Xor(x: Word, y: Word): Word { seq(BITS, i requires 0 <= i < BITS => x[i] != y[i]) }
  function Not(x: Word): Word { seq(BITS, i requires 0 <= i < BITS => !x[i]) }

  /** x << s */
  function ShiftLeft(x: Word, s: nat): Word {
    seq(BITS, i requires 0 <= i < BITS => if i < s then false else x[i - s])
  }

  /** x >> s */
  function ShiftRight(x: Word, s: nat): Word {
    seq(BITS, i requires 0 <= i < BITS => if i + s < BITS then x[i + s] else false)
  }

  /** Adding one, with the carry out of the top bit dropped. */
  function Inc(x: seq<bool>): (r: seq<bool>)
    ensures |r| == |x|
  {
    if x == [] then []
    else if x[0] then [false] + Inc(x[1..])
    else [true] + x[1..]
  }

  /** The number that some bits stand for. */
  function Num(x: seq<bool>): (n: nat)
    ensures n < Pow2(|x|)
  {
    if x == [] then 0 else (if x[0] then 1 else 0) + 2 * Num(x[1..])
  }

  function Reverse(x: seq<bool>): (r: seq<bool>)
    ensures |r| == |x|
    ensures forall i :: 0 <= i < |x| ==> r[i] == x[|x| - 1 - i]
  {
    seq(|x|, i requires 0 <= i < |x| => x[|x| - 1 - i])
  }

  // ---------------------------------------------------------------- rev

  /** Bit i of the mask in the round with shift s: blocks of s ones and s zeroes alternate. */
  ghost predicate InMask(i: nat, s: nat)
    requires s > 0
  {
    i < s || !InMask(i - s, s)
  }

  /** i modulo s */
  ghost function Low(i: nat, s: nat): nat
    requires s > 0
  {
    if i < s then i else Low(i - s, s)
  }

  /** Where bit i comes from after the rounds down to shift s: the bits of i from s up are complemented. */
  ghost function From(i: nat, s: nat): int
    requires s > 0
  {
    BITS - s - i + 2 * Low(i, s)
  }

  /** What one round with shift s does to the mask and to the source of bit i. */
  lemma {:induction false} Round(i: nat, s: nat, n: nat, bits: nat)
    requires s > 0 && bits == n * (2 * s) && i < bits
    ensures InMask(i, s) <==> (InMask(i, 2 * s) != (i >= s && InMask(i - s, 2 * s)))
    ensures InMask(i, s) ==> i + s < bits && Low(i + s, 2 * s) == Low(i, s) + s
    ensures !InMask(i, s) ==> i >= s && Low(i - s, 2 * s) == Low(i, s)
  {
    if i >= 2 * s {
      Round(i - 2 * s, s, n - 1, bits - 2 * s);
    }
  }

  lemma {:induction false} LowBound(i: nat, s: nat)
    requires s > 0
    ensures Low(i, s) < s && Low(i, s) <= i
  {
    if i >= s {
      LowBound(i - s, s);
    }
  }

  ghost predicate Reached(x: Word, v: Word, mask: Word, s: nat)
    requires s > 0
  {
    forall i :: 0 <= i < BITS ==>
      mask[i] == InMask(i, s) && 0 <= From(i, s) < BITS && v[i] == x[From(i, s)]
  }

  lemma Ends(x: Word, v: Word, mask: Word)
    ensures Reached(x, x, ONES, BITS)
    ensures Reached(x, v, mask, 1) ==> v == Reverse(x)
  {
    forall i | 0 <= i < BITS ensures From(i, 1) == BITS - 1 - i {
      LowBound(i, 1);
    }
  }

  function NextMask(mask: Word, s: nat): Word { Xor(mask, ShiftLeft(mask, s)) }

  function Swap(v: Word, mask: Word, s: nat): Word {
    Or(And(ShiftRight(v, s), mask), And(ShiftLeft(v, s), Not(mask)))
  }

  lemma Bits(v: Word, mask: Word, s: nat, i: nat)
    requires i < BITS
    ensures NextMask(mask, s)[i] == (mask[i] != (i >= s && mask[i - s]))
    ensures Swap(v, mask, s)[i] == if mask[i] then i + s < BITS && v[i + s] else i >= s && v[i - s]
  {
  }

  lemma Stage(x: Word, v: Word, mask: Word, s: nat, n: nat)
    requires s > 0 && n * (2 * s) == BITS && Reached(x, v, mask, 2 * s)
    ensures Reached(x, Swap(v, NextMask(mask, s), s), NextMask(mask, s), s)
  {
    hide InMask, Low, Swap, NextMask;
    var mask', v' := NextMask(mask, s), Swap(v, NextMask(mask, s), s);
    forall i | 0 <= i < BITS
      ensures mask'[i] == InMask(i, s) && 0 <= From(i, s) < BITS && v'[i] == x[From(i, s)]
    {
      Round(i, s, n, BITS);
      Bits(v, mask, s, i);
      Bits(v, mask', s, i);
      if InMask(i, s) {
        assert From(i, s) == From(i + s, 2 * s);
      } else {
        assert From(i, s) == From(i - s, 2 * s);
      }
    }
  }

  /** rev: swapping ever smaller halves reverses the word. */
  method ReverseParallel(x: Word) returns (v: Word)
    ensures v == Reverse(x)
  {
    hide Reached, Swap, NextMask;
    v := x;
    var s, mask := BITS, ONES;
    Ends(x, v, mask);
    while s / 2 > 0
      invariant s in {1, 2, 4, 8, 16, 32, 64}
      invariant Reached(x, v, mask, s)
    {
      s := s / 2;
      Stage(x, v, mask, s, 32 / s);
      mask := NextMask(mask, s);
      v := Swap(v, mask, s);
    }
    Ends(x, v, mask);
  }
}
