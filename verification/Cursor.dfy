/**
The arithmetic of the scan cursor in dictScan (game/lib/lua-redis/dict.c): masked increments of the reversed
cursor, and the increments of the bits between two masks.
*/
module Cursor {
  import opened Basics
  import opened Words

  /** The step at the end of dictScan, for the mask 2^a - 1. */
  function Next(v: Word, a: nat): Word
    requires a <= BITS
  {
    Reverse(Inc(Reverse(Or(v, Not(Mask(a))))))
  }

  /** The step of the inner loop of dictScan: (((v | m0) + 1) & ~m0) | (v & m0). */
  function Expansion(v: Word, a: nat): Word
    requires a <= BITS
  {
    Or(And(Inc(Or(v, Mask(a))), Not(Mask(a))), And(v, Mask(a)))
  }

  /** Adding one to bits written most significant first. */
  function Up(p: seq<bool>): (r: seq<bool>)
    ensures |r| == |p|
  {
    Reverse(Inc(Reverse(p)))
  }

  /** The order in which the scan goes through hashes: bit 0 counts most. */
  ghost predicate Less(x: seq<bool>, y: seq<bool>)
    requires |x| == |y|
  {
    x != [] && (if x[0] == y[0] then Less(x[1..], y[1..]) else y[0])
  }

  // ---------------------------------------------------------------- the two increments on bits

  lemma {:induction false} IncOnes(n: nat, y: seq<bool>)
    ensures Inc(Fill(n, true) + y) == Fill(n, false) + Inc(y)
  {
    if n == 0 {
      assert Fill(0, true) + y == y;
    } else {
      IncOnes(n - 1, y);
      assert (Fill(n, true) + y)[1..] == Fill(n - 1, true) + y;
      assert [false] + (Fill(n - 1, false) + Inc(y)) == Fill(n, false) + Inc(y);
    }
  }

  /** Only the low a bits of the cursor count, and they are incremented from the top bit down. */
  lemma NextIs(v: Word, a: nat)
    requires a <= BITS
    ensures Next(v, a) == Up(v[..a]) + Fill(BITS - a, false)
  {
    hide Inc;
    var p := v[..a];
    assert Or(v, Not(Mask(a))) == p + Fill(BITS - a, true);
    assert Reverse(p + Fill(BITS - a, true)) == Fill(BITS - a, true) + Reverse(p);
    IncOnes(BITS - a, Reverse(p));
  }

  /** The last lines of dictScan. */
  method Advance(v: Word, a: nat) returns (next: Word)
    requires a <= BITS
    ensures next == Next(v, a)
  {
    next := Or(v, Not(Mask(a)));
    next := ReverseParallel(next);
    next := Inc(next);
    next := ReverseParallel(next);
  }

  lemma NextLow(v: Word, w: Word, a: nat)
    requires a <= BITS && v[..a] == w[..a]
    ensures Next(w, a) == Next(v, a)
  {
    NextIs(v, a);
    NextIs(w, a);
  }

  /** The inner loop counts in the bits above the smaller mask and leaves the others alone. */
  lemma ExpansionIs(v: Word, a: nat)
    requires a <= BITS
    ensures Expansion(v, a) == v[..a] + Inc(v[a..])
  {
    hide Inc;
    assert Or(v, Mask(a)) == Fill(a, true) + v[a..];
    IncOnes(a, v[a..]);
  }

  lemma {:induction false} IncPrefix(x: seq<bool>, n: nat)
    requires n <= |x|
    ensures Inc(x)[..n] == Inc(x[..n])
  {
    if n > 0 {
      assert x[..n][1..] == x[1..][..n - 1];
      if x[0] {
        IncPrefix(x[1..], n - 1);
        assert ([false] + Inc(x[1..]))[..n] == [false] + Inc(x[1..])[..n - 1];
      }
    }
  }

  lemma {:induction false} IncNum(x: seq<bool>)
    ensures if x == Fill(|x|, true) then Inc(x) == Fill(|x|, false) else Num(Inc(x)) == Num(x) + 1
    ensures x == Fill(|x|, true) ==> Num(x) == Pow2(|x|) - 1
  {
    if x != [] {
      IncNum(x[1..]);
      if x[0] {
        assert x == [true] + x[1..];
        if x[1..] == Fill(|x| - 1, true) {
          assert x == Fill(|x|, true);
          assert Inc(x) == Fill(|x|, false);
        } else {
          assert Inc(x)[1..] == Inc(x[1..]);
        }
      } else {
        assert Inc(x)[1..] == x[1..];
      }
    }
  }

  lemma {:induction false} NumZero(n: nat)
    ensures Num(Fill(n, false)) == 0
  {
    if n > 0 {
      assert Fill(n, false)[1..] == Fill(n - 1, false);
      NumZero(n - 1);
    }
  }

  /** Different bits stand for different numbers. */
  lemma {:induction false} NumInjective(x: seq<bool>, y: seq<bool>)
    requires |x| == |y| && Num(x) == Num(y)
    ensures x == y
  {
    if x != [] {
      assert x[0] == y[0];
      NumInjective(x[1..], y[1..]);
      assert x == [x[0]] + x[1..] && y == [y[0]] + y[1..];
    }
  }

  // ---------------------------------------------------------------- the order of the scan

  lemma {:induction false} LessSnoc(x: seq<bool>, c: bool, y: seq<bool>, b: bool)
    requires |x| == |y|
    ensures Less(x + [c], y + [b]) <==> Less(x, y) || (x == y && !c && b)
  {
    if x == [] {
    } else {
      assert (x + [c])[1..] == x[1..] + [c] && (y + [b])[1..] == y[1..] + [b];
      LessSnoc(x[1..], c, y[1..], b);
      assert x == [x[0]] + x[1..] && y == [y[0]] + y[1..];
    }
  }

  lemma UpSnoc(p: seq<bool>, b: bool)
    ensures Up(p + [b]) == if b then Up(p) + [false] else p + [true]
  {
    assert Reverse(p + [b]) == [b] + Reverse(p);
    if b {
      assert Inc(Reverse(p + [b])) == [false] + Inc(Reverse(p));
    } else {
      assert Inc(Reverse(p + [b])) == [true] + Reverse(p);
    }
  }

  /** What lies before the next cursor is what lay before this one, and the class of this one. */
  lemma {:induction false} LessUp(q: seq<bool>, p: seq<bool>)
    requires |q| == |p|
    ensures if p == Fill(|p|, true) then Up(p) == Fill(|p|, false) && (Less(q, p) || q == p)
            else Less(q, Up(p)) <==> Less(q, p) || q == p
    ensures p != Fill(|p|, true) ==> Less(p, Up(p))
    decreases |p|
  {
    if p != [] {
      var n := |p| - 1;
      var p0, b, q0, c := p[..n], p[n], q[..n], q[n];
      assert p == p0 + [b] && q == q0 + [c];
      LessUp(q0, p0);
      LessUp(p0, p0);
      UpSnoc(p0, b);
      LessSnoc(q0, c, p0, b);
      if b {
        LessSnoc(q0, c, Up(p0), false);
        LessSnoc(p0, b, Up(p0), false);
      } else {
        LessSnoc(q0, c, p0, true);
        LessSnoc(p0, b, p0, true);
      }
    }
  }

  lemma {:induction false} NotLessZero(x: seq<bool>)
    ensures !Less(x, Fill(|x|, false))
  {
    if x != [] {
      assert Fill(|x|, false)[1..] == Fill(|x| - 1, false);
      NotLessZero(x[1..]);
    }
  }

  lemma {:induction false} LessPrefix(h: seq<bool>, p: seq<bool>)
    requires |p| <= |h|
    ensures Less(h, p + Fill(|h| - |p|, false)) <==> Less(h[..|p|], p)
  {
    var v := p + Fill(|h| - |p|, false);
    if p == [] {
      assert v == Fill(|h|, false);
      NotLessZero(h);
    } else {
      assert v[1..] == p[1..] + Fill(|h[1..]| - |p[1..]|, false);
      assert h[..|p|][1..] == h[1..][..|p[1..]|];
      LessPrefix(h[1..], p[1..]);
    }
  }

  /** The cursor has no bits outside the mask 2^a - 1. */
  predicate Within(v: Word, a: nat)
    requires a <= BITS
  {
    v[a..] == Fill(BITS - a, false)
  }

  lemma {:induction false} LessParts(p: seq<bool>, x: seq<bool>, y: seq<bool>, r: seq<bool>, s: seq<bool>)
    requires |x| == |y| && |r| == |s|
    ensures x != y ==> (Less(p + x + r, p + y + s) <==> Less(x, y))
    ensures x == y ==> (Less(p + x + r, p + y + s) <==> Less(r, s))
    decreases |p| + |x|
  {
    var h, v := p + x + r, p + y + s;
    if p != [] {
      assert h[1..] == p[1..] + x + r && v[1..] == p[1..] + y + s;
      LessParts(p[1..], x, y, r, s);
    } else if x != [] {
      assert h[1..] == [] + x[1..] + r && v[1..] == [] + y[1..] + s;
      assert x == [x[0]] + x[1..] && y == [y[0]] + y[1..];
      LessParts([], x[1..], y[1..], r, s);
    } else {
      assert h == r && v == s;
    }
  }

  /** One call of dictScan at cursor v with mask 2^a - 1 covers exactly the hashes between v and the next
      cursor; when the next cursor is 0, every hash has been covered. */
  lemma CursorStep(h: Word, v: Word, a: nat)
    requires a <= BITS
    ensures var v' := Next(v, a);
            && Within(v', a)
            && (if v' == ZERO then Less(h, v) || h[..a] == v[..a]
                else Less(v, v') && (Less(h, v') <==> Less(h, v) || h[..a] == v[..a]))
  {
    hide Less, Next, Up;
    var p := v[..a];
    NextIs(v, a);
    LessUp(h[..a], p);
    LessLow(h, v, a);
    LessPrefix(h, Up(p));
    LessPrefix(v, Up(p));
    if p == Fill(a, true) {
      assert Next(v, a) == ZERO;
    } else {
      NotLessZero(p);
      assert Next(v, a)[..a] == Up(p);
      assert ZERO[..a] == Fill(a, false);
    }
  }

  lemma LessLow(h: Word, v: Word, a: nat)
    requires a <= BITS
    ensures h[..a] != v[..a] ==> (Less(h, v) <==> Less(h[..a], v[..a]))
  {
    hide Less;
    LessParts([], h[..a], v[..a], h[a..], v[a..]);
    assert h == [] + h[..a] + h[a..] && v == [] + v[..a] + v[a..];
  }

  // ---------------------------------------------------------------- a cursor with bits above the mask

  /** Ones, then zeroes. */
  predicate OnesFirst(x: seq<bool>) {
    x == [] || (if x[0] then OnesFirst(x[1..]) else x == Fill(|x|, false))
  }

  lemma {:induction false} OnesFirstPart(x: seq<bool>, i: nat, j: nat)
    requires OnesFirst(x) && i <= j <= |x|
    ensures OnesFirst(x[i..j])
    decreases |x|
  {
    if i < j {
      if !x[0] {
        assert x[i..j] == Fill(j - i, false);
      } else if i > 0 {
        OnesFirstPart(x[1..], i - 1, j - 1);
        assert x[1..][i - 1..j - 1] == x[i..j];
      } else {
        OnesFirstPart(x[1..], 0, j - 1);
        assert x[1..][0..j - 1] == x[0..j][1..];
      }
    }
  }

  /** Numbers below 2^k - 1 come before it in the order of the scan, too. */
  lemma {:induction false} OnesBehind(x: seq<bool>, y: seq<bool>)
    requires |x| == |y| && OnesFirst(y) && Num(x) < Num(y)
    ensures Less(x, y)
  {
    if y[0] {
      if x[0] { OnesBehind(x[1..], y[1..]); }
    } else {
      NumZero(|y|);
    }
  }

  /** A smaller number that comes later in the order of the scan. */
  lemma {:induction false} Gap(y: seq<bool>) returns (x: seq<bool>)
    requires !OnesFirst(y)
    ensures |x| == |y| && Num(x) < Num(y) && !Less(x, y) && x != y
  {
    if y[0] {
      x := Gap(y[1..]);
      assert ([true] + x)[1..] == x;
      x := [true] + x;
    } else {
      x := [true] + Fill(|y| - 1, false);
      assert x[1..] == Fill(|y| - 1, false);
      NumZero(|y| - 1);
      assert y == [false] + y[1..] && [false] + Fill(|y| - 1, false) == Fill(|y|, false);
      if Num(y[1..]) == 0 {
        NumInjective(y[1..], Fill(|y| - 1, false));
      }
    }
  }

  /** A call over tables of 2^a and 2^b buckets starts in the larger one at the bits that the cursor has there. It
      misses no hash that the scan has yet to reach exactly when these bits are ones followed by zeroes. */
  lemma MissesNothing(v: Word, a: nat, b: nat)
    requires a <= b <= BITS
    ensures OnesFirst(v[a..b])
            <==> forall h: Word :: h[..a] == v[..a] && Num(h[a..b]) < Num(v[a..b]) ==> Less(h, v)
  {
    hide Less, Num, OnesFirst;
    var y := v[a..b];
    assert v == v[..a] + y + v[b..];
    if OnesFirst(y) {
      forall h: Word | h[..a] == v[..a] && Num(h[a..b]) < Num(y) ensures Less(h, v) {
        OnesBehind(h[a..b], y);
        assert h == h[..a] + h[a..b] + h[b..];
        LessParts(v[..a], h[a..b], y, h[b..], v[b..]);
      }
    } else {
      var x := Gap(y);
      var h: Word := v[..a] + x + v[b..];
      assert h[..a] == v[..a] && h[a..b] == x;
      LessParts(v[..a], x, y, v[b..], v[b..]);
    }
  }

  // ---------------------------------------------------------------- a scan without resizing

  /** The position of a bucket in the order of the scan. */
  function Rank(x: seq<bool>): (r: nat)
    ensures r < Pow2(|x|)
  {
    if x == [] then 0 else (if x[0] then Pow2(|x| - 1) else 0) + Rank(x[1..])
  }

  lemma {:induction false} LessRank(x: seq<bool>, y: seq<bool>)
    requires |x| == |y|
    ensures Less(x, y) <==> Rank(x) < Rank(y)
    ensures x == y <==> Rank(x) == Rank(y)
  {
    if x != [] {
      LessRank(x[1..], y[1..]);
      assert x == [x[0]] + x[1..] && y == [y[0]] + y[1..];
    }
  }

  lemma {:induction false} RankSnoc(p: seq<bool>, b: bool)
    ensures Rank(p + [b]) == 2 * Rank(p) + if b then 1 else 0
  {
    if p != [] {
      assert (p + [b])[1..] == p[1..] + [b];
      RankSnoc(p[1..], b);
    } else {
      assert p + [b] == [b];
    }
  }

  lemma {:induction false} UpRank(p: seq<bool>)
    ensures if p == Fill(|p|, true) then Up(p) == Fill(|p|, false) && Rank(p) == Pow2(|p|) - 1
            else Rank(Up(p)) == Rank(p) + 1
  {
    if p != [] {
      var n := |p| - 1;
      var p0, b := p[..n], p[n];
      assert p == p0 + [b];
      UpRank(p0);
      UpSnoc(p0, b);
      RankSnoc(p0, b);
      if b {
        RankSnoc(Up(p0), false);
      } else {
        RankSnoc(p0, true);
      }
    }
  }

  /** The cursor after i calls from 0, with a fixed mask 2^a - 1. */
  function After(a: nat, i: nat): Word
    requires a <= BITS
  {
    if i == 0 then ZERO else Next(After(a, i - 1), a)
  }

  lemma {:induction false} RankZero(n: nat)
    ensures Rank(Fill(n, false)) == 0
  {
    if n > 0 {
      assert Fill(n, false)[1..] == Fill(n - 1, false);
      RankZero(n - 1);
    }
  }

  lemma {:induction false} AfterRank(a: nat, i: nat)
    requires a <= BITS && i < Pow2(a)
    ensures Rank(After(a, i)[..a]) == i
  {
    hide Next, Up, Rank;
    if i == 0 {
      RankZero(a);
      assert ZERO[..a] == Fill(a, false);
    } else {
      AfterRank(a, i - 1);
      UpRank(After(a, i - 1)[..a]);
      NextIs(After(a, i - 1), a);
      assert After(a, i)[..a] == Up(After(a, i - 1)[..a]);
    }
  }

  /** Without a resize, 2^a calls visit every bucket exactly once, at the position its rank says, and then
      the cursor is 0 again. */
  lemma EveryBucketOnce(a: nat, p: seq<bool>, i: nat)
    requires a <= BITS && |p| == a && i < Pow2(a)
    ensures After(a, i)[..a] == p <==> i == Rank(p)
    ensures After(a, Pow2(a)) == ZERO
  {
    hide Next, Up, Rank, Less;
    AfterRank(a, i);
    LessRank(After(a, i)[..a], p);
    AfterRank(a, Pow2(a) - 1);
    LastNext(After(a, Pow2(a) - 1), a);
  }

  lemma LastNext(v: Word, a: nat)
    requires a <= BITS && Rank(v[..a]) == Pow2(a) - 1
    ensures Next(v, a) == ZERO
  {
    hide Next, Up, Rank, Less;
    NextIs(v, a);
    UpRank(v[..a]);
    assert Rank(Up(v[..a])) < Pow2(a);
    assert Fill(a, false) + Fill(BITS - a, false) == ZERO;
  }
}
