/**
 * Shifts, comparison, difference and the digit-generating division of dtoa.c.
 */
module BigDivision {
  import opened Basics
  import opened Multiword
  import opened Bigint

  // The bit-shifting loop of lshift: words n.. of y receive x << k, the last carry is z.
  method ShiftWords(x: array<Word>, wds: nat, y: array<Word>, n: nat, k: nat) returns (z: int)
    requires 0 < k < 32 && x != y && 1 <= wds <= x.Length && n + wds < y.Length
    modifies y
    ensures 0 <= z < Pow2(k) < 0x1_0000_0000
    ensures Over(y[n..n + wds], z) == Val(x[..wds]) * Pow2(k)
    ensures forall t :: 0 <= t < n ==> y[t] == old(y[t])
    ensures y[n + wds - 1] + 0x1_0000_0000 * z >= x[wds - 1] * Pow2(k)
    ensures y[n + wds - 1] + 0x1_0000_0000 * z < x[wds - 1] * Pow2(k) + Pow2(k)
  {
    hide Over, Val, Due, Pow2;
    var k1 := 32 - k;
    ghost var s, m := x[..wds], Pow2(k);
    DueEnds(s, m, 0);
    assert y[n..n] == [];
    NoWords(Due(s, 0, m, 0));
    z := 0;
    var i := 0;
    ShiftWord(0, k, 0);
    while i < wds
      invariant 0 <= i <= wds
      invariant 0 <= z < m
      invariant Over(y[n..n + i], Due(s, i, m, z)) == Due(s, 0, m, 0)
      invariant forall t :: 0 <= t < n ==> y[t] == old(y[t])
      invariant i > 0 ==> x[i - 1] * m <= y[n + i - 1] + 0x1_0000_0000 * z < x[i - 1] * m + m
    {
      ghost var done := y[n..n + i];
      ShiftWord(x[i], k, z);
      DueStep(done, s, i, m, z, x[i] * m + z);
      y[n + i] := x[i] * Pow2(k) % 0x1_0000_0000 + z;
      z := x[i] / Pow2(k1);
      i := i + 1;
      assert y[n..n + i] == done + [y[n + i - 1]];
    }
    DueEnds(s, m, z);
  }

  // Fills y, zero below word n, with x << k and says how many words that took.
  method ShiftInto(x: array<Word>, wds: nat, y: array<Word>, n: nat, k: nat) returns (len: nat)
    requires k < 32 && x != y && 1 <= wds <= x.Length && n + wds < y.Length
    requires forall t :: 0 <= t < n ==> y[t] == 0
    modifies y
    ensures n + wds <= len <= n + wds + 1
    ensures Val(y[..len]) == Val(x[..wds]) * Pow2(32 * n + k)
    ensures Shifted(x[wds - 1], Pow2(k), y[len - 1])
    ensures x[wds - 1] != 0 ==> y[len - 1] != 0
  {
    hide Over, Val, Pow2, Shifted;
    len := n + wds;
    if k != 0 {
      var z := ShiftWords(x, wds, y, n, k);
      ShiftTop(x[wds - 1], k, y[n + wds - 1], z);
      ghost var w := y[n..n + wds];
      y[n + wds] := z;
      assert y[n..n + wds] == w;
      if z != 0 {
        len := len + 1;
        assert y[n..len] == w + [z];
        ValSnoc(w, z);
      } else {
        ValOver(w);
      }
    } else {
      CopyAt(x, wds, y, n);
      NoShift(x[wds - 1], Val(x[..wds]));
      assert y[n + wds - 1] == y[n..n + wds][wds - 1];
    }
    assert y[..len] == y[..n] + y[n..len];
    WordShift(y[..n], y[n..len], Val(x[..wds]), k);
  }

  lemma ValOver(w: seq<Word>)
    ensures Over(w, 0) == Val(w)
  {}

  lemma NoShift(t: Word, v: int)
    ensures Pow2(0) == 1 && Shifted(t, Pow2(0), t) && v * Pow2(0) == v
  {}

  lemma WordShift(zeros: seq<Word>, w: seq<Word>, v: int, k: nat)
    requires forall i :: 0 <= i < |zeros| ==> zeros[i] == 0
    requires Val(w) == v * Pow2(k)
    ensures Val(zeros + w) == v * Pow2(32 * |zeros| + k)
  {
    hide Over, Val, Pow2;
    ValAppend(zeros, w);
    OverShift(zeros, Val(w));
    Pow2Sum(32 * |zeros|, k);
    var p, q := Pow2(k), Pow2(32 * |zeros|);
    assert (v * p) * q == v * (q * p);
  }

  lemma ShiftTop(t: Word, k: nat, lo: Word, z: int)
    requires 0 < k < 32 && 0 <= z < 0x1_0000_0000
    requires t * Pow2(k) <= lo + 0x1_0000_0000 * z < t * Pow2(k) + Pow2(k)
    ensures Shifted(t, Pow2(k), if z == 0 then lo else z)
    ensures t != 0 && z == 0 ==> lo != 0
  {
    hide Pow2;
    var m := Pow2(k);
    ShiftWord(t, k, 0);
    ShiftWord(t, k, lo + 0x1_0000_0000 * z - t * m);
    assert z == t * m / 0x1_0000_0000;
    if t != 0 { MulMono(m, 1, t); }
  }

  // The size class, from that of b up, that has n1 words.
  method Room(b: Big, n1: nat) returns (k1: nat)
    requires b.Valid()
    ensures b.k <= k1 && n1 <= Pow2(k1)
    ensures forall j: nat :: b.k <= j < k1 ==> Pow2(j) < n1
  {
    k1 := b.k;
    var i := b.x.Length;
    while n1 > i
      invariant b.k <= k1 && i == Pow2(k1)
      invariant forall j: nat :: b.k <= j < k1 ==> Pow2(j) < n1
    {
      i := 2 * i;
      k1 := k1 + 1;
    }
  }

  // b << k.  The bits shifted in lie below 2^k, so the source's "or" is a sum.
  method Lshift(b: Big, k: nat) returns (r: Big)
    requires b.Valid() && b.wds >= 1
    ensures r.Valid() && fresh(r) && fresh(r.x)
    ensures r.Value() == b.Value() * Pow2(k)
    ensures r.wds >= 1 && Shifted(b.x[b.wds - 1], Pow2(k % 32), r.x[r.wds - 1])
    ensures b.x[b.wds - 1] != 0 ==> r.Normal() && r.x[r.wds - 1] != 0
  {
    hide Over, Val, Shifted;
    var n := k / 32;
    var k1 := Room(b, n + b.wds + 1);
    r := new Big.Balloc(k1);
    Zero(r.x, n);
    r.wds := ShiftInto(b.x, b.wds, r.x, n, k % 32);
    assert 32 * n + k % 32 == k;
  }

  // How the top word of a shifted number comes from the top word t of the number.
  predicate Shifted(t: Word, m: int, top: Word) {
    if t * m < 0x1_0000_0000 then t * m <= top < t * m + m else top == t * m / 0x1_0000_0000
  }

  method CopyAt(from: array<Word>, wds: nat, to: array<Word>, n: nat)
    requires wds <= from.Length && n + wds <= to.Length && from != to
    modifies to
    ensures to[n..n + wds] == from[..wds]
    ensures forall t :: 0 <= t < n ==> to[t] == old(to[t])
  {
    var i := 0;
    while i < wds
      invariant 0 <= i <= wds
      invariant to[n..n + i] == from[..i]
      invariant forall t :: 0 <= t < n ==> to[t] == old(to[t])
    {
      to[n + i] := from[i];
      i := i + 1;
    }
  }

  // At most the single word of the number zero is a leading zero word.
  ghost predicate Lean(b: Big) reads b, b.x {
    b.Valid() && (b.wds > 1 ==> b.x[b.wds - 1] != 0)
  }

  // What cmp demands: no leading zeros, and never an empty number against another zero.
  ghost predicate Comparable(a: Big, b: Big) reads a, b, a.x, b.x {
    Lean(a) && Lean(b) &&
    (a.wds == 0 ==> b.wds > 0 && b.x[b.wds - 1] != 0) &&
    (b.wds == 0 ==> a.wds > 0 && a.x[a.wds - 1] != 0)
  }

  method Cmp(a: Big, b: Big) returns (i: int)
    requires Comparable(a, b)
    ensures i < 0 <==> a.Value() < b.Value()
    ensures i == 0 <==> a.Value() == b.Value()
  {
    hide Over, Val;
    i := a.wds - b.wds;
    if i != 0 {
      if i < 0 {
        LongerIsLarger(a.x[..a.wds], b.x[..b.wds]);
      } else {
        LongerIsLarger(b.x[..b.wds], a.x[..a.wds]);
      }
      return;
    }
    var j := a.wds;
    ghost var s, t := a.x[..j], b.x[..j];
    while j > 0
      invariant 0 <= j <= a.wds
      invariant s[j..] == t[j..]
    {
      j := j - 1;
      if a.x[j] != b.x[j] {
        TopDecides(s, t, j);
        i := if a.x[j] < b.x[j] then -1 else 1;
        return;
      }
      assert s[j..] == [s[j]] + s[j + 1..] && t[j..] == [t[j]] + t[j + 1..];
    }
    assert s == s[0..] && t == t[0..];
    i := 0;
  }

  lemma TopDecides(s: seq<Word>, t: seq<Word>, j: nat)
    requires |s| == |t| && j < |s| && s[j + 1..] == t[j + 1..]
    ensures s[j] < t[j] ==> Val(s) < Val(t)
    ensures s[j] > t[j] ==> Val(s) > Val(t)
  {
    hide Over;
    ValSplit(s, j);
    ValSplit(t, j);
    HeadAt(s, j);
    HeadAt(t, j);
    if s[j] < t[j] {
      HighDecides(s[..j], t[..j], Val(s[j..]), Val(t[j..]));
    } else if s[j] > t[j] {
      HighDecides(t[..j], s[..j], Val(t[j..]), Val(s[j..]));
    }
  }

  lemma HeadAt(s: seq<Word>, j: nat)
    requires j < |s|
    ensures Val(s[j..]) == s[j] + 0x1_0000_0000 * Val(s[j + 1..])
  {
    ValHead(s[j..]);
    assert s[j..][1..] == s[j + 1..];
  }

  // y = x - sub - borrow in 64-bit arithmetic: its low word and its bit 32.
  function Minus(x: Word, sub: Word, borrow: int): (y: int)
    requires 0 <= borrow <= 1
    ensures y % 0x1_0000_0000 - 0x1_0000_0000 * (y / 0x1_0000_0000 % 2) == x - sub - borrow
    ensures 0 <= y % 0x1_0000_0000 < 0x1_0000_0000 && 0 <= y / 0x1_0000_0000 % 2 <= 1
  {
    (x - sub - borrow) % 0x1_0000_0000_0000_0000
  }

  // What a borrow loop still has to produce: words i.. of s, less q times those of t, less out.
  ghost function Owed(s: seq<Word>, t: seq<Word>, i: nat, q: int, out: int): int
    requires i <= |s|
  { Val(s[i..]) - (if i <= |t| then Val(t[i..]) * q else 0) - out }

  lemma OwedEnds(s: seq<Word>, t: seq<Word>, q: int, out: int)
    ensures Owed(s, t, 0, q, out) == Val(s) - Val(t) * q - out
    ensures |t| <= |s| ==> Owed(s, t, |s|, q, out) == -out
  {
    assert s[0..] == s && t[0..] == t;
    assert s[|s|..] == [] && t[|t|..] == [];
  }

  ghost function At(t: seq<Word>, i: nat): Word { if i < |t| then t[i] else 0 }

  lemma OwedStep(done: seq<Word>, s: seq<Word>, t: seq<Word>, i: nat, q: int, carry: int, borrow: int, ys: int, y: int)
    requires i < |s| && 0 <= borrow <= 1 && ys == At(t, i) * q + carry
    requires y == Minus(s[i], ys % 0x1_0000_0000, borrow)
    ensures Over(done + [y % 0x1_0000_0000], Owed(s, t, i + 1, q, ys / 0x1_0000_0000 + y / 0x1_0000_0000 % 2))
            == Over(done, Owed(s, t, i, q, carry + borrow))
  {
    hide Over;
    HeadAt(s, i);
    var next := ys / 0x1_0000_0000 + y / 0x1_0000_0000 % 2;
    var v := if i < |t| then Val(t[i + 1..]) else 0;
    if i < |t| {
      HeadAt(t, i);
      assert (t[i] + 0x1_0000_0000 * v) * q == t[i] * q + 0x1_0000_0000 * (v * q);
    } else if i == |t| {
      assert t[i..] == [];
      ValNone();
    }
    OverStep(done, y % 0x1_0000_0000, Owed(s, t, i, q, carry + borrow), Owed(s, t, i + 1, q, next));
  }

  // Without a product there is no carry.
  lemma DiffStep(done: seq<Word>, s: seq<Word>, t: seq<Word>, i: nat, borrow: int, y: int)
    requires i < |s| && 0 <= borrow <= 1
    requires y == Minus(s[i], At(t, i), borrow)
    ensures Over(done + [y % 0x1_0000_0000], Owed(s, t, i + 1, 1, y / 0x1_0000_0000 % 2))
            == Over(done, Owed(s, t, i, 1, borrow))
  {
    hide Over, Owed, Minus;
    OwedStep(done, s, t, i, 1, 0, borrow, At(t, i), y);
  }

  // c := a - b over n >= m words, for a >= b.
  method Subtract(a: array<Word>, n: nat, b: array<Word>, m: nat, c: array<Word>)
    requires m <= n <= a.Length && m <= b.Length && n <= c.Length && c != a && c != b
    requires Val(a[..n]) >= Val(b[..m])
    modifies c
    ensures Val(c[..n]) == Val(a[..n]) - Val(b[..m])
  {
    hide Over, Val, Owed, Minus;
    ghost var s, t := a[..n], b[..m];
    OwedEnds(s, t, 1, 0);
    assert c[..0] == [];
    NoWords(Owed(s, t, 0, 1, 0));
    var i, borrow := 0, 0;
    while i < m
      invariant 0 <= i <= m && 0 <= borrow <= 1
      invariant Over(c[..i], Owed(s, t, i, 1, borrow)) == Owed(s, t, 0, 1, 0)
    {
      ghost var done := c[..i];
      var y := Minus(a[i], b[i], borrow);
      DiffStep(done, s, t, i, borrow, y);
      borrow := y / 0x1_0000_0000 % 2;
      c[i] := y % 0x1_0000_0000;
      i := i + 1;
      assert c[..i] == done + [y % 0x1_0000_0000];
    }
    while i < n
      invariant m <= i <= n && 0 <= borrow <= 1
      invariant Over(c[..i], Owed(s, t, i, 1, borrow)) == Owed(s, t, 0, 1, 0)
    {
      ghost var done := c[..i];
      var y := Minus(a[i], 0, borrow);
      DiffStep(done, s, t, i, borrow, y);
      borrow := y / 0x1_0000_0000 % 2;
      c[i] := y % 0x1_0000_0000;
      i := i + 1;
      assert c[..i] == done + [y % 0x1_0000_0000];
    }
    OwedEnds(s, t, 1, borrow);
    OverSign(c[..n], -borrow);
    ValOver(c[..n]);
  }

  // |a - b|, with the sign of a - b.
  method Diff(p: Big, q: Big) returns (c: Big)
    requires p.Normal() && q.Normal()
    ensures c.Normal() && fresh(c) && fresh(c.x)
    ensures c.sign == (if p.Value() < q.Value() then 1 else 0)
    ensures c.Value() == if p.Value() < q.Value() then q.Value() - p.Value() else p.Value() - q.Value()
  {
    hide Over, Val;
    var i := Cmp(p, q);
    if i == 0 {
      c := new Big.Balloc(0);
      c.wds := 1;
      c.x[0] := 0;
      OverZero(c.x[..1]);
      return;
    }
    if i < 0 {
      c := Larger(q, p);
      c.sign := 1;
    } else {
      c := Larger(p, q);
    }
  }

  method Larger(a: Big, b: Big) returns (c: Big)
    requires a.Normal() && b.Normal() && a.Value() > b.Value()
    ensures c.Normal() && c.sign == 0 && fresh(c) && fresh(c.x)
    ensures c.Value() == a.Value() - b.Value()
  {
    hide Over, Val, Pow2;
    NotLonger(a, b);
    c := new Big.Balloc(a.k);
    Subtract(a.x, a.wds, b.x, b.wds, c.x);
    c.wds := Trim(c.x, a.wds);
    if c.wds == 0 { assert c.x[..0] == []; ValNone(); }
  }

  lemma NotLonger(a: Big, b: Big)
    requires a.Normal() && b.Normal() && a.Value() > b.Value()
    ensures b.wds <= a.wds
  {
    hide Val;
    if a.wds < b.wds { LongerIsLarger(a.x[..a.wds], b.x[..b.wds]); }
  }

  // The number of leading zero bits of a word.
  method Hi0bits(w: Word) returns (k: nat)
    ensures k <= 32 && (k == 32 <==> w == 0)
    ensures w != 0 ==> 0x8000_0000 <= w * Pow2(k) < 0x1_0000_0000
  {
    hide Pow2;
    Pow2Word();
    Pow2One();
    k := 0;
    var x := w;
    if x < 0x1_0000 {
      k := 16;
      x := x * 0x1_0000;
    }
    if x < 0x100_0000 {
      Widen(w, x, k, 8);
      k := k + 8;
      x := x * 0x100;
    }
    if x < 0x1000_0000 {
      Widen(w, x, k, 4);
      k := k + 4;
      x := x * 0x10;
    }
    if x < 0x4000_0000 {
      Widen(w, x, k, 2);
      k := k + 2;
      x := x * 4;
    }
    if x < 0x8000_0000 {
      Widen(w, x, k, 1);
      k := k + 1;
      if x < 0x4000_0000 { return 32; }
    }
  }

  lemma Pow2One()
    ensures Pow2(0) == 1 && Pow2(1) == 2 && Pow2(2) == 4
  {}

  lemma Widen(w: Word, x: int, k: nat, j: nat)
    requires x == w * Pow2(k)
    ensures x * Pow2(j) == w * Pow2(k + j)
  {
    hide Pow2;
    Pow2Sum(k, j);
    var p, q := Pow2(k), Pow2(j);
    assert (w * p) * q == w * (p * q);
  }

  // How far to shift, on top of p2 bits, so that the top word has exactly four leading zero bits.
  method Dshift(b: Big, p2: int) returns (r: nat)
    requires b.Valid() && b.wds > 0
    ensures r < 32
    ensures b.x[b.wds - 1] != 0 && p2 >= 0 ==>
      forall top: Word :: Shifted(b.x[b.wds - 1], Pow2((p2 + r) % 32), top) ==> FourZeros(top)
  {
    hide Pow2, Shifted;
    var h: int := Hi0bits(b.x[b.wds - 1]);
    var rv := h - 4;
    if p2 > 0 { rv := rv - p2; }
    r := rv % 32;
    if b.x[b.wds - 1] != 0 && p2 >= 0 {
      SameBits(h, p2, r);
      forall top: Word | Shifted(b.x[b.wds - 1], Pow2((p2 + r) % 32), top)
        ensures FourZeros(top)
      {
        ShiftedFour(b.x[b.wds - 1], h, top);
      }
    }
  }

  lemma SameBits(h: int, p2: int, r: int)
    requires p2 >= 0 && r == (h - 4 - p2) % 32
    ensures (p2 + r) % 32 == (h - 4) % 32
  {}

  predicate FourZeros(w: Word) { 0x800_0000 <= w < 0x1000_0000 }

  lemma ShiftedFour(t: Word, h: nat, top: Word)
    requires t != 0 && h < 32 && 0x8000_0000 <= t * Pow2(h) < 0x1_0000_0000
    requires Shifted(t, Pow2((h - 4) % 32), top)
    ensures FourZeros(top)
  {
    hide Pow2;
    Pow2Word();
    if h >= 4 {
      Widen(t, t * Pow2(h - 4), h - 4, 4);
      Widen(1, Pow2(h - 4), h - 4, 4);
      Below(t, Pow2(h), 32 - h);
    } else {
      Pow2Sum(h, 28);
      Widen(t, t * Pow2(h), h, 28);
    }
  }

  lemma Below(t: Word, p: int, k: nat)
    requires k <= 32 && p == Pow2(32 - k) && t * p < 0x1_0000_0000
    ensures t * p + p <= 0x1_0000_0000
  {
    hide Pow2;
    Pow2Sum(32 - k, k);
    Pow2Word();
    var d := Pow2(k);
    if t >= d { MulMono(p, d, t); assert false; }
    MulMono(p, t + 1, d);
    assert p * (t + 1) == t * p + p;
  }

  lemma DivBounds(b: Word, d: int, q: int)
    requires 2 <= d <= 0x1_0000_0000 && q == b / d
    ensures 0 <= q < 0x1_0000_0000 && q * d <= b < (q + 1) * d
    ensures d > 0x1_0000 ==> q < 0x1_0000
  {
    assert b == d * q + b % d;
    assert (q + 1) * d == d * q + d;
    if q < 0 { MulMono(d, q, -1); assert false; }
    if q >= 0x1_0000_0000 { MulMono(d, 0x1_0000_0000, q); assert false; }
    if d > 0x1_0000 && q >= 0x1_0000 { MulMono(d, 0x1_0000, q); assert false; }
  }

  // The estimate from the top words: never too large and, unless the divisor's top
  // word is tiny, at most one too small.
  lemma Estimate(b: seq<Word>, s: seq<Word>, q: int)
    requires |b| == |s| > 0 && 0 < s[|s| - 1] < 0xffff_ffff
    requires q == b[|s| - 1] / (s[|s| - 1] + 1)
    ensures 0 <= q < 0x1_0000_0000
    ensures q * Val(s) <= Val(b)
    ensures s[|s| - 1] >= 0x1_0000 ==> Val(b) < (q + 2) * Val(s)
  {
    hide Over, Val;
    var n := |s| - 1;
    ValTop(s);
    ValTop(b);
    DivBounds(b[n], s[n] + 1, q);
    EstimateLow(s[..n], b[..n], s[n], b[n], q);
    assert q * (Val(s) + 1) == q * Val(s) + q;
    if s[n] >= 0x1_0000 {
      assert (q + 1) * (s[n] + 1) == (q + 2) * s[n] + (q + 1) - s[n];
      EstimateHigh(s[..n], b[..n], s[n], b[n], q + 2);
    }
  }

  // b := b - q * s over n words, with the carry of the product and the borrow of the difference.
  method SubtractMultiple(b: array<Word>, s: array<Word>, n: nat, q: int)
    requires b != s && n <= b.Length && n <= s.Length && 0 <= q < 0x1_0000_0000
    requires Val(s[..n]) * q <= Val(b[..n])
    modifies b
    ensures Val(b[..n]) == Val(old(b[..n])) - Val(s[..n]) * q
    ensures forall i :: n <= i < b.Length ==> b[i] == old(b[i])
  {
    hide Over, Val, Owed, Minus;
    ghost var bs, t := b[..n], s[..n];
    OwedEnds(bs, t, q, 0);
    assert b[..0] == [];
    NoWords(Owed(bs, t, 0, q, 0));
    var i, carry, borrow := 0, 0, 0;
    while i < n
      invariant 0 <= i <= n && 0 <= borrow <= 1 && 0 <= carry < 0x1_0000_0000
      invariant Over(b[..i], Owed(bs, t, i, q, carry + borrow)) == Owed(bs, t, 0, q, 0)
      invariant forall j :: i <= j < b.Length ==> b[j] == old(b[j])
    {
      ghost var done := b[..i];
      MulBound(s[i], q, 0xffff_ffff);
      var ys := s[i] * q + carry;
      var y := Minus(b[i], ys % 0x1_0000_0000, borrow);
      OwedStep(done, bs, t, i, q, carry, borrow, ys, y);
      carry := ys / 0x1_0000_0000;
      borrow := y / 0x1_0000_0000 % 2;
      b[i] := y % 0x1_0000_0000;
      i := i + 1;
      assert b[..i] == done + [y % 0x1_0000_0000];
    }
    OwedEnds(bs, t, q, carry + borrow);
    OverSign(b[..n], -(carry + borrow));
    ValOver(b[..n]);
  }

  // Gives up leading zero words after a subtraction; only a one-word zero ends with none.
  method Shorten(b: Big, top: nat)
    requires b.Valid() && b.wds == top + 1
    modifies b`wds
    ensures Lean(b) && b.wds <= top + 1 && b.Value() == old(b.Value())
    ensures b.wds == 0 ==> b.x[0] == 0
  {
    hide Over, Val, Pow2;
    if b.x[top] == 0 {
      var n, e: int := top, top - 1;
      DropZero(b.x[..], n);
      while e > 0 && b.x[e] == 0
        invariant n == e + 1 && 0 <= n <= top && (top > 0 ==> n > 0) && Val(b.x[..n]) == Val(b.x[..top + 1])
      {
        DropZero(b.x[..], e);
        n := n - 1;
        e := e - 1;
      }
      b.wds := n;
    }
  }

  lemma DropZero(s: seq<Word>, n: nat)
    requires n < |s| && s[n] == 0
    ensures Val(s[..n + 1]) == Val(s[..n])
  {
    assert s[..n + 1] == s[..n] + [0];
    OverStep(s[..n], 0, 0, 0);
  }

  // A divisor that quorem accepts: no leading zero word, and a top word plus one that is a word.
  ghost predicate Divisor(S: Big) reads S, S.x {
    S.Valid() && S.wds > 0 && 0 < S.x[S.wds - 1] < 0xffff_ffff
  }

  // A number, without leading zeros, that quorem may reduce by S.
  ghost predicate Dividend(b: Big, S: Big) reads b, b.x, S {
    Lean(b) && b.wds <= S.wds && b != S && b.x != S.x && (b.wds == 0 ==> b.x[0] == 0)
  }

  // q := floor(b / S) and b := b mod S.
  method Quorem(b: Big, S: Big) returns (q: int)
    requires Divisor(S) && Dividend(b, S)
    modifies b`wds, b.x
    ensures Dividend(b, S)
    ensures q >= 0 && b.Value() >= 0 && old(b.Value()) == S.Value() * q + b.Value()
    ensures S.x[S.wds - 1] >= 0x1_0000 ==> b.Value() < S.Value()
  {
    hide Over, Val, Pow2;
    var n := S.wds;
    if b.wds < n {
      LongerIsLarger(b.x[..b.wds], S.x[..n]);
      ValNonneg(b.x[..b.wds]);
      return 0;
    }
    n := n - 1;
    q := b.x[n] / (S.x[n] + 1);
    Estimate(b.x[..n + 1], S.x[..n + 1], q);
    Restated(b.Value(), S.Value(), q);
    if q != 0 {
      SubtractMultiple(b.x, S.x, n + 1, q);
      Shorten(b, n);
    }
    q := Correct(b, S, q);
  }

  // The one correction.
  method Correct(b: Big, S: Big, q0: int) returns (q: int)
    requires Divisor(S) && Dividend(b, S)
    modifies b`wds, b.x
    ensures Dividend(b, S)
    ensures old(b.Value()) >= S.Value() ==> q == q0 + 1 && b.Value() == old(b.Value()) - S.Value()
    ensures old(b.Value()) < S.Value() ==> q == q0 && b.Value() == old(b.Value())
    ensures b.Value() >= 0
  {
    hide Over, Val, Pow2;
    q := q0;
    ValNonneg(b.x[..b.wds]);
    var c := Cmp(b, S);
    if c >= 0 {
      SameLength(b, S);
      q := q + 1;
      SubtractMultiple(b.x, S.x, S.wds, 1);
      Shorten(b, S.wds - 1);
    }
  }

  lemma Restated(v: int, w: int, q: int)
    ensures v < (q + 2) * w <==> v - w * q < 2 * w
    ensures w * (q + 1) == w * q + w
    ensures w * q == q * w
  {
    assert (q + 2) * w == w * q + 2 * w;
  }

  lemma SameLength(b: Big, S: Big)
    requires b.Valid() && S.Valid() && b.wds <= S.wds && S.wds > 0 && S.x[S.wds - 1] > 0
    requires b.Value() >= S.Value()
    ensures b.wds == S.wds
  {
    hide Val;
    if b.wds < S.wds { LongerIsLarger(b.x[..b.wds], S.x[..S.wds]); }
  }

  function Decimal(ds: seq<int>): int {
    if ds == [] then 0 else 10 * Decimal(ds[..|ds| - 1]) + ds[|ds| - 1]
  }

  // Ten times a remainder still has no more words than a divisor with four leading zero bits.
  lemma TenFits(b: Big, S: Big)
    requires Lean(b) && Divisor(S) && FourZeros(S.x[S.wds - 1]) && b.Value() < 10 * S.Value()
    ensures b.wds <= S.wds
  {
    hide Over, Val, Pow2;
    var n := S.wds;
    if b.wds > n {
      var s, t := S.x[..n], b.x[..b.wds];
      ValTop(s);
      ValSplit(t, n - 1);
      HeadAt(t, n - 1);
      ValTop(t[n..]);
      EstimateLow(s[..n - 1], t[..n - 1], s[n - 1], Val(t[n - 1..]), 16);
    }
  }

  lemma NextDigit(v: int, w: int, ds: seq<int>, q: int, r: int, u: int)
    requires v * Pow(10, |ds|) == 10 * (Decimal(ds) * w) + r && r < 10 * w
    requires r == w * q + u && 0 <= u < w
    ensures v * Pow(10, |ds|) == Decimal(ds + [q]) * w + u
    ensures v * Pow(10, |ds| + 1) == 10 * (Decimal(ds + [q]) * w) + u * 10
    ensures q <= 9
  {
    assert (ds + [q])[..|ds|] == ds;
    DigitStep(v, w, Pow(10, |ds|), Decimal(ds), q, r, u);
    DigitSmall(w, q, u);
  }

  lemma DigitStep(v: int, w: int, p: int, d: int, q: int, r: int, u: int)
    requires v * p == 10 * (d * w) + r && r == w * q + u
    ensures v * p == (10 * d + q) * w + u
    ensures v * (10 * p) == 10 * ((10 * d + q) * w) + u * 10
  {
    assert (10 * d + q) * w == 10 * (d * w) + w * q;
    assert v * (10 * p) == 10 * (v * p);
  }

  lemma DigitSmall(w: int, q: int, u: int)
    requires w * q + u < 10 * w && 0 <= u < w
    ensures q <= 9
  {
    if q >= 10 { MulMono(w, 10, q); }
  }

  lemma IsZero(b: Big)
    requires Lean(b) && (b.wds == 0 ==> b.x[0] == 0)
    ensures b.x[0] == 0 && b.wds <= 1 <==> b.Value() == 0
  {
    if b.wds == 1 { assert b.x[..1] == [b.x[0]]; ValTop(b.x[..1]); }
    if b.wds > 1 { ValTop(b.x[..b.wds]); }
  }

  // Fixed-point digit generation: a digit per division, times ten in between.
  method Digits(b0: Big, S: Big, ilim: int) returns (ds: seq<int>, b: Big)
    requires Divisor(S) && FourZeros(S.x[S.wds - 1]) && Dividend(b0, S) && b0.Value() < 10 * S.Value()
    modifies b0, b0.x
    ensures 1 <= |ds| && (ilim >= 1 ==> |ds| <= ilim)
    ensures forall i :: 0 <= i < |ds| ==> 0 <= ds[i] <= 9
    ensures b.Valid() && 0 <= b.Value() < S.Value()
    ensures old(b0.Value()) * Pow(10, |ds| - 1) == Decimal(ds) * S.Value() + b.Value()
    ensures |ds| < ilim ==> b.Value() == 0
  {
    hide Over, Val, Pow2, Pow, Decimal, FourZeros;
    ghost var v, w := b0.Value(), S.Value();
    ds, b := [], b0;
    var i := 1;
    NoDigits(v, w);
    while true
      invariant b == b0 || (fresh(b) && fresh(b.x))
      invariant Divisor(S) && FourZeros(S.x[S.wds - 1]) && S.Value() == w
      invariant Dividend(b, S) && b.Value() < 10 * w
      invariant i == |ds| + 1 && (ilim >= 1 ==> i <= ilim)
      invariant forall j :: 0 <= j < |ds| ==> 0 <= ds[j] <= 9
      invariant v * Pow(10, |ds|) == 10 * (Decimal(ds) * w) + b.Value()
      decreases ilim - i
    {
      ghost var r := b.Value();
      BigTop(S);
      var q := Quorem(b, S);
      NextDigit(v, w, ds, q, r, b.Value());
      ds := ds + [q];
      IsZero(b);
      if b.x[0] == 0 && b.wds <= 1 { return; }
      if i >= ilim { break; }
      b := Multadd(b, 10, 0);
      TenFits(b, S);
      i := i + 1;
    }
  }

  lemma NoDigits(v: int, w: int)
    ensures v * Pow(10, 0) == 10 * (Decimal([]) * w) + v
  {}

  lemma BigTop(S: Big)
    requires Divisor(S) && FourZeros(S.x[S.wds - 1])
    ensures S.x[S.wds - 1] >= 0x1_0000
  {}

  // Both numbers shifted by the same extra bits, so that the divisor suits quorem.
  method Arrange(b0: Big, S0: Big, b2: nat, s2: nat) returns (b: Big, S: Big, i: nat)
    requires b0.Valid() && b0.wds >= 1 && S0.Valid() && S0.wds >= 1 && S0.x[S0.wds - 1] != 0
    ensures b.Valid() && b.Value() == b0.Value() * Pow2(b2 + i)
    ensures S.Valid() && S.Value() == S0.Value() * Pow2(s2 + i)
    ensures S.wds >= 1 && FourZeros(S.x[S.wds - 1]) && Divisor(S)
  {
    hide Val, Pow2, Shifted;
    i := Dshift(S0, s2);
    b, S := b0, S0;
    NoShift(S0.x[S0.wds - 1], S0.Value());
    NoShift(0, b0.Value());
    if b2 + i > 0 { b := Lshift(b, b2 + i); }
    if s2 + i > 0 { S := Lshift(S, s2 + i); }
  }
}
