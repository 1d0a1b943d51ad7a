/**
 * The multiword integers of dtoa.c: word arrays with a word count, changed by
 * carry and borrow loops.  Allocation is fresh each time, with unknown contents.
 */
module Bigint {
  import opened Basics
  import opened Multiword

  class Big {
    const k: nat
    var sign: int
    var wds: nat
    const x: array<Word>

    ghost predicate Valid() reads this { x.Length == Pow2(k) && wds <= x.Length }

    ghost function Value(): int
      reads this, x
      requires wds <= x.Length
    { Val(x[..wds]) }

    // No leading zero word, except for the number zero in one word.
    ghost predicate Normal() reads this, x {
      Valid() && wds >= 1 && (wds > 1 ==> x[wds - 1] != 0)
    }

    constructor Balloc(k: nat)
      ensures this.k == k && Valid() && wds == 0 && sign == 0 && fresh(x)
    {
      this.k := k;
      x := new Word[Pow2(k)];
      wds := 0;
      sign := 0;
    }
  }

  lemma CarryStep(w: Word, m: int, carry: int, v: int)
    requires 0 <= m < 0x1_0000_0000 && 0 <= carry
    ensures (w + 0x1_0000_0000 * v) * m + carry
            == (w * m + carry) % 0x1_0000_0000 + 0x1_0000_0000 * (v * m + (w * m + carry) / 0x1_0000_0000)
    ensures w * m >= 0
  {
    assert (w + 0x1_0000_0000 * v) * m == w * m + 0x1_0000_0000 * (v * m);
    MulMono(m, 0, w);
  }

  // What a carry loop still has to produce: words i.. times m, plus the carry.
  ghost function Due(s: seq<Word>, i: nat, m: int, carry: int): int
    requires i <= |s|
  { Val(s[i..]) * m + carry }

  lemma DueStep(done: seq<Word>, s: seq<Word>, i: nat, m: int, carry: int, y: int)
    requires i < |s| && 0 <= m < 0x1_0000_0000 && 0 <= carry
    requires y == s[i] * m + carry
    ensures 0 <= y
    ensures Over(done + [y % 0x1_0000_0000], Due(s, i + 1, m, y / 0x1_0000_0000)) == Over(done, Due(s, i, m, carry))
  {
    ValHead(s[i..]);
    assert s[i..][1..] == s[i + 1..];
    CarryStep(s[i], m, carry, Val(s[i + 1..]));
    OverStep(done, y % 0x1_0000_0000, Due(s, i, m, carry), Due(s, i + 1, m, y / 0x1_0000_0000));
  }

  lemma DueEnds(s: seq<Word>, m: int, carry: int)
    ensures Due(s, 0, m, carry) == Val(s) * m + carry
    ensures Due(s, |s|, m, carry) == carry
  {
    assert s[0..] == s;
    assert s[|s|..] == [];
  }

  lemma MulBound(w: Word, m: int, n: int)
    requires 0 <= m <= n
    ensures 0 <= w * m <= 0xffff_ffff * n
  {
    MulMono(m, 0, w);
    MulMono(m, w, 0xffff_ffff);
  }

  // The carry loop over the first n words; what is left is the carry out.
  method Carries(x: array<Word>, n: nat, m: int, a: int) returns (carry: int)
    requires 1 <= n <= x.Length
    requires 0 <= m < 0x8000_0000 && 0 <= a < 0x8000_0000
    modifies x
    ensures 0 <= carry < 0x8000_0000
    ensures Over(x[..n], carry) == Val(old(x[..n])) * m + a
    ensures forall t :: n <= t < x.Length ==> x[t] == old(x[t])
    ensures old(x[n - 1]) != 0 && m > 0 ==> x[n - 1] != 0 || carry != 0
    ensures n == 1 && old(x[0]) == 0 ==> x[0] == a && carry == 0
  {
    hide Over, Val, Due;
    ghost var s := x[..n];
    var i := 0;
    carry := a;
    DueEnds(s, m, a);
    assert x[..0] == [];
    NoWords(Due(s, 0, m, a));
    while i < n
      invariant 0 <= i <= n
      invariant 0 <= carry < 0x8000_0000
      invariant Over(x[..i], Due(s, i, m, carry)) == Due(s, 0, m, a)
      invariant forall t :: i <= t < x.Length ==> x[t] == old(x[t])
      invariant i > 0 && s[i - 1] != 0 && m > 0 ==> x[i - 1] != 0 || carry != 0
      invariant i == 0 ==> carry == a
      invariant i == 1 && s[0] == 0 ==> x[0] == a && carry == 0
    {
      DueStep(x[..i], s, i, m, carry, x[i] * m + carry);
      CarryBound(x[i], m, carry);
      var y := x[i] * m + carry;
      assert y < 0x1_0000_0000_0000_0000;
      carry := y / 0x1_0000_0000;
      ghost var done := x[..i];
      x[i] := y % 0x1_0000_0000;
      i := i + 1;
      assert x[..i] == done + [y % 0x1_0000_0000];
    }
    DueEnds(s, m, carry);
  }

  lemma NoWords(v: int)
    ensures Over([], v) == v
  {}

  lemma CarryBound(w: Word, m: int, carry: int)
    requires 0 <= m < 0x8000_0000 && 0 <= carry < 0x8000_0000
    ensures 0 <= w * m + carry <= 0x1_0000_0000 * 0x7fff_ffff
    ensures w == 0 ==> w * m == 0
    ensures w != 0 && m > 0 ==> w * m + carry > 0
  {
    MulBound(w, m, 0x7fff_ffff);
    if w != 0 && m > 0 { MulMono(m, 1, w); }
  }

  // b := b * m + a (a zero-word b keeps no words, and the added part is lost).
  method Multadd(b: Big, m: int, a: int) returns (r: Big)
    requires b.Valid() && (b.wds == 0 ==> b.x[0] == 0)
    requires 0 <= m < 0x8000_0000 && 0 <= a < 0x8000_0000
    modifies b, b.x
    ensures r.Valid() && (r == b || (fresh(r) && fresh(r.x)))
    ensures r.Value() == if old(b.wds) == 0 then 0 else old(b.Value()) * m + a
    ensures old(b.wds) == 0 ==> r.wds == 0 && r.x[0] == a
    ensures old(b.Normal()) && m > 0 ==> r.Normal()
  {
    hide Over;
    var wds := b.wds;
    var carry := Carries(b.x, if wds == 0 then 1 else wds, m, a);
    r := b;
    if wds == 0 { assert r.x[..0] == []; NoWords(0); }
    if carry != 0 {
      if wds >= b.x.Length {
        r := new Big.Balloc(b.k + 1);
        CopyWords(b.x, r.x, wds);
        r.sign := b.sign;
      }
      assert b.x[..wds] == r.x[..wds];
      r.x[wds] := carry;
      r.wds := wds + 1;
      assert r.x[..wds + 1] == b.x[..wds] + [carry];
      OverStep(b.x[..wds], carry, carry, 0);
    }
  }

  // The memcpy of Bcopy.
  method CopyWords(from: array<Word>, to: array<Word>, n: nat)
    requires n <= from.Length && n <= to.Length && from != to
    modifies to
    ensures to[..n] == from[..n]
    ensures forall t :: n <= t < to.Length ==> to[t] == old(to[t])
  {
    var i := 0;
    while i < n
      invariant 0 <= i <= n
      invariant to[..i] == from[..i]
      invariant forall t :: n <= t < to.Length ==> to[t] == old(to[t])
    {
      to[i] := from[i];
      i := i + 1;
    }
  }

  // One row of the product: the n words of a, times y, added to c from word j on.
  method Row(c: array<Word>, j: nat, a: array<Word>, n: nat, y: Word)
    requires 1 <= n <= a.Length && j + n < c.Length && a != c
    modifies c
    ensures Val(c[j..j + n + 1]) == Val(old(c[j..j + n])) + Val(a[..n]) * y
    ensures forall t :: 0 <= t < j || j + n < t < c.Length ==> c[t] == old(c[t])
  {
    hide Over, Val, Due;
    ghost var s, u := a[..n], c[j..j + n];
    DueEnds(s, y, 0);
    DueEnds(u, 1, 0);
    assert c[j..j] == [];
    NoWords(Due(s, 0, y, 0) + Due(u, 0, 1, 0));
    var i, carry := 0, 0;
    while i < n
      invariant 0 <= i <= n
      invariant 0 <= carry < 0x1_0000_0000
      invariant Over(c[j..j + i], Due(s, i, y, carry) + Due(u, i, 1, 0)) == Due(s, 0, y, 0) + Due(u, 0, 1, 0)
      invariant forall t :: 0 <= t < j || j + i <= t < c.Length ==> c[t] == old(c[t])
    {
      ghost var done := c[j..j + i];
      RowStep(done, s, u, i, y, carry, s[i] * y + u[i] + carry);
      var z := a[i] * y + c[j + i] + carry;
      assert z < 0x1_0000_0000_0000_0000;
      carry := z / 0x1_0000_0000;
      c[j + i] := z % 0x1_0000_0000;
      i := i + 1;
      assert c[j..j + i] == done + [z % 0x1_0000_0000];
    }
    DueEnds(s, y, carry);
    DueEnds(u, 1, 0);
    ghost var done := c[j..j + n];
    c[j + n] := carry;
    assert c[j..j + n + 1] == done + [carry];
    ValSnoc(done, carry);
  }

  lemma ValSnoc(s: seq<Word>, w: Word)
    ensures Val(s + [w]) == Over(s, w)
  { OverStep(s, w, w, 0); }

  lemma RowStep(done: seq<Word>, s: seq<Word>, u: seq<Word>, i: nat, y: Word, carry: int, z: int)
    requires i < |s| == |u| && 0 <= carry < 0x1_0000_0000
    requires z == s[i] * y + u[i] + carry
    ensures 0 <= z < 0x1_0000_0000_0000_0000
    ensures Over(done + [z % 0x1_0000_0000], Due(s, i + 1, y, z / 0x1_0000_0000) + Due(u, i + 1, 1, 0))
            == Over(done, Due(s, i, y, carry) + Due(u, i, 1, 0))
  {
    ValHead(s[i..]);
    ValHead(u[i..]);
    assert s[i..][1..] == s[i + 1..] && u[i..][1..] == u[i + 1..];
    var v, w := Val(s[i + 1..]), Val(u[i + 1..]);
    CarryStep(s[i], y, carry + u[i], v);
    MulBound(s[i], y, 0xffff_ffff);
    OverStep(done, z % 0x1_0000_0000, Due(s, i, y, carry) + Due(u, i, 1, 0),
             Due(s, i + 1, y, z / 0x1_0000_0000) + Due(u, i + 1, 1, 0));
  }

  // What the rows of words j.. of t still add to the window w.
  ghost function RowsDue(s: seq<Word>, t: seq<Word>, j: nat, w: seq<Word>): int
    requires j <= |t|
  { Val(s) * Val(t[j..]) + Val(w) }

  lemma RowsStep(done: seq<Word>, s: seq<Word>, t: seq<Word>, j: nat, w: seq<Word>, row: seq<Word>)
    requires j < |t| && |row| > 0
    requires Val(row) == Val(w) + Val(s) * t[j]
    ensures Over(done + [row[0]], RowsDue(s, t, j + 1, row[1..])) == Over(done, RowsDue(s, t, j, w))
  {
    ValHead(t[j..]);
    assert t[j..][1..] == t[j + 1..];
    ValHead(row);
    var p, q := Val(s), Val(t[j + 1..]);
    assert p * (t[j] + 0x1_0000_0000 * q) == p * t[j] + 0x1_0000_0000 * (p * q);
    OverStep(done, row[0], RowsDue(s, t, j, w), RowsDue(s, t, j + 1, row[1..]));
  }

  lemma RowsEnds(s: seq<Word>, t: seq<Word>, w: seq<Word>)
    ensures Val(w) == 0 ==> RowsDue(s, t, 0, w) == Val(s) * Val(t)
    ensures RowsDue(s, t, |t|, w) == Val(w)
  {
    assert t[0..] == t;
    assert t[|t|..] == [];
    NoWords(0);
  }

  // All rows: c, zeroed, receives the product of the n words of a and the m words of b.
  method Rows(c: array<Word>, a: array<Word>, n: nat, b: array<Word>, m: nat)
    requires m <= n <= a.Length && m <= b.Length && n + m <= c.Length && a != c && b != c
    requires forall t :: 0 <= t < n + m ==> c[t] == 0
    modifies c
    ensures Val(c[..n + m]) == Val(a[..n]) * Val(b[..m])
  {
    hide Over, Val, RowsDue;
    ghost var s, u := a[..n], b[..m];
    OverZero(c[0..n]);
    RowsEnds(s, u, c[0..n]);
    assert c[..0] == [];
    NoWords(RowsDue(s, u, 0, c[0..n]));
    var j := 0;
    while j < m
      invariant 0 <= j <= m
      invariant forall t :: j + n <= t < n + m ==> c[t] == 0
      invariant Over(c[..j], RowsDue(s, u, j, c[j..j + n])) == Val(s) * Val(u)
    {
      ghost var done, w := c[..j], c[j..j + n];
      var y := b[j];
      if y != 0 {
        Row(c, j, a, n, y);
      } else {
        assert c[j..j + n + 1] == w + [0];
        ValSnoc(w, 0);
        ZeroRow(w, Val(s));
      }
      ghost var row := c[j..j + n + 1];
      RowsStep(done, s, u, j, w, row);
      j := j + 1;
      assert c[..j] == done + [row[0]];
      assert c[j..j + n] == row[1..];
    }
    RowsEnds(s, u, c[m..m + n]);
    assert c[..m + n] == c[..m] + c[m..m + n];
    ValAppend(c[..m], c[m..m + n]);
  }

  lemma ZeroRow(w: seq<Word>, v: int)
    ensures Over(w, 0) == Val(w) + v * 0
  {}

  lemma ValAppend(s: seq<Word>, t: seq<Word>)
    ensures Val(s + t) == Over(s, Val(t))
  { OverAppend(s, t, 0); }

  method Mult(p: Big, q: Big) returns (r: Big)
    requires p.Valid() && q.Valid()
    ensures r.Valid() && fresh(r) && fresh(r.x)
    ensures r.Value() == p.Value() * q.Value()
    ensures r.wds > 0 ==> r.x[r.wds - 1] != 0
    ensures r.wds == 0 <==> r.Value() == 0
  {
    hide Val, Pow2;
    if p.wds < q.wds {
      r := MultOrdered(q, p);
    } else {
      r := MultOrdered(p, q);
    }
  }

  method MultOrdered(a: Big, b: Big) returns (r: Big)
    requires a.Valid() && b.Valid() && b.wds <= a.wds
    ensures r.Valid() && fresh(r) && fresh(r.x)
    ensures r.Value() == a.Value() * b.Value()
    ensures r.wds > 0 ==> r.x[r.wds - 1] != 0
    ensures r.wds == 0 <==> r.Value() == 0
  {
    hide Over, Val;
    var k := a.k;
    var wc := a.wds + b.wds;
    if wc > a.x.Length { k := k + 1; }
    r := new Big.Balloc(k);
    Zero(r.x, wc);
    Rows(r.x, a.x, a.wds, b.x, b.wds);
    wc := Trim(r.x, wc);
    r.wds := wc;
    if wc > 0 { ValTop(r.x[..wc]); } else { assert r.x[..0] == []; ValNone(); }
  }

  method Zero(x: array<Word>, n: nat)
    requires n <= x.Length
    modifies x
    ensures forall t :: 0 <= t < n ==> x[t] == 0
  {
    var i := 0;
    while i < n
      invariant 0 <= i <= n
      invariant forall t :: 0 <= t < i ==> x[t] == 0
    {
      x[i] := 0;
      i := i + 1;
    }
  }

  lemma ValNone()
    ensures Val([]) == 0
  {}

  // Drops leading zero words.
  method Trim(x: array<Word>, n: nat) returns (wc: nat)
    requires n <= x.Length
    ensures wc <= n && Val(x[..wc]) == Val(x[..n])
    ensures wc > 0 ==> x[wc - 1] != 0
  {
    wc := n;
    while wc > 0 && x[wc - 1] == 0
      invariant wc <= n && Val(x[..wc]) == Val(x[..n])
    {
      assert x[..wc] == x[..wc - 1] + [0];
      OverStep(x[..wc - 1], 0, 0, 0);
      wc := wc - 1;
    }
  }

  // 625 squared j times: the entries of the cache.
  ghost function Square(j: nat): int {
    if j == 0 then 625 else Square(j - 1) * Square(j - 1)
  }

  lemma {:induction false} SquareIsPower(j: nat)
    ensures Square(j) == Pow(5, 4 * Pow2(j))
  {
    if j > 0 {
      SquareIsPower(j - 1);
      PowSum(5, 4 * Pow2(j - 1), 4 * Pow2(j - 1));
    } else {
      assert Pow(5, 4) == 5 * (5 * (5 * (5 * Pow(5, 0))));
    }
  }

  lemma {:induction false} SquarePositive(j: nat, v: int)
    ensures Square(j) > 0
    ensures v > 0 ==> v * Square(j) > 0
  {
    if j > 0 { SquarePositive(j - 1, Square(j - 1)); }
    if v > 0 { MulMono(v, 1, Square(j)); }
  }

  lemma {:induction false} PowHalf(b: int, n: nat)
    ensures Pow(b, n) == (if n % 2 == 1 then b else 1) * Pow(b * b, n / 2)
  {
    if n >= 2 {
      PowHalf(b, n - 2);
      var q := Pow(b * b, n / 2 - 1);
      var o := if n % 2 == 1 then b else 1;
      assert b * (b * (o * q)) == o * ((b * b) * q);
    } else if n == 1 {
      assert Pow(b, 1) == b * Pow(b, 0);
    }
  }

  lemma {:induction false} PowFours(n: nat, i: nat)
    requires i < 4
    ensures Pow(5, 4 * n + i) == Small(i) * Pow(625, n)
  {
    if n > 0 {
      PowFours(n - 1, i);
      var p := Pow(5, 4 * (n - 1) + i);
      var q := Pow(625, n - 1);
      var m := 4 * (n - 1) + i;
      assert Pow(5, m + 4) == 5 * Pow(5, m + 3);
      assert Pow(5, m + 3) == 5 * Pow(5, m + 2);
      assert Pow(5, m + 2) == 5 * Pow(5, m + 1);
      assert Pow(5, m + 1) == 5 * p;
      assert 625 * (Small(i) * q) == Small(i) * (625 * q);
    } else {
      assert Pow(5, 3) == 5 * (5 * (5 * Pow(5, 0)));
      assert Pow(5, 2) == 5 * (5 * Pow(5, 0));
      assert Pow(5, 1) == 5 * Pow(5, 0);
    }
  }

  function Small(i: nat): int { if i == 0 then 1 else if i == 1 then 5 else if i == 2 then 25 else 125 }

  lemma SquareStep(v: int, w: int, j: nat, n: nat)
    requires w == v * (if n % 2 == 1 then Square(j) else 1)
    ensures w * Pow(Square(j + 1), n / 2) == v * Pow(Square(j), n)
    ensures n / 2 == 0 ==> w == v * Pow(Square(j), n)
  {
    var o := if n % 2 == 1 then Square(j) else 1;
    var q := Pow(Square(j + 1), n / 2);
    PowHalf(Square(j), n);
    assert (v * o) * q == v * (o * q);
  }

  lemma SquareStart(v: int, w: int, k: nat)
    requires w == v * Small(k % 4)
    ensures w * Pow(Square(0), k / 4) == v * Pow(5, k)
    ensures k / 4 == 0 ==> w == v * Pow(5, k)
  {
    PowFours(k / 4, k % 4);
    assert k == 4 * (k / 4) + k % 4;
    var o, q := Small(k % 4), Pow(625, k / 4);
    assert (v * o) * q == v * (o * q);
  }

  // The list p5s -> next -> next ..., extended by one square when first needed.
  class Powers {
    var p5s: seq<Big>

    ghost predicate Valid() reads this, p5s, set p <- p5s :: p.x {
      forall j :: 0 <= j < |p5s| ==> p5s[j].Valid() && p5s[j].Value() == Square(j)
    }

    ghost predicate Apart(b: Big) reads this, p5s {
      forall j :: 0 <= j < |p5s| ==> p5s[j] != b && p5s[j].x != b.x
    }

    constructor()
      ensures Valid() && p5s == []
    { p5s := []; }

    method Entry(j: nat) returns (p: Big)
      requires Valid() && j <= |p5s|
      modifies this
      ensures Valid() && j < |p5s| && p == p5s[j] && p.Valid() && p.Value() == Square(j)
      ensures old(p5s) <= p5s
      ensures forall i :: |old(p5s)| <= i < |p5s| ==> fresh(p5s[i]) && fresh(p5s[i].x)
    {
      hide Val, Multiword.Over;
      if j == |p5s| {
        if j == 0 {
          p := I2b(625);
        } else {
          p := Mult(p5s[j - 1], p5s[j - 1]);
        }
        assert p.Value() == Square(j);
        p5s := p5s + [p];
      }
      p := p5s[j];
    }

    method Pow5mult(b: Big, k: nat) returns (r: Big)
      requires Valid() && Apart(b) && b.Valid() && b.wds > 0
      modifies this, b, b.x
      ensures Valid() && old(p5s) <= p5s
      ensures r.Valid() && (r == b || (fresh(r) && fresh(r.x))) && Apart(r)
      ensures r.Value() == old(b.Value()) * Pow(5, k)
      ensures old(b.Normal()) && old(b.Value()) > 0 ==> r.Normal()
    {
      hide Val, Multiword.Over, Pow, Pow2;
      r := b;
      ghost var v := b.Value();
      var i := k % 4;
      if i != 0 { r := Multadd(r, Small(i), 0); }
      SquareStart(v, r.Value(), k);
      var n := k / 4;
      if n == 0 { return; }
      r := Squares(r, n);
    }

    method Squares(b: Big, k: nat) returns (r: Big)
      requires Valid() && Apart(b) && b.Valid() && k > 0
      modifies this
      ensures Valid() && old(p5s) <= p5s
      ensures r.Valid() && (r == b || (fresh(r) && fresh(r.x))) && Apart(r)
      ensures r.Value() == old(b.Value()) * Pow(Square(0), k)
      ensures old(b.Normal()) && old(b.Value()) > 0 ==> r.Normal()
    {
      hide Val, Multiword.Over, Pow, Pow2, Square, Big.Value;
      r := b;
      var n, j := k, 0;
      var p5 := Entry(0);
      while true
        invariant n > 0 && j < |p5s| && p5 == p5s[j]
        invariant Valid() && old(p5s) <= p5s
        invariant r.Valid() && (r == b || (fresh(r) && fresh(r.x))) && Apart(r)
        invariant r.Value() * Pow(Square(j), n) == old(b.Value()) * Pow(Square(0), k)
        invariant old(b.Normal()) && old(b.Value()) > 0 ==> r.Normal() && r.Value() > 0
        decreases n
      {
        ghost var v := r.Value();
        if n % 2 == 1 {
          r := Mult(r, p5);
          SquarePositive(j, v);
        }
        SquareStep(v, r.Value(), j, n);
        n := n / 2;
        if n == 0 { break; }
        p5 := Entry(j + 1);
        j := j + 1;
      }
    }
  }

  method I2b(i: Word) returns (b: Big)
    ensures b.Valid() && b.Normal() && b.Value() == i && fresh(b) && fresh(b.x)
  {
    b := new Big.Balloc(1);
    b.x[0] := i;
    b.wds := 1;
    assert b.x[..1] == [] + [i];
    ValSnoc([], i);
  }

  lemma Pow2Word()
    ensures Pow2(4) == 16 && Pow2(8) == 256 && Pow2(16) == 0x1_0000 && Pow2(28) == 0x1000_0000 &&
            Pow2(32) == 0x1_0000_0000
  {
    assert Pow2(4) == 16;
    Pow2Sum(4, 4);
    Pow2Sum(8, 8);
    Pow2Sum(8, 16);
    Pow2Sum(4, 24);
    Pow2Sum(16, 16);
  }

  // n zero words below: a shift by 32 n bits.
  lemma {:induction false} OverShift(s: seq<Word>, v: int)
    requires forall i :: 0 <= i < |s| ==> s[i] == 0
    ensures Over(s, v) == v * Pow2(32 * |s|)
  {
    if s != [] {
      OverShift(s[1..], v);
      Pow2Sum(32, 32 * (|s| - 1));
      Pow2Word();
      var p := Pow2(32 * (|s| - 1));
      assert v * (0x1_0000_0000 * p) == 0x1_0000_0000 * (v * p);
    }
  }

  // x << k and x >> (32 - k) are the two words of x * 2^k; the bits shifted in fit below.
  lemma ShiftWord(x: Word, k: nat, z: int)
    requires 0 < k < 32 && 0 <= z < Pow2(k)
    ensures Pow2(k) < 0x1_0000_0000
    ensures x * Pow2(k) + z >= 0
    ensures (x * Pow2(k) + z) % 0x1_0000_0000 == x * Pow2(k) % 0x1_0000_0000 + z
    ensures (x * Pow2(k) + z) / 0x1_0000_0000 == x / Pow2(32 - k)
    ensures 0 <= x / Pow2(32 - k) < Pow2(k)
  {
    var m, d := Pow2(k), Pow2(32 - k);
    Pow2Sum(k, 32 - k);
    Pow2Word();
    assert d >= 2;
    ShiftSplit(x, m, d, z);
  }

  lemma ShiftSplit(x: Word, m: int, d: int, z: int)
    requires m >= 1 && d >= 2 && m * d == 0x1_0000_0000 && 0 <= z < m
    ensures m < 0x1_0000_0000 && x * m + z >= 0
    ensures (x * m + z) % 0x1_0000_0000 == x * m % 0x1_0000_0000 + z
    ensures (x * m + z) / 0x1_0000_0000 == x / d
    ensures 0 <= x / d < m
  {
    var q, r := x / d, x % d;
    SplitBounds(x, q, r, m, d);
    SplitSum(x * m, q, m * r, z);
    SplitSum(x * m, q, m * r, 0);
  }

  lemma SplitSum(p: int, q: int, low: int, z: int)
    requires p == 0x1_0000_0000 * q + low && 0 <= low && 0 <= z && low + z < 0x1_0000_0000
    ensures (p + z) % 0x1_0000_0000 == low + z && (p + z) / 0x1_0000_0000 == q
  {}

  lemma SplitBounds(x: Word, q: int, r: int, m: int, d: int)
    requires m >= 1 && d >= 2 && m * d == 0x1_0000_0000 && x == q * d + r && 0 <= r < d
    ensures 0 <= m * r <= 0x1_0000_0000 - m && m < 0x1_0000_0000 && 0 <= q < m
    ensures x * m == 0x1_0000_0000 * q + m * r
  {
    SplitProduct(q, r, m, d);
    MulMono(m, 0, r);
    MulMono(m, r + 1, d);
    assert m * (r + 1) == m * r + m;
    MulMono(m, 2, d);
    if q >= m { MulMono(d, m, q); assert false; }
    if q < 0 { MulMono(d, q, -1); assert false; }
  }

  lemma SplitProduct(q: int, r: int, m: int, d: int)
    requires m * d == 0x1_0000_0000
    ensures (q * d + r) * m == 0x1_0000_0000 * q + m * r
    ensures q * d == d * q
  {
    assert (q * d + r) * m == (q * d) * m + r * m;
    assert (q * d) * m == q * (d * m);
  }
}
