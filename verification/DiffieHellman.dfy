/**
 * The key exchange of lua-crypt.c: multiplication and powers modulo the largest
 * 64-bit prime in wrapping 64-bit arithmetic, and the secret both sides derive.
 */
module DiffieHellman {
  import opened Basics
  // P, written out where the verifier needs the literal.
  const P: int := 0xffff_ffff_ffff_ffc5

  function Wrap(n: int): int { n % 0x1_0000_0000_0000_0000 }

  // Equal modulo P, with the witness k.
  predicate Cong(x: int, y: int, k: int) { x == y + k * 0xffff_ffff_ffff_ffc5 }

  lemma Halve(a: int, b: int)
    ensures a * b == 2 * (a * (b / 2)) + (if b % 2 == 1 then a else 0)
  {
    var h := b / 2;
    assert b == 2 * h + b % 2;
    assert a * (2 * h) == 2 * (a * h);
    assert a * (2 * h + b % 2) == a * (2 * h) + a * (b % 2);
  }

  // m + a without overflow, as mul_mod_p adds.
  function Add(m: int, a: int): (r: int)
    requires 0 <= m < 0xffff_ffff_ffff_ffc5 && 0 <= a <= 0xffff_ffff_ffff_ffc5
    ensures 0 <= r < 0xffff_ffff_ffff_ffc5 && (r == m + a || r == m + a - 0xffff_ffff_ffff_ffc5)
  {
    var t := Wrap(0xffff_ffff_ffff_ffc5 - a);
    if m >= t then Wrap(m - t) else Wrap(m + a)
  }

  // 2 a, as mul_mod_p doubles.
  function Double(a: int): (r: int)
    requires 0 <= a <= 0xffff_ffff_ffff_ffc5
    ensures 0 <= r <= 0xffff_ffff_ffff_ffc5 && (r == 2 * a || r == 2 * a - 0xffff_ffff_ffff_ffc5)
  {
    if a >= Wrap(0xffff_ffff_ffff_ffc5 - a) then Wrap(a * 2 - 0xffff_ffff_ffff_ffc5) else Wrap(a * 2)
  }

  // mul_mod_p, for a at most P.
  method MulModP(a0: int, b0: int) returns (m: int)
    requires 0 <= a0 <= P && 0 <= b0 < 0x1_0000_0000_0000_0000
    ensures 0 <= m < P && m == (a0 * b0) % P
  {
    hide Add, Double, Left;
    m := 0;
    var a, b := a0, b0;
    ghost var k := 0;
    LeftEnds(a0, b0);
    while b != 0
      invariant 0 <= a <= 0xffff_ffff_ffff_ffc5 && 0 <= b && 0 <= m < 0xffff_ffff_ffff_ffc5
      invariant Cong(Left(m, a, b), Left(0, a0, b0), k)
    {
      var m' := if b % 2 == 1 then Add(m, a) else m;
      var a' := Double(a);
      k := MulStep(m, a, b, m', a', Left(0, a0, b0), k);
      m, a, b := m', a', b / 2;
    }
    LeftEnds(a0, b0);
    LeftDone(m, a);
    Reduce(m, Left(0, a0, b0), k);
  }

  // What the loop still stands for.
  function Left(m: int, a: int, b: int): int { m + a * b }

  lemma LeftEnds(a: int, b: int)
    ensures Left(0, a, b) == a * b
  {}

  lemma LeftDone(m: int, a: int)
    ensures Left(m, a, 0) == m
  {}

  lemma MulStep(m: int, a: int, b: int, m': int, a': int, total: int, k: int) returns (k': int)
    requires Cong(Left(m, a, b), total, k)
    requires a' == 2 * a || a' == 2 * a - 0xffff_ffff_ffff_ffc5
    requires var s := if b % 2 == 1 then m + a else m; m' == s || m' == s - 0xffff_ffff_ffff_ffc5
    ensures Cong(Left(m', a', b / 2), total, k')
  {
    var h := b / 2;
    Halve(a, b);
    Scale(a, h);
    ScaleDown(a, h);
    var s := if b % 2 == 1 then m + a else m;
    k' := k;
    if m' != s { k' := k' - 1; }
    if a' != 2 * a { k' := k' - h; }
  }

  lemma Scale(a: int, h: int)
    ensures (a * 2) * h == 2 * (a * h)
  {}

  lemma ScaleDown(a: int, h: int)
    ensures (a * 2 - 0xffff_ffff_ffff_ffc5) * h == 2 * (a * h) - h * 0xffff_ffff_ffff_ffc5
  {
    assert (a * 2 - 0xffff_ffff_ffff_ffc5) * h == (a * 2) * h - 0xffff_ffff_ffff_ffc5 * h;
    Scale(a, h);
  }

  lemma Reduce(m: int, n: int, k: int)
    requires 0 <= m < 0xffff_ffff_ffff_ffc5 && Cong(m, n, k)
    ensures m == n % 0xffff_ffff_ffff_ffc5
  {}

  // Equal modulo P.
  predicate Same(x: int, y: int) { x % 0xffff_ffff_ffff_ffc5 == y % 0xffff_ffff_ffff_ffc5 }

  lemma SameWitness(x: int, y: int) returns (k: int)
    requires Same(x, y)
    ensures Cong(x, y, k)
  { k := x / 0xffff_ffff_ffff_ffc5 - y / 0xffff_ffff_ffff_ffc5; }

  lemma WitnessSame(x: int, y: int, k: int)
    requires Cong(x, y, k)
    ensures Same(x, y)
  {}

  lemma SameMul(x: int, x': int, y: int, y': int)
    requires Same(x, x') && Same(y, y')
    ensures Same(x * y, x' * y')
  {
    hide Same;
    var k := SameWitness(x, x');
    var l := SameWitness(y, y');
    Product(x', y', k, l);
    WitnessSame(x * y, x' * y', x' * l + y' * k + k * l * 0xffff_ffff_ffff_ffc5);
  }

  lemma Product(x: int, y: int, k: int, l: int)
    ensures (x + k * 0xffff_ffff_ffff_ffc5) * (y + l * 0xffff_ffff_ffff_ffc5)
      == x * y + (x * l + y * k + k * l * 0xffff_ffff_ffff_ffc5) * 0xffff_ffff_ffff_ffc5
  {
    assert (x + k * 0xffff_ffff_ffff_ffc5) * (y + l * 0xffff_ffff_ffff_ffc5)
      == x * y + x * (l * 0xffff_ffff_ffff_ffc5) + (k * 0xffff_ffff_ffff_ffc5) * y
         + (k * 0xffff_ffff_ffff_ffc5) * (l * 0xffff_ffff_ffff_ffc5);
    assert x * (l * 0xffff_ffff_ffff_ffc5) == (x * l) * 0xffff_ffff_ffff_ffc5;
    assert (k * 0xffff_ffff_ffff_ffc5) * y == (y * k) * 0xffff_ffff_ffff_ffc5;
    assert (k * 0xffff_ffff_ffff_ffc5) * (l * 0xffff_ffff_ffff_ffc5)
           == (k * l * 0xffff_ffff_ffff_ffc5) * 0xffff_ffff_ffff_ffc5;
  }

  lemma PowOne(b: int)
    ensures Pow(b, 1) == b
  { assert Pow(b, 1) == b * Pow(b, 0); }

  lemma PowHalves(a: int, b: nat)
    ensures Pow(a, b) == if b % 2 == 1 then (Pow(a, b / 2) * Pow(a, b / 2)) * a else Pow(a, b / 2) * Pow(a, b / 2)
  {
    hide Pow;
    var h := b / 2;
    PowSum(a, h, h);
    if b % 2 == 1 { PowSum(a, h + h, 1); PowOne(a); }
  }

  // pow_mod_p: only the first power of P itself is returned unreduced.
  method PowModP(a: int, b: int) returns (t: int)
    requires 0 <= a <= P && 1 <= b < 0x1_0000_0000_0000_0000
    ensures 0 <= t <= P && Same(t, Pow(a, b))
    ensures t == P <==> a == P && b == 1
    decreases b
  {
    hide Pow, Same;
    if b == 1 { PowOne(a); Refl(a); return a; }
    t := PowModP(a, b / 2);
    var s := MulModP(t, t);
    PowHalves(a, b);
    SameMul(t, Pow(a, b / 2), t, Pow(a, b / 2));
    Reduced(s, t * t, Pow(a, b / 2) * Pow(a, b / 2));
    t := s;
    if b % 2 != 0 {
      t := MulModP(s, a);
      Refl(a);
      SameMul(s, Pow(a, b / 2) * Pow(a, b / 2), a, a);
      Reduced(t, s * a, (Pow(a, b / 2) * Pow(a, b / 2)) * a);
    }
  }

  lemma Refl(x: int)
    ensures Same(x, x)
  {}

  lemma Reduced(r: int, x: int, y: int)
    requires r == x % 0xffff_ffff_ffff_ffc5 && Same(x, y)
    ensures Same(r, y)
  {}

  // powmodp: a^b mod P, except for P to the first power, which comes back as P.
  method PowMod(a: int, b: int) returns (r: int)
    requires 0 <= a < 0x1_0000_0000_0000_0000 && 1 <= b < 0x1_0000_0000_0000_0000
    ensures r == Pow(a, b) % P <==> !(a == P && b == 1)
    ensures a == P && b == 1 ==> r == P
  {
    hide Pow;
    var c := a;
    if c > P { c := c % P; }
    r := PowModP(c, b);
    PowSame(c, a, b);
  }

  lemma {:induction false} PowSame(x: int, y: int, n: nat)
    requires Same(x, y)
    ensures Same(Pow(x, n), Pow(y, n))
  {
    hide Same;
    if n == 0 {
      Refl(1);
    } else {
      PowSame(x, y, n - 1);
      SameMul(x, y, Pow(x, n - 1), Pow(y, n - 1));
    }
  }

  lemma {:induction false} PowPow(b: int, m: nat, n: nat)
    ensures m * n >= 0 && Pow(Pow(b, m), n) == Pow(b, m * n)
  {
    if n > 0 {
      PowPow(b, m, n - 1);
      assert m * n == m + m * (n - 1);
      PowSum(b, m, m * (n - 1));
    }
  }

  // No power of the generator is 0 modulo P.
  lemma {:induction false} NeverZero(n: nat)
    ensures Pow(5, n) % 0xffff_ffff_ffff_ffc5 != 0
  {
    if n > 0 {
      NeverZero(n - 1);
      Cancel(Pow(5, n - 1));
    }
  }

  // 5 is a unit modulo P: 5 * (2 * (P / 5) + 1) - 2 * P == 1.
  lemma Cancel(z: int)
    ensures (5 * z) % 0xffff_ffff_ffff_ffc5 == 0 ==> z % 0xffff_ffff_ffff_ffc5 == 0
  {
    var w := 5 * z / 0xffff_ffff_ffff_ffc5;
    if (5 * z) % 0xffff_ffff_ffff_ffc5 == 0 {
      assert z == 7378697629483820623 * (5 * z) - 2 * z * 0xffff_ffff_ffff_ffc5;
      Multiple(z, 7378697629483820623 * w - 2 * z);
    }
  }

  lemma Multiple(z: int, t: int)
    requires z == t * 0xffff_ffff_ffff_ffc5
    ensures z % 0xffff_ffff_ffff_ffc5 == 0
  {}

  datatype Secret = Zero | Secret(value: int)

  // ldhexchange: the public value for a private x.
  method Exchange(x: int) returns (r: Secret)
    requires 0 <= x < 0x1_0000_0000_0000_0000
    ensures r == if x == 0 then Zero else Secret(Pow(5, x) % P)
  {
    hide Pow;
    if x == 0 { return Zero; }
    var v := PowMod(5, x);
    r := Secret(v);
  }

  // ldhsecret: the secret from the other side's public value and one's own private value.
  method DhSecret(x: int, y: int) returns (r: Secret)
    requires 0 <= x < 0x1_0000_0000_0000_0000 && 0 <= y < 0x1_0000_0000_0000_0000
    ensures x == 0 || y == 0 ==> r == Zero
    ensures x != 0 && y != 0 && !(x == P && y == 1) ==> r == Secret(Pow(x, y) % P)
  {
    hide Pow;
    if x == 0 || y == 0 { return Zero; }
    var v := PowMod(x, y);
    r := Secret(v);
  }

  // Both sides derive 5^(x y) mod P.
  method Agree(x: int, y: int) returns (a: Secret, b: Secret)
    requires 1 <= x < 0x1_0000_0000_0000_0000 && 1 <= y < 0x1_0000_0000_0000_0000
    ensures x * y >= 0 && a == b == Secret(Pow(5, x * y) % P)
  {
    hide Pow;
    var px := Exchange(x);
    var py := Exchange(y);
    NeverZero(x);
    NeverZero(y);
    a := DhSecret(py.value, x);
    b := DhSecret(px.value, y);
    Derived(x, y);
    Derived(y, x);
    assert x * y == y * x;
  }

  lemma Derived(x: nat, y: nat)
    ensures x * y >= 0 && Pow(Pow(5, y) % 0xffff_ffff_ffff_ffc5, x) % 0xffff_ffff_ffff_ffc5
            == Pow(5, x * y) % 0xffff_ffff_ffff_ffc5
  {
    hide Pow;
    var p := Pow(5, y) % 0xffff_ffff_ffff_ffc5;
    assert Same(p, Pow(5, y));
    PowSame(p, Pow(5, y), x);
    PowPow(5, y, x);
    assert x * y == y * x;
  }
}
