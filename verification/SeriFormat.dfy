/**
 * The bytes that lua-seri.c writes and reads, value by value and first byte by first byte, in plain numbers.
 */
module SeriFormat {
  import opened Basics
  import opened Seri

  // What two, four and eight bytes stand for, least significant first.
  function Two(s: seq<Byte>): nat
    requires |s| >= 2
  { s[0] as int + 0x100 * s[1] as int }

  function Four(s: seq<Byte>): nat
    requires |s| >= 4
  { s[0] as int + 0x100 * s[1] as int + 0x1_0000 * s[2] as int + 0x100_0000 * s[3] as int }

  function Eight(s: seq<Byte>): nat
    requires |s| >= 8
  { Four(s) + 0x1_0000_0000 * Four(s[4..]) }

  // The bytes are the number, or its two's complement.
  predicate FourAre(s: seq<Byte>, v: int) { |s| == 4 && Four(s) == if v < 0 then v + 0x1_0000_0000 else v }

  predicate EightAre(s: seq<Byte>, v: int) {
    |s| == 8 && Eight(s) == if v < 0 then v + 0x1_0000_0000_0000_0000 else v
  }

  lemma LeTwo(n: int)
    requires 0 <= n < 0x1_0000
    ensures Le(n, 2) == [n % 0x100, n / 0x100]
  {
    assert Le(n / 256, 1) == [n / 256 % 256] + Le(n / 256 / 256, 0);
  }

  lemma LeFour(n: int)
    requires 0 <= n < 0x1_0000_0000
    ensures |Le(n, 4)| == 4 && Four(Le(n, 4)) == n
  {
    hide Le;
    var a := n / 256;
    var b := a / 256;
    var c := b / 256;
    LeOne(n, 3);
    LeOne(a, 2);
    LeOne(b, 1);
    LeOne(c, 0);
    assert n == n % 256 + 256 * a && a == a % 256 + 256 * b && b == b % 256 + 256 * c && c % 256 == c;
    assert Le(n, 4) == [n % 256, a % 256, b % 256, c];
  }

  lemma LeEight(n: int)
    requires 0 <= n < 0x1_0000_0000_0000_0000
    ensures |Le(n, 8)| == 8 && Eight(Le(n, 8)) == n
  {
    hide Le;
    LeMore(n, 4);
    LeFour(n / 0x1_0000_0000);
    LeFour(n % 0x1_0000_0000);
    var s := Le(n, 8);
    assert s[4..] == Le(n / 0x1_0000_0000, 4);
    assert forall i :: 0 <= i < 4 ==> s[i] == Le(n % 0x1_0000_0000, 4)[i];
  }

  // The first four bytes and those behind them.
  lemma LeMore(n: int, k: nat)
    requires n >= 0
    ensures Le(n, 4 + k) == Le(n % 0x1_0000_0000, 4) + Le(n / 0x1_0000_0000, k)
  {
    var m := n % 0x1_0000_0000;
    LeOne(n, 3 + k);
    LeOne(n / 0x100, 2 + k);
    LeOne(n / 0x1_0000, 1 + k);
    LeOne(n / 0x100_0000, k);
    LeOne(m, 3);
    LeOne(m / 0x100, 2);
    LeOne(m / 0x1_0000, 1);
    LeOne(m / 0x100_0000, 0);
    assert n / 0x100 / 0x100 == n / 0x1_0000 && n / 0x1_0000 / 0x100 == n / 0x100_0000;
    assert n / 0x100_0000 / 0x100 == n / 0x1_0000_0000;
    assert m / 0x100 / 0x100 == m / 0x1_0000 && m / 0x1_0000 / 0x100 == m / 0x100_0000;
    SameBytes(n);
    assert Le(m, 4) == [n % 256, n / 0x100 % 256, n / 0x1_0000 % 256, n / 0x100_0000 % 256];
  }

  lemma SameBytes(n: int)
    requires n >= 0
    ensures var m := n % 0x1_0000_0000;
      m % 256 == n % 256 && m / 0x100 % 256 == n / 0x100 % 256 && m / 0x1_0000 % 256 == n / 0x1_0000 % 256 &&
      m / 0x100_0000 % 256 == n / 0x100_0000 % 256
  {
    var q, m := n / 0x1_0000_0000, n % 0x1_0000_0000;
    Shifted(q, m);
    Multiple(0x1_0000 * q, m / 0x100);
    Multiple(0x100 * q, m / 0x1_0000);
    Multiple(q, m / 0x100_0000);
    Multiple(0x100_0000 * q, m);
  }

  lemma Shifted(q: int, m: int)
    requires 0 <= q && 0 <= m
    ensures (0x1_0000_0000 * q + m) / 0x100 == 0x100 * (0x1_0000 * q) + m / 0x100
    ensures (0x1_0000_0000 * q + m) / 0x1_0000 == 0x100 * (0x100 * q) + m / 0x1_0000
    ensures (0x1_0000_0000 * q + m) / 0x100_0000 == 0x100 * q + m / 0x100_0000
  {}

  lemma Multiple(k: int, m: int)
    ensures (0x100 * k + m) % 0x100 == m % 0x100
  {}

  lemma LeOne(n: int, k: nat)
    ensures Le(n, k + 1) == [n % 256] + Le(n / 256, k) && Le(n, 0) == [] && Le(n / 256, 0) == []
  {}

  // ---------------------------------------------------------------- what is written

  // The bytes of a value.
  ghost predicate Written(p: seq<Byte>, v: Val)
    decreases v
  {
    match v
    case Nil => p == [0]
    case Boolean(b) => p == [if b then 9 else 1]
    case Integer(i) => IntegerWritten(p, i)
    case Real(bits) => p == [66] + bits
    case Pointer(a) => p == [3] + a
    case Text(s) => TextWritten(p, s)
    case Tbl(arr, pairs) =>
      exists head, body, tail ::
        p == head + body + tail && HeadWritten(head, Length(arr)) && ListWritten(body, arr) &&
        PairsWritten(tail, pairs, Length(arr))
    case Meta(pairs) => p != [] && p[0] == 6 && PairsWritten(p[1..], pairs, 0)
  }

  ghost predicate IntegerWritten(p: seq<Byte>, i: int) {
    if i == 0 then p == [2]
    else if 0 < i < 0x100 then p == [10, i]
    else if 0 < i < 0x1_0000 then |p| == 3 && p[0] == 18 && Two(p[1..]) == i
    else if -0x8000_0000 <= i < 0x8000_0000 then |p| == 5 && p[0] == 34 && FourAre(p[1..], i)
    else |p| == 9 && p[0] == 50 && EightAre(p[1..], i)
  }

  ghost predicate TextWritten(p: seq<Byte>, s: seq<Byte>) {
    if |s| < 32 then p == [4 + 8 * |s|] + s
    else if |s| < 0x1_0000 then |p| == 3 + |s| && p[0] == 21 && Two(p[1..]) == |s| && p[3..] == s
    else |p| == 5 + |s| && p[0] == 37 && Four(p[1..]) == |s| && p[5..] == s
  }

  // The size of the array part, in the first byte when it is below 31.
  ghost predicate HeadWritten(p: seq<Byte>, n: nat) {
    if n < 31 then p == [6 + 8 * n] else p != [] && p[0] == 254 && IntegerWritten(p[1..], n)
  }

  ghost predicate ListWritten(p: seq<Byte>, vs: Vals)
    decreases vs
  {
    match vs
    case Done => p == []
    case More(v, rest) => exists a, b :: p == a + b && Written(a, v) && ListWritten(b, rest)
  }

  // Keys that the array part has are left out; a nil ends the pairs.
  ghost predicate PairsWritten(p: seq<Byte>, ps: Pairs, n: nat)
    decreases ps
  {
    match ps
    case End => p == [0]
    case Entry(k, v, rest) =>
      if k.Integer? && 1 <= k.i <= n then PairsWritten(p, rest, n)
      else exists a, b, c :: p == a + b + c && Written(a, k) && Written(b, v) && PairsWritten(c, rest, n)
  }

  lemma IntegerIs(i: int)
    requires Int64(i)
    ensures IntegerWritten(EncInteger(i), i)
  {
    hide Le, Eight, Four;
    var p := EncInteger(i);
    if i == 0 {
    } else if !(-0x8000_0000 <= i < 0x8000_0000) {
      Wide(i);
    } else if i < 0 {
      LeFour(i + 0x1_0000_0000);
      assert i % 0x1_0000_0000 == i + 0x1_0000_0000;
      assert p[1..] == Le(i + 0x1_0000_0000, 4);
    } else if i < 0x100 {
      LeOne(i, 0);
    } else if i < 0x1_0000 {
      LeTwo(i);
      assert p[1..] == Le(i, 2);
    } else {
      LeFour(i);
      assert p[1..] == Le(i, 4);
    }
  }

  lemma Wide(i: int)
    requires Int64(i) && !(-0x8000_0000 <= i < 0x8000_0000)
    ensures IntegerWritten(EncInteger(i), i)
  {
    hide Le, Eight;
    var n := if i < 0 then i + 0x1_0000_0000_0000_0000 else i;
    Complement(i, n);
    LeEight(n);
    assert EncInteger(i)[1..] == Le(n, 8);
  }

  lemma Complement(i: int, n: int)
    requires Int64(i) && n == if i < 0 then i + 0x1_0000_0000_0000_0000 else i
    ensures i % 0x1_0000_0000_0000_0000 == n
  {}

  lemma TextIs(s: seq<Byte>)
    requires |s| < 0x8000_0000
    ensures TextWritten(EncText(s), s)
  {
    hide Le;
    var p, n := EncText(s), |s|;
    if n >= 0x1_0000 {
      LeFour(n);
      assert p[5..] == s && forall i :: 0 <= i < 4 ==> p[1..][i] == Le(n, 4)[i];
    } else if n >= 32 {
      LeTwo(n);
      assert p[3..] == s && forall i :: 0 <= i < 2 ==> p[1..][i] == Le(n, 2)[i];
    }
  }

  lemma HeadIs(n: nat)
    requires n < 0x8000_0000
    ensures HeadWritten(EncSize(n), n)
  {
    hide EncInteger, IntegerWritten;
    IntegerIs(n);
    if n >= 31 { assert EncSize(n)[1..] == EncInteger(n); }
  }

  // Packing writes these bytes, for every value.
  lemma {:induction false} PackedIs(v: Val)
    requires Lua(v)
    ensures Written(Enc(v), v)
    decreases v
  {
    hide IntegerWritten, TextWritten, HeadWritten, EncInteger, EncText, EncSize;
    match v {
      case Integer(i) => IntegerIs(i);
      case Text(s) => TextIs(s);
      case Tbl(arr, pairs) =>
        HeadIs(Length(arr));
        ListIs(arr);
        PairsAre(pairs, Length(arr));
      case Meta(pairs) =>
        PairsAre(pairs, 0);
        assert Enc(v)[1..] == EncPairs(pairs, 0);
      case _ =>
    }
  }

  lemma {:induction false} ListIs(vs: Vals)
    requires LuaVals(vs)
    ensures ListWritten(EncVals(vs), vs)
    decreases vs
  {
    hide Written;
    if vs.More? {
      PackedIs(vs.first);
      ListIs(vs.rest);
    }
  }

  lemma {:induction false} PairsAre(ps: Pairs, n: nat)
    requires LuaPairs(ps)
    ensures PairsWritten(EncPairs(ps, n), ps, n)
    decreases ps
  {
    hide Written;
    if ps.Entry? {
      PairsAre(ps.others, n);
      PackedIs(ps.key);
      PackedIs(ps.value);
    }
  }

  // ---------------------------------------------------------------- what is read

  lemma UnLeIs(s: seq<Byte>)
    ensures |s| == 1 ==> UnLe(s) == s[0]
    ensures |s| == 2 ==> UnLe(s) == Two(s)
    ensures |s| == 4 ==> UnLe(s) == Four(s)
  {
    UnLeTail(s);
    if |s| >= 2 { UnLeTail(s[1..]); }
    if |s| >= 3 { UnLeTail(s[2..]); }
    if |s| >= 4 { UnLeTail(s[3..]); }
  }

  lemma UnLeTail(s: seq<Byte>)
    ensures s != [] ==> UnLe(s) == s[0] as int + 0x100 * UnLe(s[1..])
    ensures |s| >= 2 ==> s[1..][1..] == s[2..]
    ensures |s| >= 3 ==> s[2..][1..] == s[3..]
    ensures |s| == 1 ==> s[1..] == []
    ensures UnLe([]) == 0
  {}

  lemma UnLeEight(s: seq<Byte>)
    requires |s| == 8
    ensures UnLe(s) == Eight(s)
  {
    hide UnLe;
    UnLeTail(s);
    UnLeTail(s[1..]);
    UnLeTail(s[2..]);
    UnLeTail(s[3..]);
    assert s[1..][1..] == s[2..] && s[2..][1..] == s[3..] && s[3..][1..] == s[4..];
    UnLeIs(s[4..]);
  }

  // Two's complement.
  function Minus(n: int, half: int): int { if n < half then n else n - 2 * half }

  // The first byte of a number decides how many bytes follow.
  function Number(b: Byte, s: seq<Byte>): Out<Val> {
    if b == 2 then Got(Integer(0), s)
    else if b == 10 && |s| >= 1 then Got(Integer(s[0]), s[1..])
    else if b == 18 && |s| >= 2 then Got(Integer(Two(s)), s[2..])
    else if b == 34 && |s| >= 4 then Got(Integer(Minus(Four(s), 0x8000_0000)), s[4..])
    else if b == 50 && |s| >= 8 then Got(Integer(Minus(Eight(s), 0x8000_0000_0000_0000)), s[8..])
    else if b == 66 && |s| >= 8 then Got(Real(s[..8]), s[8..])
    else Bad
  }

  lemma NumberReads(b: Byte, s: seq<Byte>)
    requires b % 8 == 2
    ensures Dec([b] + s) == Number(b, s)
  {
    hide UnLe, Two, Four, Eight;
    DecTag(b, s);
    if b == 10 && |s| >= 1 {
      UnLeIs(s[..1]);
    } else if b == 18 && |s| >= 2 {
      UnLeIs(s[..2]);
      Beginning(s);
    } else if b == 34 && |s| >= 4 {
      UnLeIs(s[..4]);
      Beginning(s);
    } else if b == 50 && |s| >= 8 {
      UnLeEight(s[..8]);
      Beginning(s);
    }
  }

  lemma Beginning(s: seq<Byte>)
    ensures |s| >= 2 ==> Two(s[..2]) == Two(s)
    ensures |s| >= 4 ==> Four(s[..4]) == Four(s)
    ensures |s| >= 8 ==> Eight(s[..8]) == Eight(s)
  {}

  lemma TextReads(b: Byte, s: seq<Byte>)
    requires b % 8 == 4
    ensures Dec([b] + s) == if |s| >= b / 8 then Got(Text(s[..b / 8]), s[b / 8..]) else Bad
  {
    DecTag(b, s);
  }

  lemma LongTextReads(b: Byte, s: seq<Byte>)
    requires b % 8 == 5
    ensures Dec([b] + s) ==
      if b == 21 && |s| >= 2 && |s| >= 2 + Two(s) then Got(Text(s[2..2 + Two(s)]), s[2 + Two(s)..])
      else if b == 37 && |s| >= 4 && |s| >= 4 + Four(s) then Got(Text(s[4..4 + Four(s)]), s[4 + Four(s)..])
      else Bad
  {
    hide UnLe, Two, Four, Eight;
    DecTag(b, s);
    Beginning(s);
    if b == 21 && |s| >= 2 {
      UnLeIs(s[..2]);
      Behind(s, 2, Two(s));
    } else if b == 37 && |s| >= 4 {
      UnLeIs(s[..4]);
      Behind(s, 4, Four(s));
    }
  }

  lemma Behind(s: seq<Byte>, k: nat, n: nat)
    requires k <= |s|
    ensures k + n <= |s| ==> s[k..][..n] == s[k..k + n] && s[k..][n..] == s[k + n..]
  {}

  lemma OtherReads(b: Byte, s: seq<Byte>)
    ensures Dec([]) == Bad
    ensures b % 8 == 0 ==> Dec([b] + s) == Got(Nil, s)
    ensures b % 8 == 1 ==> Dec([b] + s) == Got(Boolean(b >= 8), s)
    ensures b % 8 == 3 ==> Dec([b] + s) == if |s| >= 8 then Got(Pointer(s[..8]), s[8..]) else Bad
    ensures b % 8 == 7 ==> Dec([b] + s) == Bad
  {
    DecTag(b, s);
  }

  // Values one after the other.
  ghost predicate ListRead(s: seq<Byte>, vs: Vals, rest: seq<Byte>)
    decreases vs
  {
    match vs
    case Done => s == rest
    case More(v, others) => var d := Dec(s); d.Got? && d.value == v && ListRead(d.rest, others, rest)
  }

  // Keys and values in turn, up to a nil in the place of a key.
  ghost predicate PairsRead(s: seq<Byte>, ps: Pairs, rest: seq<Byte>)
    decreases ps
  {
    var d := Dec(s);
    match ps
    case End => d == Got(Nil, rest)
    case Entry(k, v, others) =>
      d.Got? && d.value == k && !k.Nil? &&
      var e := Dec(d.rest);
      e.Got? && e.value == v && PairsRead(e.rest, others, rest)
  }

  lemma {:induction false} ListIff(n: int, s: seq<Byte>, vs: Vals, rest: seq<Byte>)
    ensures DecVals(n, s) == Got(vs, rest) <==> Length(vs) == (if n < 0 then 0 else n) && ListRead(s, vs, rest)
    decreases vs
  {
    if n > 0 && vs.More? {
      var d := Dec(s);
      if d.Got? { ListIff(n - 1, d.rest, vs.rest, rest); }
    }
  }

  lemma {:induction false} PairsIff(s: seq<Byte>, ps: Pairs, rest: seq<Byte>)
    ensures DecPairs(s) == Got(ps, rest) <==> PairsRead(s, ps, rest)
    decreases ps
  {
    var d := Dec(s);
    if d.Got? && !d.value.Nil? && ps.Entry? {
      var e := Dec(d.rest);
      if e.Got? { PairsIff(e.rest, ps.others, rest); }
    }
  }

  // A table is read exactly when as many values as its head says follow it, and then pairs.
  lemma TableReads(b: Byte, s: seq<Byte>, v: Val, rest: seq<Byte>)
    requires b % 8 == 6 && b < 254
    ensures Dec([b] + s) == Got(v, rest) <==>
      exists mid :: v.Tbl? && Length(v.arr) == b / 8 && ListRead(s, v.arr, mid) && PairsRead(mid, v.pairs, rest)
  {
    hide Dec, ListRead, PairsRead;
    TableIs(b / 8, s, v, rest);
    TableByte(b, s);
  }

  lemma TableByte(b: Byte, s: seq<Byte>)
    requires b % 8 == 6
    ensures Dec([b] + s) ==
      var n := DecSize(b / 8, s);
      if n.Bad? then Bad else TableBody(n.value, n.rest)
  {
    DecTag(b, s);
  }

  function TableBody(n: int, s: seq<Byte>): Out<Val> {
    var a := DecVals(n, s);
    if a.Bad? then Bad
    else
      var p := DecPairs(a.rest);
      if p.Bad? then Bad else Got(Tbl(a.value, p.value), p.rest)
  }

  lemma TableIs(n: int, s: seq<Byte>, v: Val, rest: seq<Byte>)
    ensures TableBody(n, s) == Got(v, rest) <==>
      exists mid :: v.Tbl? && Length(v.arr) == (if n < 0 then 0 else n) && ListRead(s, v.arr, mid) &&
        PairsRead(mid, v.pairs, rest)
  {
    hide Dec, DecVals, DecPairs, ListRead, PairsRead;
    var a := DecVals(n, s);
    if a.Got? {
      ListIff(n, s, a.value, a.rest);
      if v.Tbl? { PairsIff(a.rest, v.pairs, rest); }
      var p := DecPairs(a.rest);
      if p.Got? { PairsIff(a.rest, p.value, p.rest); }
    }
    if v.Tbl? {
      forall mid | Length(v.arr) == (if n < 0 then 0 else n) && ListRead(s, v.arr, mid) && PairsRead(mid, v.pairs, rest)
        ensures TableBody(n, s) == Got(v, rest)
      {
        ListIff(n, s, v.arr, mid);
        PairsIff(mid, v.pairs, rest);
      }
    }
  }

  // The size of a long array part is a packed integer, of which the low 32 bits count.
  lemma LongTableReads(s: seq<Byte>, v: Val, rest: seq<Byte>)
    ensures Dec([254] + s) == Got(v, rest) <==>
      var d := Dec(s);
      d.Got? && d.value.Integer? &&
      var n := Minus(d.value.i % 0x1_0000_0000, 0x8000_0000);
      exists mid :: v.Tbl? && Length(v.arr) == (if n < 0 then 0 else n) && ListRead(d.rest, v.arr, mid) &&
        PairsRead(mid, v.pairs, rest)
  {
    hide ListRead, PairsRead, DecVals, DecPairs;
    TableByte(254, s);
    SizeReads(s);
    var d := Dec(s);
    if d.Got? && d.value.Integer? {
      TableIs(Minus(d.value.i % 0x1_0000_0000, 0x8000_0000), d.rest, v, rest);
    }
  }

  lemma SizeReads(s: seq<Byte>)
    ensures var d := Dec(s);
      DecSize(31, s) ==
        if d.Got? && d.value.Integer? then Got(Minus(d.value.i % 0x1_0000_0000, 0x8000_0000), d.rest) else Bad
  {
    hide DecVals, DecPairs;
  }
}
