/**
 * lua-seri.c: the byte format of packed Lua values, and that unpacking what was
 * packed gives the value back.
 */
module Seri {
  import opened Basics

  // A table is its array part 1..n and the pairs in the order of a traversal, which meets
  // the array part again; a table with __pairs is what that iterator yields.
  // Reals and pointers are their eight bytes.
  datatype Val =
    | Nil
    | Boolean(b: bool)
    | Integer(i: int)
    | Real(bits: seq<Byte>)
    | Pointer(address: seq<Byte>)
    | Text(s: seq<Byte>)
    | Tbl(arr: Vals, pairs: Pairs)
    | Meta(listed: Pairs)
  datatype Vals = Done | More(first: Val, rest: Vals)
  datatype Pairs = End | Entry(key: Val, value: Val, others: Pairs)

  datatype Out<T> = Bad | Got(value: T, rest: seq<Byte>)

  function Length(vs: Vals): nat { if vs.Done? then 0 else 1 + Length(vs.rest) }

  // COMBINE_TYPE
  function Tag(t: int, cookie: int): (b: Byte)
    requires 0 <= t < 8 && 0 <= cookie < 32
    ensures b % 8 == t && b / 8 == cookie
  { t + 8 * cookie }

  // k bytes of n, least significant first.
  function Le(n: int, k: nat): (s: seq<Byte>)
    ensures |s| == k
    decreases k
  { if k == 0 then [] else [n % 256] + Le(n / 256, k - 1) }

  function UnLe(s: seq<Byte>): int { if s == [] then 0 else s[0] + 256 * UnLe(s[1..]) }

  function Bound(k: nat): int { if k == 0 then 1 else 256 * Bound(k - 1) }

  lemma {:induction false} LeRoundTrip(n: int, k: nat)
    requires 0 <= n < Bound(k)
    ensures UnLe(Le(n, k)) == n
  {
    if k > 0 { LeRoundTrip(n / 256, k - 1); }
  }

  lemma Bounds()
    ensures Bound(1) == 0x100 && Bound(2) == 0x1_0000 && Bound(4) == 0x1_0000_0000 &&
            Bound(8) == 0x1_0000_0000_0000_0000
  {
    assert Bound(3) == 0x100_0000;
    assert Bound(5) == 0x100_0000_0000;
    assert Bound(6) == 0x1_0000_0000_0000;
    assert Bound(7) == 0x100_0000_0000_0000;
  }

  // Two's complement of a 32-bit or 64-bit pattern.
  function Signed4(n: int): int { if n < 0x8000_0000 then n else n - 0x1_0000_0000 }
  function Signed8(n: int): int { if n < 0x8000_0000_0000_0000 then n else n - 0x1_0000_0000_0000_0000 }

  predicate Int64(v: int) { -0x8000_0000_0000_0000 <= v < 0x8000_0000_0000_0000 }

  // wb_integer
  function EncInteger(v: int): (s: seq<Byte>)
    ensures |s| > 0
  {
    if v == 0 then [Tag(2, 0)]
    else if !(-0x8000_0000 <= v < 0x8000_0000) then [Tag(2, 6)] + Le(v % 0x1_0000_0000_0000_0000, 8)
    else if v < 0 then [Tag(2, 4)] + Le(v % 0x1_0000_0000, 4)
    else if v < 0x100 then [Tag(2, 1)] + Le(v, 1)
    else if v < 0x1_0000 then [Tag(2, 2)] + Le(v, 2)
    else [Tag(2, 4)] + Le(v, 4)
  }

  // wb_string
  function EncText(s: seq<Byte>): (r: seq<Byte>)
    ensures |r| > 0
  {
    if |s| < 32 then [Tag(4, |s|)] + s
    else if |s| < 0x1_0000 then [Tag(5, 2)] + Le(|s|, 2) + s
    else [Tag(5, 4)] + Le(|s|, 4) + s
  }

  // The head of a table: its array size, in the cookie when it is below 31.
  function EncSize(n: nat): (r: seq<Byte>)
    ensures |r| > 0
  { if n >= 31 then [Tag(6, 31)] + EncInteger(n) else [Tag(6, n)] }

  // Keys that the array part has covered are skipped.
  predicate Covered(k: Val, n: nat) { k.Integer? && 0 < k.i <= n }

  function Enc(v: Val): (r: seq<Byte>)
    ensures |r| > 0
  {
    match v
    case Nil => [Tag(0, 0)]
    case Boolean(b) => [Tag(1, if b then 1 else 0)]
    case Integer(i) => EncInteger(i)
    case Real(bits) => [Tag(2, 8)] + bits
    case Pointer(a) => [Tag(3, 0)] + a
    case Text(s) => EncText(s)
    case Tbl(arr, pairs) => EncSize(Length(arr)) + EncVals(arr) + EncPairs(pairs, Length(arr))
    case Meta(pairs) => [Tag(6, 0)] + EncPairs(pairs, 0)
  }

  function EncVals(vs: Vals): seq<Byte> {
    match vs
    case Done => []
    case More(v, rest) => Enc(v) + EncVals(rest)
  }

  function EncPairs(ps: Pairs, n: nat): (r: seq<Byte>) {
    match ps
    case End => [Tag(0, 0)]
    case Entry(k, v, rest) =>
      if Covered(k, n) then EncPairs(rest, n) else Enc(k) + Enc(v) + EncPairs(rest, n)
  }

  // rb_read
  function Read(s: seq<Byte>, sz: nat): Out<seq<Byte>> {
    if |s| < sz then Bad else Got(s[..sz], s[sz..])
  }

  // get_integer
  function DecInteger(cookie: int, s: seq<Byte>): (o: Out<int>)
    ensures o.Got? ==> |o.rest| <= |s|
  {
    if cookie == 0 then Got(0, s)
    else if cookie == 1 || cookie == 2 then
      var r := Read(s, cookie);
      if r.Bad? then Bad else Got(UnLe(r.value), r.rest)
    else if cookie == 4 then
      var r := Read(s, 4);
      if r.Bad? then Bad else Got(Signed4(UnLe(r.value)), r.rest)
    else if cookie == 6 then
      var r := Read(s, 8);
      if r.Bad? then Bad else Got(Signed8(UnLe(r.value)), r.rest)
    else Bad
  }

  function DecText(len: nat, s: seq<Byte>): (o: Out<Val>)
    ensures o.Got? ==> |o.rest| <= |s|
  {
    var r := Read(s, len);
    if r.Bad? then Bad else Got(Text(r.value), r.rest)
  }

  // The array size of a table, as a C int.
  function DecSize(cookie: int, s: seq<Byte>): (o: Out<int>)
    ensures o.Got? ==> |o.rest| <= |s|
  {
    if cookie != 31 then Got(cookie, s)
    else if s == [] || s[0] % 8 != 2 || s[0] / 8 == 8 then Bad
    else
      var r := DecInteger(s[0] / 8, s[1..]);
      if r.Bad? then Bad else Got(Signed4(r.value % 0x1_0000_0000), r.rest)
  }

  // unpack_one
  function Dec(s: seq<Byte>): (o: Out<Val>)
    ensures o.Got? ==> |o.rest| < |s|
    decreases |s|, 0
  {
    if s == [] then Bad else DecValue(s[0] % 8, s[0] / 8, s[1..])
  }

  // push_value
  function DecValue(t: int, cookie: int, s: seq<Byte>): (o: Out<Val>)
    requires 0 <= cookie < 32
    ensures o.Got? ==> |o.rest| <= |s|
    decreases |s|, 3
  {
    match t
    case 0 => Got(Nil, s)
    case 1 => Got(Boolean(cookie != 0), s)
    case 2 =>
      if cookie == 8 then
        var r := Read(s, 8);
        if r.Bad? then Bad else Got(Real(r.value), r.rest)
      else
        var r := DecInteger(cookie, s);
        if r.Bad? then Bad else Got(Integer(r.value), r.rest)
    case 3 =>
      var r := Read(s, 8);
      if r.Bad? then Bad else Got(Pointer(r.value), r.rest)
    case 4 => DecText(cookie, s)
    case 5 =>
      if cookie != 2 && cookie != 4 then Bad
      else
        var r := Read(s, cookie);
        if r.Bad? || UnLe(r.value) < 0 then Bad else DecText(UnLe(r.value), r.rest)
    case 6 =>
      var n := DecSize(cookie, s);
      if n.Bad? then Bad
      else
        var a := DecVals(n.value, n.rest);
        if a.Bad? then Bad
        else
          var p := DecPairs(a.rest);
          if p.Bad? then Bad else Got(Tbl(a.value, p.value), p.rest)
    case _ => Bad
  }

  // The array part: n values.
  function DecVals(n: int, s: seq<Byte>): (o: Out<Vals>)
    ensures o.Got? ==> |o.rest| <= |s|
    decreases |s|, 1
  {
    if n <= 0 then Got(Done, s)
    else
      var v := Dec(s);
      if v.Bad? then Bad
      else
        var r := DecVals(n - 1, v.rest);
        if r.Bad? then Bad else Got(More(v.value, r.value), r.rest)
  }

  // Pairs up to a nil key.
  function DecPairs(s: seq<Byte>): (o: Out<Pairs>)
    ensures o.Got? ==> |o.rest| <= |s|
    decreases |s|, 1
  {
    var k := Dec(s);
    if k.Bad? then Bad
    else if k.value.Nil? then Got(End, k.rest)
    else
      var v := Dec(k.rest);
      if v.Bad? then Bad
      else
        var r := DecPairs(v.rest);
        if r.Bad? then Bad else Got(Entry(k.value, v.value, r.value), r.rest)
  }

  // What a Lua value is: integers of 64 bits, strings and arrays that a C int can count,
  // no nil key.
  predicate Lua(v: Val) {
    match v
    case Integer(i) => Int64(i)
    case Real(bits) => |bits| == 8
    case Pointer(a) => |a| == 8
    case Text(s) => |s| < 0x8000_0000
    case Tbl(arr, pairs) => Length(arr) < 0x8000_0000 && LuaVals(arr) && LuaPairs(pairs)
    case Meta(pairs) => LuaPairs(pairs)
    case _ => true
  }

  predicate LuaVals(vs: Vals) { vs.More? ==> Lua(vs.first) && LuaVals(vs.rest) }

  predicate LuaPairs(ps: Pairs) {
    ps.Entry? ==> Lua(ps.key) && !ps.key.Nil? && Lua(ps.value) && LuaPairs(ps.others)
  }

  // The value as it comes back: each table with its array part and the remaining pairs.
  function Canon(v: Val): (c: Val)
    ensures c.Nil? <==> v.Nil?
  {
    match v
    case Tbl(arr, pairs) => Tbl(CanonVals(arr), CanonPairs(pairs, Length(arr)))
    case Meta(pairs) => Tbl(Done, CanonPairs(pairs, 0))
    case _ => v
  }

  function CanonVals(vs: Vals): Vals {
    if vs.Done? then Done else More(Canon(vs.first), CanonVals(vs.rest))
  }

  function CanonPairs(ps: Pairs, n: nat): Pairs {
    if ps.End? then End
    else if Covered(ps.key, n) then CanonPairs(ps.others, n)
    else Entry(Canon(ps.key), Canon(ps.value), CanonPairs(ps.others, n))
  }

  lemma ReadBack(a: seq<Byte>, t: seq<Byte>)
    ensures Read(a + t, |a|) == Got(a, t)
  {
    assert (a + t)[..|a|] == a && (a + t)[|a|..] == t;
  }

  lemma DecTag(b: Byte, s: seq<Byte>)
    ensures Dec([b] + s) == DecValue(b % 8, b / 8, s)
  {
    assert ([b] + s)[1..] == s;
  }

  lemma Assoc(a: seq<Byte>, b: seq<Byte>, c: seq<Byte>)
    ensures (a + b) + c == a + (b + c)
  {}

  // get_integer undoes wb_integer, behind the tag.
  lemma IntegerBack(v: int, tail: seq<Byte>)
    requires Int64(v)
    ensures var e := EncInteger(v);
      e[0] % 8 == 2 && e[0] / 8 != 8 && DecInteger(e[0] / 8, e[1..] + tail) == Got(v, tail)
  {
    hide Le, UnLe, Read, Bound;
    Bounds();
    var e := EncInteger(v);
    if v == 0 {
      assert e[1..] + tail == tail;
    } else if !(-0x8000_0000 <= v < 0x8000_0000) {
      PartBack(Tag(2, 6), v % 0x1_0000_0000_0000_0000, 8, tail);
    } else if v < 0 {
      PartBack(Tag(2, 4), v % 0x1_0000_0000, 4, tail);
    } else if v < 0x100 {
      PartBack(Tag(2, 1), v, 1, tail);
    } else if v < 0x1_0000 {
      PartBack(Tag(2, 2), v, 2, tail);
    } else {
      PartBack(Tag(2, 4), v, 4, tail);
    }
  }

  lemma PartBack(b: Byte, n: int, k: nat, tail: seq<Byte>)
    requires 0 <= n < Bound(k)
    ensures ([b] + Le(n, k))[0] == b && Read(([b] + Le(n, k))[1..] + tail, k) == Got(Le(n, k), tail) &&
            UnLe(Le(n, k)) == n
  {
    hide Le, UnLe, Bound;
    assert ([b] + Le(n, k))[1..] == Le(n, k);
    ReadBack(Le(n, k), tail);
    LeRoundTrip(n, k);
  }

  lemma TextBack(s: seq<Byte>, tail: seq<Byte>)
    requires |s| < 0x8000_0000
    ensures Dec(EncText(s) + tail) == Got(Text(s), tail)
  {
    hide Le, UnLe, Bound, Read, DecText;
    if |s| < 32 {
      Assoc([Tag(4, |s|)], s, tail);
      DecTag(Tag(4, |s|), s + tail);
      DecTextBack(s, tail);
    } else {
      var k := if |s| < 0x1_0000 then 2 else 4;
      LongBack(s, k, tail);
    }
  }

  lemma DecTextBack(s: seq<Byte>, tail: seq<Byte>)
    ensures DecText(|s|, s + tail) == Got(Text(s), tail)
  { ReadBack(s, tail); }

  lemma LongBack(s: seq<Byte>, k: nat, tail: seq<Byte>)
    requires (k == 2 && |s| < 0x1_0000) || (k == 4 && |s| < 0x8000_0000)
    ensures Dec([Tag(5, k)] + Le(|s|, k) + s + tail) == Got(Text(s), tail)
  {
    hide Le, UnLe, Bound, Read, DecText;
    Bounds();
    var b, n := Tag(5, k), Le(|s|, k);
    Assoc([b] + n, s, tail);
    Assoc([b], n, s + tail);
    DecTag(b, n + (s + tail));
    ReadBack(n, s + tail);
    LeRoundTrip(|s|, k);
    DecTextBack(s, tail);
  }

  lemma SizeBack(n: nat, rest: seq<Byte>)
    requires n < 0x8000_0000
    ensures EncSize(n)[0] % 8 == 6 && DecSize(EncSize(n)[0] / 8, EncSize(n)[1..] + rest) == Got(n, rest)
  {
    hide EncInteger, DecInteger;
    if n >= 31 {
      var e := EncInteger(n);
      assert EncSize(n)[1..] == e;
      IntegerBack(n, rest);
      assert (e + rest)[1..] == e[1..] + rest;
    } else {
      assert EncSize(n)[1..] + rest == rest;
    }
  }

  // Unpacking a packed value gives the value and leaves exactly the bytes behind it.
  lemma {:induction false} RoundTrip(v: Val, tail: seq<Byte>)
    requires Lua(v)
    ensures Dec(Enc(v) + tail) == Got(Canon(v), tail)
    decreases v, 1
  {
    hide EncInteger, DecInteger, EncText, EncSize, DecSize, DecText, Read, DecVals, DecPairs;
    match v
    case Nil => DecTag(Tag(0, 0), tail);
    case Boolean(b) => DecTag(Tag(1, if b then 1 else 0), tail);
    case Integer(i) => IntegerTag(i, tail);
    case Real(bits) => Eight(Tag(2, 8), bits, tail);
    case Pointer(a) => Eight(Tag(3, 0), a, tail);
    case Text(s) => TextBack(s, tail);
    case Tbl(arr, pairs) =>
      var n := Length(arr);
      var p := EncPairs(pairs, n);
      SizeTag(n, EncVals(arr) + (p + tail));
      Assoc4(EncSize(n), EncVals(arr), p, tail);
      RoundTripVals(arr, p + tail);
      RoundTripPairs(pairs, n, tail);
    case Meta(pairs) =>
      var p := EncPairs(pairs, 0);
      Assoc([Tag(6, 0)], p, tail);
      DecTag(Tag(6, 0), p + tail);
      NoSize(p + tail);
      RoundTripPairs(pairs, 0, tail);
  }

  lemma Assoc4(a: seq<Byte>, b: seq<Byte>, c: seq<Byte>, d: seq<Byte>)
    ensures a + b + c + d == a + (b + (c + d))
  {}

  lemma NoSize(s: seq<Byte>)
    ensures DecSize(0, s) == Got(0, s) && DecVals(0, s) == Got(Done, s)
  {}

  lemma IntegerTag(i: int, tail: seq<Byte>)
    requires Int64(i)
    ensures Dec(EncInteger(i) + tail) == Got(Integer(i), tail)
  {
    hide EncInteger, DecInteger;
    var e := EncInteger(i);
    assert e + tail == [e[0]] + (e[1..] + tail);
    DecTag(e[0], e[1..] + tail);
    IntegerBack(i, tail);
  }

  lemma Eight(b: Byte, x: seq<Byte>, tail: seq<Byte>)
    requires |x| == 8 && (b == Tag(2, 8) || b == Tag(3, 0))
    ensures Dec([b] + x + tail) == Got(if b == Tag(2, 8) then Real(x) else Pointer(x), tail)
  {
    hide Read;
    Assoc([b], x, tail);
    DecTag(b, x + tail);
    ReadBack(x, tail);
  }

  lemma SizeTag(n: nat, s: seq<Byte>)
    requires n < 0x8000_0000
    ensures Dec(EncSize(n) + s) ==
      var a := DecVals(n, s);
      if a.Bad? then Bad
      else
        var p := DecPairs(a.rest);
        if p.Bad? then Bad else Got(Tbl(a.value, p.value), p.rest)
  {
    hide EncSize, DecSize, DecVals, DecPairs;
    var e := EncSize(n);
    assert e + s == [e[0]] + (e[1..] + s);
    DecTag(e[0], e[1..] + s);
    SizeBack(n, s);
  }

  lemma {:induction false} RoundTripVals(vs: Vals, tail: seq<Byte>)
    requires LuaVals(vs)
    ensures DecVals(Length(vs), EncVals(vs) + tail) == Got(CanonVals(vs), tail)
    decreases vs, 1
  {
    hide Enc, Dec, Lua, Canon;
    if vs.Done? {
      assert EncVals(vs) + tail == tail;
    } else {
      Assoc(Enc(vs.first), EncVals(vs.rest), tail);
      RoundTrip(vs.first, EncVals(vs.rest) + tail);
      RoundTripVals(vs.rest, tail);
    }
  }

  lemma {:induction false} RoundTripPairs(ps: Pairs, n: nat, tail: seq<Byte>)
    requires LuaPairs(ps)
    ensures DecPairs(EncPairs(ps, n) + tail) == Got(CanonPairs(ps, n), tail)
    decreases ps, 1
  {
    hide Enc, Lua;
    if ps.End? {
      DecTag(Tag(0, 0), tail);
    } else if Covered(ps.key, n) {
      RoundTripPairs(ps.others, n, tail);
    } else {
      var p := EncPairs(ps.others, n);
      Assoc4(Enc(ps.key), Enc(ps.value), p, tail);
      RoundTrip(ps.key, Enc(ps.value) + (p + tail));
      RoundTrip(ps.value, p + tail);
      RoundTripPairs(ps.others, n, tail);
    }
  }

  // luaseri_unpack: values until the bytes end.
  function DecAll(s: seq<Byte>): Out<Vals>
    decreases |s|
  {
    if s == [] then Got(Done, [])
    else
      var v := Dec(s);
      if v.Bad? then Bad
      else
        var r := DecAll(v.rest);
        if r.Bad? then Bad else Got(More(v.value, r.value), [])
  }

  lemma {:induction false} RoundTripAll(vs: Vals)
    requires LuaVals(vs)
    ensures DecAll(EncVals(vs)) == Got(CanonVals(vs), [])
  {
    hide Enc, Dec, Lua, Canon;
    if vs.More? {
      RoundTrip(vs.first, EncVals(vs.rest));
      RoundTripAll(vs.rest);
    }
  }

  // Without pairs that repeat the array part, a value comes back as it is.
  predicate Plain(v: Val) {
    match v
    case Tbl(arr, pairs) => PlainVals(arr) && PlainPairs(pairs, Length(arr))
    case Meta(_) => false
    case _ => true
  }
  predicate PlainVals(vs: Vals) { vs.More? ==> Plain(vs.first) && PlainVals(vs.rest) }
  predicate PlainPairs(ps: Pairs, n: nat) {
    ps.Entry? ==> !Covered(ps.key, n) && Plain(ps.key) && Plain(ps.value) && PlainPairs(ps.others, n)
  }

  lemma {:induction false} PlainComesBack(v: Val)
    requires Plain(v)
    ensures Canon(v) == v
  {
    match v
    case Tbl(arr, pairs) => PlainValsBack(arr); PlainPairsBack(pairs, Length(arr));
    case _ =>
  }
  lemma {:induction false} PlainValsBack(vs: Vals)
    requires PlainVals(vs)
    ensures CanonVals(vs) == vs
  { if vs.More? { PlainComesBack(vs.first); PlainValsBack(vs.rest); } }
  lemma {:induction false} PlainPairsBack(ps: Pairs, n: nat)
    requires PlainPairs(ps, n)
    ensures CanonPairs(ps, n) == ps
  { if ps.Entry? { PlainComesBack(ps.key); PlainComesBack(ps.value); PlainPairsBack(ps.others, n); } }
}
