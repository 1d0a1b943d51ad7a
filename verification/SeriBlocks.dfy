/**
 * The writer and the reader of lua-seri.c: a list of 128-byte blocks filled by
 * pushes and flattened at the end, and a cursor over the flat bytes.
 */
module SeriBlocks {
  import opened Basics
  import opened Seri

  // How many levels below v the packer descends.
  function Deepest(v: Val): nat {
    match v
    case Tbl(arr, pairs) => Max(DeepVals(arr), DeepPairs(pairs, Length(arr)))
    case Meta(pairs) => DeepPairs(pairs, 0)
    case _ => 0
  }
  function DeepVals(vs: Vals): nat {
    if vs.Done? then 0 else Max(1 + Deepest(vs.first), DeepVals(vs.rest))
  }
  function DeepPairs(ps: Pairs, n: nat): nat {
    if ps.End? then 0
    else if Covered(ps.key, n) then DeepPairs(ps.others, n)
    else Max(1 + Max(Deepest(ps.key), Deepest(ps.value)), DeepPairs(ps.others, n))
  }
  function Max(a: nat, b: nat): nat { if a < b then b else a }

  class WriteBlock {
    // The blocks from head on; the last is the current one.
    var blocks: seq<array<Byte>>
    var len: nat
    var ptr: nat
    ghost var data: seq<Byte>

    ghost predicate Valid() reads this, blocks {
      |blocks| > 0 && ptr <= 128 && len == 128 * (|blocks| - 1) + ptr && |data| == len &&
      (forall i :: 0 <= i < |blocks| ==> blocks[i].Length == 128) &&
      (forall i, j :: 0 <= i < j < |blocks| ==> blocks[i] != blocks[j]) &&
      (forall i, o :: 0 <= i < |blocks| && 0 <= o < 128 && 128 * i + o < len ==> blocks[i][o] == data[128 * i + o])
    }

    ghost function Current(): array<Byte>
      reads this
      requires |blocks| > 0
    { blocks[|blocks| - 1] }

    // Only the current block and later ones are written.
    twostate predicate Grown() reads this {
      old(blocks) <= blocks && forall i :: |old(blocks)| <= i < |blocks| ==> fresh(blocks[i])
    }

    // wb_init
    constructor()
      ensures Valid() && data == [] && fresh(blocks)
    {
      var b := new Byte[128];
      blocks, len, ptr, data := [b], 0, 0, [];
    }

    method Copy(s: seq<Byte>)
      requires Valid() && ptr + |s| <= 128
      modifies Current()
      ensures forall j :: 0 <= j < |s| ==> Current()[ptr + j] == s[j]
      ensures forall j :: 0 <= j < ptr ==> Current()[j] == old(Current()[j])
      ensures Valid()
    {
      var b := blocks[|blocks| - 1];
      var j := 0;
      while j < |s|
        invariant 0 <= j <= |s|
        invariant forall i :: 0 <= i < j ==> b[ptr + i] == s[i]
        invariant forall i :: 0 <= i < ptr ==> b[i] == old(b[i])
        modifies b
      {
        b[ptr + j] := s[j];
        j := j + 1;
      }
    }

    method NewBlock()
      requires Valid() && ptr == 128
      modifies this
      ensures Valid() && ptr == 0 && data == old(data) && |blocks| == |old(blocks)| + 1 && Grown()
    {
      var b := new Byte[128];
      blocks := blocks + [b];
      ptr := 0;
    }

    // The bytes fit into the current block.
    method Append(s: seq<Byte>)
      requires Valid() && ptr + |s| <= 128
      modifies this`ptr, this`len, this`data, Current()
      ensures Valid() && data == old(data) + s && ptr == old(ptr) + |s|
    {
      Copy(s);
      ptr := ptr + |s|;
      len := len + |s|;
      data := data + s;
    }

    // wb_push
    method Push(s: seq<Byte>)
      requires Valid()
      modifies this, Current()
      ensures Valid() && data == old(data) + s && Grown()
    {
      var rest := s;
      if ptr == 128 { NewBlock(); }
      while ptr + |rest| > 128
        invariant Valid() && ptr < 128 && data + rest == old(data) + s && Grown()
        decreases |rest|
      {
        var copy := 128 - ptr;
        Append(rest[..copy]);
        NewBlock();
        rest := rest[copy..];
      }
      Append(rest);
    }

    // seri: the flat bytes of all blocks.
    method Flatten() returns (out: seq<Byte>)
      requires Valid()
      ensures out == data
    {
      out := [];
      var i, left := 0, len;
      while left > 0
        invariant 0 <= i <= |blocks| && 0 <= left <= len
        invariant left > 0 ==> len == left + 128 * i
        invariant out == data[..len - left]
      {
        var b := blocks[i];
        if left >= 128 {
          out := out + b[..];
          left := left - 128;
          i := i + 1;
        } else {
          out := out + b[..left];
          left := 0;
        }
      }
    }

    method PushTagged(tag: Byte, body: seq<Byte>)
      requires Valid()
      modifies this, Current()
      ensures Valid() && data == old(data) + ([tag] + body) && Grown()
    {
      hide Valid;
      Push([tag]);
      Push(body);
      Assoc(old(data), [tag], body);
    }

    // wb_integer
    method PushInteger(v: int)
      requires Valid()
      modifies this, Current()
      ensures Valid() && data == old(data) + EncInteger(v) && Grown()
    {
      hide Le, Valid;
      if v == 0 {
        Push([Tag(2, 0)]);
      } else if !(-0x8000_0000 <= v < 0x8000_0000) {
        PushTagged(Tag(2, 6), Le(v % 0x1_0000_0000_0000_0000, 8));
      } else if v < 0 {
        PushTagged(Tag(2, 4), Le(v % 0x1_0000_0000, 4));
      } else if v < 0x100 {
        PushTagged(Tag(2, 1), Le(v, 1));
      } else if v < 0x1_0000 {
        PushTagged(Tag(2, 2), Le(v, 2));
      } else {
        PushTagged(Tag(2, 4), Le(v, 4));
      }
    }

    // wb_string
    method PushText(s: seq<Byte>)
      requires Valid()
      modifies this, Current()
      ensures Valid() && data == old(data) + EncText(s) && Grown()
    {
      hide Le, Valid;
      if |s| < 32 {
        if |s| > 0 { PushTagged(Tag(4, |s|), s); } else { Push([Tag(4, 0)]); assert [Tag(4, 0)] + s == [Tag(4, 0)]; }
      } else {
        var k := if |s| < 0x1_0000 then 2 else 4;
        PushTagged(Tag(5, k), Le(|s|, k));
        Push(s);
        Assoc(old(data), [Tag(5, k)] + Le(|s|, k), s);
      }
    }

    method PushSize(n: nat)
      requires Valid()
      modifies this, Current()
      ensures Valid() && data == old(data) + EncSize(n) && Grown()
    {
      hide EncInteger, Valid;
      if n >= 31 {
        Push([Tag(6, 31)]);
        PushInteger(n);
      } else {
        Push([Tag(6, n)]);
      }
    }

    // pack_one: fails exactly when a value lies deeper than 32 levels.
    method PackOne(v: Val, depth: nat) returns (ok: bool)
      requires Valid()
      modifies this, Current()
      ensures Valid() && Grown()
      ensures ok <==> depth + Deepest(v) <= 32
      ensures ok ==> data == old(data) + Enc(v)
      decreases v, 1
    {
      hide EncInteger, EncText, EncSize, EncVals, EncPairs, DeepVals, DeepPairs, Valid;
      if depth > 32 { return false; }
      ok := true;
      match v
      case Nil => Push([Tag(0, 0)]);
      case Boolean(b) => Push([Tag(1, if b then 1 else 0)]);
      case Integer(i) => PushInteger(i);
      case Real(bits) => PushTagged(Tag(2, 8), bits);
      case Pointer(a) => PushTagged(Tag(3, 0), a);
      case Text(s) => PushText(s);
      case Tbl(arr, pairs) =>
        PushSize(Length(arr));
        ok := PackVals(arr, depth + 1);
        if ok { ok := PackPairs(pairs, Length(arr), depth + 1); }
      case Meta(pairs) =>
        Push([Tag(6, 0)]);
        ok := PackPairs(pairs, 0, depth + 1);
    }

    // pack_from
    method PackTop(vs: Vals) returns (ok: bool)
      requires Valid()
      modifies this, Current()
      ensures Valid() && Grown()
      ensures ok <==> DeepVals(vs) <= 33
      ensures ok ==> data == old(data) + EncVals(vs)
    {
      hide Enc, Deepest, Valid;
      var p := vs;
      while p.More?
        invariant Valid() && Grown()
        invariant data + EncVals(p) == old(data) + EncVals(vs) && (DeepVals(p) <= 33 <==> DeepVals(vs) <= 33)
        decreases p
      {
        Assoc(data, Enc(p.first), EncVals(p.rest));
        ok := PackOne(p.first, 0);
        if !ok { return false; }
        p := p.rest;
      }
      return true;
    }

    // The loop of wb_table_array.
    method PackVals(vs: Vals, depth: nat) returns (ok: bool)
      requires Valid() && depth >= 1 && depth <= 33
      modifies this, Current()
      ensures Valid() && Grown()
      ensures ok <==> depth - 1 + DeepVals(vs) <= 32
      ensures ok ==> data == old(data) + EncVals(vs)
      decreases vs, 1
    {
      hide Enc, Deepest, Valid;
      var p := vs;
      while p.More?
        invariant (p == vs || p < vs) && Valid() && Grown()
        invariant data + EncVals(p) == old(data) + EncVals(vs)
        invariant depth - 1 + DeepVals(p) <= 32 <==> depth - 1 + DeepVals(vs) <= 32
        decreases p
      {
        Assoc(data, Enc(p.first), EncVals(p.rest));
        ok := PackOne(p.first, depth);
        if !ok { return false; }
        p := p.rest;
      }
      return true;
    }

    // The loop of wb_table_hash, and of wb_table_metapairs with n = 0.
    method PackPairs(ps: Pairs, n: nat, depth: nat) returns (ok: bool)
      requires Valid() && depth >= 1 && depth <= 33
      modifies this, Current()
      ensures Valid() && Grown()
      ensures ok <==> depth - 1 + DeepPairs(ps, n) <= 32
      ensures ok ==> data == old(data) + EncPairs(ps, n)
      decreases ps, 1
    {
      hide Enc, Deepest, Valid;
      var p := ps;
      while p.Entry?
        invariant (p == ps || p < ps) && Valid() && Grown()
        invariant data + EncPairs(p, n) == old(data) + EncPairs(ps, n)
        invariant depth - 1 + DeepPairs(p, n) <= 32 <==> depth - 1 + DeepPairs(ps, n) <= 32
        decreases p
      {
        if !Covered(p.key, n) {
          Behind(data, Enc(p.key), Enc(p.value), EncPairs(p.others, n));
          ok := PackOne(p.key, depth);
          if !ok { return false; }
          ok := PackOne(p.value, depth);
          if !ok { return false; }
        }
        p := p.others;
      }
      Push([Tag(0, 0)]);
      return true;
    }
  }

  // The result r and the bytes left are what the specification o says.
  ghost predicate Is<T(!new)>(o: Out<T>, r: Option<T>, left: seq<Byte>) {
    if o.Bad? then r.None? else r == Some(o.value) && left == o.rest
  }

  class ReadBlock {
    const buffer: seq<Byte>
    var len: nat
    var ptr: nat

    ghost predicate Valid() reads this { ptr + len == |buffer| }

    ghost function Left(): (s: seq<Byte>)
      requires Valid()
      reads this
      ensures |s| == len
    { buffer[ptr..] }

    // rball_init
    constructor(buffer: seq<Byte>)
      ensures Valid() && Left() == buffer && this.buffer == buffer
    { this.buffer, len, ptr := buffer, |buffer|, 0; }

    // rb_read
    method Take(sz: nat) returns (r: Option<seq<Byte>>)
      requires Valid()
      modifies this
      ensures Valid() && Is(Read(old(Left()), sz), r, Left())
    {
      if len < sz { return None; }
      r := Some(buffer[ptr..ptr + sz]);
      assert old(Left())[..sz] == r.value && old(Left())[sz..] == buffer[ptr + sz..];
      ptr := ptr + sz;
      len := len - sz;
    }

    method TakeByte() returns (r: Option<Byte>)
      requires Valid()
      modifies this
      ensures Valid()
      ensures if old(Left()) == [] then r.None? else r == Some(old(Left())[0]) && Left() == old(Left())[1..]
    {
      var b := Take(1);
      if b.None? { return None; }
      r := Some(b.value[0]);
    }

    method GetInteger(cookie: int) returns (r: Option<int>)
      requires Valid()
      modifies this
      ensures Valid() && Is(DecInteger(cookie, old(Left())), r, Left())
    {
      hide UnLe, Read;
      if cookie == 0 { return Some(0); }
      if cookie != 1 && cookie != 2 && cookie != 4 && cookie != 6 { return None; }
      var b := Take(if cookie == 6 then 8 else cookie);
      if b.None? { return None; }
      var n := UnLe(b.value);
      r := Some(if cookie == 4 then Signed4(n) else if cookie == 6 then Signed8(n) else n);
    }

    method GetBuffer(sz: nat) returns (r: Option<Val>)
      requires Valid()
      modifies this
      ensures Valid() && Is(DecText(sz, old(Left())), r, Left())
    {
      hide Read;
      var b := Take(sz);
      if b.None? { return None; }
      r := Some(Text(b.value));
    }

    method GetSize(cookie: int) returns (r: Option<int>)
      requires Valid()
      modifies this
      ensures Valid() && Is(DecSize(cookie, old(Left())), r, Left())
    {
      hide DecInteger;
      if cookie != 31 { return Some(cookie); }
      var t := TakeByte();
      if t.None? || t.value % 8 != 2 || t.value / 8 == 8 { return None; }
      var n := GetInteger(t.value / 8);
      if n.None? { return None; }
      r := Some(Signed4(n.value % 0x1_0000_0000));
    }

    method UnpackOne() returns (r: Option<Val>)
      requires Valid()
      modifies this
      ensures Valid() && Is(Dec(old(Left())), r, Left())
      decreases len, 0
    {
      hide DecValue;
      var t := TakeByte();
      if t.None? { return None; }
      r := PushValue(t.value % 8, t.value / 8);
    }

    method PushValue(t: int, cookie: int) returns (r: Option<Val>)
      requires Valid() && 0 <= cookie < 32
      modifies this
      ensures Valid() && Is(DecValue(t, cookie, old(Left())), r, Left())
      decreases len, 3
    {
      hide DecInteger, DecText, DecSize, DecVals, DecPairs, Read, UnLe;
      match t
      case 0 => r := Some(Nil);
      case 1 => r := Some(Boolean(cookie != 0));
      case 2 =>
        if cookie == 8 {
          var b := Take(8);
          r := if b.None? then None else Some(Real(b.value));
        } else {
          var n := GetInteger(cookie);
          r := if n.None? then None else Some(Integer(n.value));
        }
      case 3 =>
        var b := Take(8);
        r := if b.None? then None else Some(Pointer(b.value));
      case 4 => r := GetBuffer(cookie);
      case 5 =>
        if cookie != 2 && cookie != 4 { return None; }
        var b := Take(cookie);
        if b.None? || UnLe(b.value) < 0 { return None; }
        r := GetBuffer(UnLe(b.value));
      case 6 => r := UnpackTable(cookie);
      case _ => r := None;
    }

    method UnpackTable(cookie: int) returns (r: Option<Val>)
      requires Valid() && 0 <= cookie < 32
      modifies this
      ensures Valid() && Is(DecValue(6, cookie, old(Left())), r, Left())
      decreases len, 2
    {
      hide DecSize, DecVals, DecPairs;
      var n := GetSize(cookie);
      if n.None? { return None; }
      var a := UnpackArray(n.value);
      if a.None? { return None; }
      var p := UnpackPairs();
      if p.None? { return None; }
      r := Some(Tbl(a.value, p.value));
    }

    // The loop over the array part; acc are the values set so far.
    method UnpackArray(n: int) returns (r: Option<Vals>)
      requires Valid()
      modifies this
      ensures Valid() && Is(DecVals(n, old(Left())), r, Left())
      decreases len, 1
    {
      hide Dec;
      var acc: seq<Val> := [];
      var i := 1;
      while i <= n
        invariant 1 <= i && Valid() && len <= old(len)
        invariant DecVals(n, old(Left())) == Onto(acc, DecVals(n - i + 1, Left()))
        invariant i > 1 ==> i <= n + 1
        decreases n - i
      {
        var v := UnpackOne();
        if v.None? { return None; }
        OntoSnoc(acc, v.value, DecVals(n - i, Left()));
        acc := acc + [v.value];
        i := i + 1;
      }
      r := Some(Listed(acc, Done));
    }

    // The loop over the pairs, up to a nil key.
    method UnpackPairs() returns (r: Option<Pairs>)
      requires Valid()
      modifies this
      ensures Valid() && Is(DecPairs(old(Left())), r, Left())
      decreases len, 1
    {
      hide Dec;
      var acc: seq<(Val, Val)> := [];
      while true
        invariant Valid() && len <= old(len)
        invariant DecPairs(old(Left())) == PairsOnto(acc, DecPairs(Left()))
        decreases len
      {
        ghost var s := Left();
        var k := UnpackOne();
        if k.None? { return None; }
        if k.value.Nil? { break; }
        var v := UnpackOne();
        if v.None? { return None; }
        PairsOntoSnoc(acc, k.value, v.value, DecPairs(Left()));
        acc := acc + [(k.value, v.value)];
      }
      r := Some(PairsListed(acc, End));
    }

    // luaseri_unpack, on at least one byte.
    method UnpackAll() returns (r: Option<Vals>)
      requires Valid()
      modifies this
      ensures Valid() && Is(DecAll(old(Left())), r, [])
    {
      hide DecValue;
      var acc: seq<Val> := [];
      while true
        invariant Valid()
        invariant DecAll(old(Left())) == Onto(acc, DecAll(Left()))
        decreases len
      {
        ghost var s := Left();
        var t := TakeByte();
        if t.None? { break; }
        var v := PushValue(t.value % 8, t.value / 8);
        if v.None? { return None; }
        OntoSnoc(acc, v.value, DecAll(Left()));
        acc := acc + [v.value];
      }
      r := Some(Listed(acc, Done));
    }
  }

  lemma Behind(d: seq<Byte>, a: seq<Byte>, b: seq<Byte>, c: seq<Byte>)
    ensures d + (a + b + c) == d + a + b + c
  {}

  ghost function Onto(acc: seq<Val>, o: Out<Vals>): Out<Vals> {
    if o.Bad? then Bad else Got(Listed(acc, o.value), o.rest)
  }

  function Listed(acc: seq<Val>, vs: Vals): Vals {
    if acc == [] then vs else More(acc[0], Listed(acc[1..], vs))
  }

  lemma {:induction false} ListedSnoc(acc: seq<Val>, v: Val, vs: Vals)
    ensures Listed(acc + [v], vs) == Listed(acc, More(v, vs))
  {
    if acc == [] {
      assert ([] + [v])[1..] == [];
    } else {
      assert (acc + [v])[1..] == acc[1..] + [v];
      ListedSnoc(acc[1..], v, vs);
    }
  }

  lemma OntoSnoc(acc: seq<Val>, v: Val, o: Out<Vals>)
    ensures Onto(acc + [v], o) == if o.Bad? then Bad else Onto(acc, Got(More(v, o.value), o.rest))
  { if o.Got? { ListedSnoc(acc, v, o.value); } }

  ghost function PairsOnto(acc: seq<(Val, Val)>, o: Out<Pairs>): Out<Pairs> {
    if o.Bad? then Bad else Got(PairsListed(acc, o.value), o.rest)
  }

  function PairsListed(acc: seq<(Val, Val)>, ps: Pairs): Pairs {
    if acc == [] then ps else Entry(acc[0].0, acc[0].1, PairsListed(acc[1..], ps))
  }

  lemma {:induction false} PairsListedSnoc(acc: seq<(Val, Val)>, k: Val, v: Val, ps: Pairs)
    ensures PairsListed(acc + [(k, v)], ps) == PairsListed(acc, Entry(k, v, ps))
  {
    if acc == [] {
      assert ([] + [(k, v)])[1..] == [];
    } else {
      assert (acc + [(k, v)])[1..] == acc[1..] + [(k, v)];
      PairsListedSnoc(acc[1..], k, v, ps);
    }
  }

  lemma PairsOntoSnoc(acc: seq<(Val, Val)>, k: Val, v: Val, o: Out<Pairs>)
    ensures PairsOnto(acc + [(k, v)], o) == if o.Bad? then Bad else PairsOnto(acc, Got(Entry(k, v, o.value), o.rest))
  { if o.Got? { PairsListedSnoc(acc, k, v, o.value); } }

  // luaseri_pack
  method Pack(vs: Vals) returns (r: Option<seq<Byte>>)
    ensures r.Some? <==> DeepVals(vs) <= 33
    ensures r.Some? ==> r.value == EncVals(vs)
  {
    hide Enc, WriteBlock.Valid;
    var wb := new WriteBlock();
    var ok := wb.PackTop(vs);
    if !ok { return None; }
    var out := wb.Flatten();
    r := Some(out);
  }

  // What is packed within the depth limit comes back.
  method PackUnpack(vs: Vals) returns (r: Option<Vals>)
    requires LuaVals(vs)
    ensures if DeepVals(vs) <= 33 then r == Some(CanonVals(vs)) else r.None?
  {
    var b := Pack(vs);
    if b.None? { return None; }
    var rb := new ReadBlock(b.value);
    RoundTripAll(vs);
    r := rb.UnpackAll();
  }
}
