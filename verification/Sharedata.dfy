/**
 * The string hash of lua-sharedata.c, in 32-bit arithmetic.
 */
module StringHash {
  function Step(h: bv32, c: char): bv32 { h ^ ((h << 5) + (h >> 2) + (c as int % 256) as bv32) }

  function From(str: string, l1: nat, step: nat, h: bv32): bv32
    requires step >= 1 && l1 <= |str|
    decreases l1
  { if l1 >= step then From(str, l1 - step, step, Step(h, str[l1 - 1])) else h }

  function CalcHash(str: string): (h: nat)
    ensures h < 0x1_0000_0000
  { From(str, |str|, |str| / 32 + 1, (|str| % 0x1_0000_0000) as bv32) as nat }
}

/**
 * lua-sharedata.c: a Lua table frozen into an array part and a chained hash that
 * has exactly as many slots as keys, and the lookups and traversals over it.
 */
module Sharedata {
  import opened Basics
  import StringHash

  datatype Key = Int(i: int) | Str(s: string)

  // Values are never nil in a Lua table; a nested table is a reference.
  datatype Value = Integer(d: int) | Real(n: real) | Text(s: string) | Boolean(b: bool) | Table(ref: nat)

  datatype Slot = Free | Node(key: Key, keyhash: nat, next: int, nocolliding: bool, value: Value)

  datatype Pair = Pair(key: Key, value: Value)

  predicate Distinct(src: seq<Pair>) {
    forall i, j :: 0 <= i < j < |src| ==> src[i].key != src[j].key
  }

  // Which keys go to the hash part: all but the integers 1..sizearray.
  predicate Hashed(k: Key, sizearray: nat) { !(k.Int? && 0 < k.i <= sizearray) }

  // The keys of the hash part among the first n pairs.
  function HashKeys(src: seq<Pair>, n: nat, sizearray: nat): set<Key>
    requires n <= |src|
  { set i | 0 <= i < n && Hashed(src[i].key, sizearray) :: src[i].key }

  lemma {:induction false} HashKeysStep(src: seq<Pair>, n: nat, sizearray: nat)
    requires n < |src|
    ensures HashKeys(src, n + 1, sizearray) ==
      HashKeys(src, n, sizearray) + (if Hashed(src[n].key, sizearray) then {src[n].key} else {})
  {}

  // countsize
  method CountSize(src: seq<Pair>, sizearray: nat) returns (n: nat)
    requires Distinct(src)
    ensures n == |HashKeys(src, |src|, sizearray)|
  {
    n := 0;
    var i := 0;
    while i < |src|
      invariant i <= |src| && n == |HashKeys(src, i, sizearray)|
    {
      HashKeysStep(src, i, sizearray);
      assert src[i].key !in HashKeys(src, i, sizearray);
      n := n + 1;
      if src[i].key.Int? && 0 < src[i].key.i <= sizearray { n := n - 1; }
      i := i + 1;
    }
  }

  // A set of fewer than m slots of 0..m misses one.
  lemma {:induction false} SomeFree(s: set<int>, m: nat)
    requires |s| < m && forall i :: i in s ==> 0 <= i < m
    ensures exists i :: 0 <= i < m && i !in s
  {
    if m - 1 in s {
      SomeFree(s - {m - 1}, m - 1);
      var i :| 0 <= i < m - 1 && i !in s - {m - 1};
      assert i !in s;
    } else {
      assert 0 <= m - 1 < m;
    }
  }

  function KeyHash(k: Key): (h: nat)
    ensures h < 0x1_0000_0000
  { if k.Int? then k.i % 0x1_0000_0000 else StringHash.CalcHash(k.s) }

  // The main position of a key among m slots.
  function Main(k: Key, m: nat): (p: nat)
    requires m > 0
    ensures p < m
  { KeyHash(k) % m }

  // c lists the slots of the keys with main position p, linked from p on.
  ghost predicate Chain(s: seq<Slot>, p: int, c: seq<int>) {
    |c| > 0 && c[0] == p &&
    forall j :: 0 <= j < |c| ==>
      0 <= c[j] < |s| && s[c[j]].Node? && Main(s[c[j]].key, |s|) == p && s[c[j]].next == Follows(c, j)
  }

  ghost function Follows(c: seq<int>, j: nat): int { if j + 1 < |c| then c[j + 1] else -1 }

  // Every filled slot is in the chain of its key's main position.
  ghost predicate Chained(s: seq<Slot>, chains: map<int, seq<int>>) {
    (forall p :: p in chains ==> Chain(s, p, chains[p])) &&
    (forall i :: 0 <= i < |s| && s[i].Node? ==>
      var p := Main(s[i].key, |s|);
      p in chains && i in chains[p] && s[i].keyhash == KeyHash(s[i].key) && (s[i].nocolliding ==> chains[p] == [i]))
  }

  ghost function Filled(s: seq<Slot>): set<int> { set i | 0 <= i < |s| && s[i].Node? }
  ghost function Placed(s: seq<Slot>): set<Key> { set i | 0 <= i < |s| && s[i].Node? :: s[i].key }

  // Slots hold different pairs of the source, as many as there are filled slots.
  ghost predicate Stored(s: seq<Slot>, src: seq<Pair>) {
    (forall i :: 0 <= i < |s| && s[i].Node? ==> Pair(s[i].key, s[i].value) in src) &&
    (forall i, j :: 0 <= i < j < |s| && s[i].Node? && s[j].Node? ==> s[i].key != s[j].key) &&
    |Filled(s)| == |Placed(s)|
  }

  lemma StoredPut(s: seq<Slot>, t: seq<Slot>, src: seq<Pair>, n: int, k: Key)
    requires Stored(s, src) && |s| == |t| && 0 <= n < |s| && s[n].Free? && k !in Placed(s)
    requires t[n].Node? && t[n].key == k && Pair(k, t[n].value) in src
    requires forall i :: 0 <= i < |s| && i != n ==> (t[i].Node? <==> s[i].Node?)
    requires forall i :: 0 <= i < |s| && i != n && s[i].Node? ==> t[i].key == s[i].key && t[i].value == s[i].value
    ensures Stored(t, src) && Placed(t) == Placed(s) + {k} && Filled(t) == Filled(s) + {n}
  {
    hide Filled, Placed;
    FilledPut(s, t, n);
    PlacedPut(s, t, n, k);
    KeysPlaced(s);
    forall i, j | 0 <= i < j < |t| && t[i].Node? && t[j].Node?
      ensures t[i].key != t[j].key
    {
      assert i != n ==> t[i].key == s[i].key;
      assert j != n ==> t[j].key == s[j].key;
    }
  }

  lemma KeysPlaced(s: seq<Slot>)
    ensures forall i :: 0 <= i < |s| && s[i].Node? ==> s[i].key in Placed(s)
  {}

  lemma FilledPut(s: seq<Slot>, t: seq<Slot>, n: int)
    requires |s| == |t| && 0 <= n < |s| && s[n].Free? && t[n].Node?
    requires forall i :: 0 <= i < |s| && i != n ==> (t[i].Node? <==> s[i].Node?)
    ensures Filled(t) == Filled(s) + {n} && n !in Filled(s)
  {}

  lemma PlacedPut(s: seq<Slot>, t: seq<Slot>, n: int, k: Key)
    requires |s| == |t| && 0 <= n < |s| && s[n].Free? && t[n].Node? && t[n].key == k
    requires forall i :: 0 <= i < |s| && i != n ==> (t[i].Node? <==> s[i].Node?)
    requires forall i :: 0 <= i < |s| && i != n && s[i].Node? ==> t[i].key == s[i].key
    ensures Placed(t) == Placed(s) + {k}
  {
    forall x | x in Placed(s)
      ensures x in Placed(t)
    {
      var i :| 0 <= i < |s| && s[i].Node? && s[i].key == x;
      assert t[i].key == x;
    }
    assert t[n].key in Placed(t);
    forall x | x in Placed(t)
      ensures x in Placed(s) + {k}
    {
      var i :| 0 <= i < |t| && t[i].Node? && t[i].key == x;
    }
  }

  // A chain does not notice changes to free slots and to slots of other chains.
  lemma ChainKept(s: seq<Slot>, t: seq<Slot>, q: int, c: seq<int>)
    requires Chain(s, q, c) && |s| == |t|
    requires forall i :: 0 <= i < |s| && s[i].Node? && Main(s[i].key, |s|) == q ==> t[i] == s[i]
    ensures Chain(t, q, c)
  {
    hide Main, Follows;
    assert forall j :: 0 <= j < |c| ==> t[c[j]] == s[c[j]];
  }

  // First pass: the key takes its free main position.
  lemma ChainFirst(s: seq<Slot>, chains: map<int, seq<int>>, k: Key, v: Value)
    requires |s| > 0 && Chained(s, chains) && s[Main(k, |s|)].Free?
    ensures var p := Main(k, |s|);
      Chained(s[p := Node(k, KeyHash(k), -1, true, v)], chains[p := [p]]) && p !in chains
  {
    hide Main, KeyHash;
    var p := Main(k, |s|);
    var t := s[p := Node(k, KeyHash(k), -1, true, v)];
    assert Chain(t, p, [p]);
    forall q | q in chains
      ensures Chain(t, q, chains[q])
    { ChainKept(s, t, q, chains[q]); }
  }

  // Second pass: the key goes to a free slot n, linked behind its main position.
  ghost function Linked(s: seq<Slot>, n: int, k: Key, v: Value): seq<Slot>
    requires 0 <= n < |s| && s[Main(k, |s|)].Node? && s[n].Free?
  {
    var p := Main(k, |s|);
    s[n := Node(k, KeyHash(k), s[p].next, false, v)][p := s[p].(next := n, nocolliding := false)]
  }

  lemma ChainSecond(s: seq<Slot>, chains: map<int, seq<int>>, n: int, k: Key, v: Value)
    requires |s| > 0 && Chained(s, chains) && Main(k, |s|) in chains && 0 <= n < |s| && s[n].Free?
    ensures s[Main(k, |s|)].Node?
    ensures var p := Main(k, |s|); Chained(Linked(s, n, k, v), chains[p := [p, n] + chains[p][1..]])
  {
    hide Main, KeyHash, Chain;
    var p := Main(k, |s|);
    var c := chains[p];
    FirstIs(s, p, c);
    var t, d := Linked(s, n, k, v), [p, n] + c[1..];
    SecondChain(s, p, c, n, k, v);
    forall q | q in chains && q != p
      ensures Chain(t, q, chains[q])
    { ChainKept(s, t, q, chains[q]); }
    var chains' := chains[p := d];
    forall i | 0 <= i < |t| && t[i].Node?
      ensures var q := Main(t[i].key, |t|);
        q in chains' && i in chains'[q] && t[i].keyhash == KeyHash(t[i].key) && (t[i].nocolliding ==> chains'[q] == [i])
    {
      if i == n {
        assert d[1] == n;
      } else if i == p {
        assert d[0] == p;
      } else {
        assert i in chains[Main(s[i].key, |s|)];
        if Main(s[i].key, |s|) == p { InTail(c, p, n, i); }
      }
    }
  }

  lemma FirstIs(s: seq<Slot>, p: int, c: seq<int>)
    requires Chain(s, p, c)
    ensures |c| > 0 && c[0] == p && 0 <= p < |s| && s[p].Node? && Main(s[p].key, |s|) == p
  {}

  lemma InTail(c: seq<int>, p: int, n: int, i: int)
    requires |c| > 0 && c[0] == p && i in c && i != p
    ensures i in [p, n] + c[1..]
  {
    var j :| 0 <= j < |c| && c[j] == i;
    assert ([p, n] + c[1..])[j + 1] == i;
  }

  lemma SecondChain(s: seq<Slot>, p: int, c: seq<int>, n: int, k: Key, v: Value)
    requires |s| > 0 && p == Main(k, |s|) && Chain(s, p, c) && 0 <= n < |s| && s[n].Free?
    ensures Chain(Linked(s, n, k, v), p, [p, n] + c[1..])
  {
    hide Main, KeyHash;
    var t, d := Linked(s, n, k, v), [p, n] + c[1..];
    forall j | 0 <= j < |d|
      ensures 0 <= d[j] < |t| && t[d[j]].Node? && Main(t[d[j]].key, |t|) == p && t[d[j]].next == Follows(d, j)
    {
      assert j >= 1 && j + 1 < |d| ==> d[j + 1] == c[j];
      assert s[c[0]].next == Follows(c, 0);
      if j >= 2 {
        assert d[j] == c[j - 1];
        NoRepeat(s, p, c, j - 1);
      }
    }
    assert Chain(t, p, d);
  }

  // A chain does not come back to its first slot.
  lemma {:induction false} NoRepeat(s: seq<Slot>, p: int, c: seq<int>, j: int)
    requires Chain(s, p, c) && 0 < j < |c|
    ensures c[j] != p
  {
    if c[j] == p {
      var i := |c| - 1 - j;
      Shifted(s, p, c, j, i);
    }
  }

  lemma {:induction false} Shifted(s: seq<Slot>, p: int, c: seq<int>, j: int, i: nat)
    requires Chain(s, p, c) && 0 < j < |c| && c[j] == p && j + i < |c|
    ensures c[i] == c[j + i]
  {
    hide Main, KeyHash;
    if i > 0 { Shifted(s, p, c, j, i - 1); }
  }

  // What a source table holds under a key.
  function Find(src: seq<Pair>, k: Key): Option<Value> {
    if src == [] then None else if src[0].key == k then Some(src[0].value) else Find(src[1..], k)
  }

  lemma {:induction false} FindIs(src: seq<Pair>, k: Key, v: Value)
    requires Distinct(src)
    ensures Find(src, k) == Some(v) <==> Pair(k, v) in src
    ensures Find(src, k) == None ==> forall p :: p in src ==> p.key != k
  {
    if src != [] { FindIs(src[1..], k, v); }
  }

  // After n pairs of the first pass: filled slots are main positions of their keys,
  // and every key seen has its main position filled.
  ghost predicate Pass1(s: seq<Slot>, chains: map<int, seq<int>>, src: seq<Pair>, n: nat, sizearray: nat) {
    n <= |src| && |s| > 0 && Chained(s, chains) && Stored(s, src) && Placed(s) <= HashKeys(src, n, sizearray) &&
    (forall i :: 0 <= i < |s| && s[i].Node? ==> Main(s[i].key, |s|) == i) &&
    (forall j :: 0 <= j < n && Hashed(src[j].key, sizearray) ==> Main(src[j].key, |s|) in chains)
  }

  // After n pairs of the second pass: their keys are all placed; only keys seen are away
  // from their main position.
  ghost predicate Pass2(s: seq<Slot>, chains: map<int, seq<int>>, src: seq<Pair>, n: nat, sizearray: nat) {
    n <= |src| && |s| > 0 && Chained(s, chains) && Stored(s, src) &&
    HashKeys(src, n, sizearray) <= Placed(s) <= HashKeys(src, |src|, sizearray) &&
    (forall i :: 0 <= i < |s| && s[i].Node? && Main(s[i].key, |s|) != i ==> s[i].key in HashKeys(src, n, sizearray)) &&
    (forall j :: 0 <= j < |src| && Hashed(src[j].key, sizearray) ==> Main(src[j].key, |s|) in chains)
  }

  lemma NotYet(src: seq<Pair>, n: nat, sizearray: nat)
    requires n < |src| && Distinct(src)
    ensures src[n].key !in HashKeys(src, n, sizearray)
  {}

  lemma InHashKeys(src: seq<Pair>, n: nat, sizearray: nat)
    requires n < |src| && Hashed(src[n].key, sizearray)
    ensures src[n].key in HashKeys(src, |src|, sizearray)
  {}

  lemma Pass1Skip(s: seq<Slot>, chains: map<int, seq<int>>, src: seq<Pair>, n: nat, sizearray: nat)
    requires Pass1(s, chains, src, n, sizearray) && n < |src|
    requires Hashed(src[n].key, sizearray) ==> s[Main(src[n].key, |s|)].Node?
    ensures Pass1(s, chains, src, n + 1, sizearray)
  {
    hide Main, Stored, Placed, HashKeys;
    HashKeysStep(src, n, sizearray);
  }

  lemma Pass1Put(s: seq<Slot>, chains: map<int, seq<int>>, src: seq<Pair>, n: nat, sizearray: nat)
    requires Pass1(s, chains, src, n, sizearray) && n < |src| && Distinct(src)
    requires Hashed(src[n].key, sizearray) && s[Main(src[n].key, |s|)].Free?
    ensures var k := src[n].key; var p := Main(k, |s|);
      Pass1(s[p := Node(k, KeyHash(k), -1, true, src[n].value)], chains[p := [p]], src, n + 1, sizearray)
  {
    hide Main, KeyHash, Stored, Placed, HashKeys, Chained;
    var k := src[n].key;
    var p := Main(k, |s|);
    HashKeysStep(src, n, sizearray);
    NotYet(src, n, sizearray);
    ChainFirst(s, chains, k, src[n].value);
    var t := s[p := Node(k, KeyHash(k), -1, true, src[n].value)];
    assert src[n] == Pair(k, src[n].value);
    StoredPut(s, t, src, p, k);
  }

  lemma Pass2Start(s: seq<Slot>, chains: map<int, seq<int>>, src: seq<Pair>, sizearray: nat)
    requires Pass1(s, chains, src, |src|, sizearray)
    ensures Pass2(s, chains, src, 0, sizearray)
  {}

  // The key is at its main position already.
  lemma Pass2Skip(s: seq<Slot>, chains: map<int, seq<int>>, src: seq<Pair>, n: nat, sizearray: nat)
    requires Pass2(s, chains, src, n, sizearray) && n < |src|
    requires Hashed(src[n].key, sizearray) ==>
      var m := s[Main(src[n].key, |s|)]; m.Node? && m.key == src[n].key
    ensures Pass2(s, chains, src, n + 1, sizearray)
  {
    hide Main, Stored, HashKeys, Chained;
    HashKeysStep(src, n, sizearray);
  }

  lemma Pass2Put(s: seq<Slot>, chains: map<int, seq<int>>, src: seq<Pair>, n: nat, sizearray: nat, slot: int)
    requires Pass2(s, chains, src, n, sizearray) && n < |src| && Distinct(src) && Hashed(src[n].key, sizearray)
    requires 0 <= slot < |s| && s[slot].Free?
    requires s[Main(src[n].key, |s|)].Node? && s[Main(src[n].key, |s|)].key != src[n].key
    ensures var k := src[n].key; var p := Main(k, |s|);
      p in chains && |chains[p]| > 0 &&
      Pass2(Linked(s, slot, k, src[n].value), chains[p := [p, slot] + chains[p][1..]], src, n + 1, sizearray)
  {
    hide Main, KeyHash, Stored, HashKeys, Chained;
    var k, v := src[n].key, src[n].value;
    var p := Main(k, |s|);
    HashKeysStep(src, n, sizearray);
    NotYet(src, n, sizearray);
    InHashKeys(src, n, sizearray);
    NotPlaced(s, chains, src, n, sizearray);
    ChainSecond(s, chains, slot, k, v);
    ChainHead(s, chains, p);
    assert src[n] == Pair(k, v);
    StoredPut(s, Linked(s, slot, k, v), src, slot, k);
  }

  lemma ChainHead(s: seq<Slot>, chains: map<int, seq<int>>, p: int)
    requires Chained(s, chains) && p in chains
    ensures |chains[p]| > 0 && 0 <= p < |s| && s[p].Node? && chains[p][0] == p && Main(s[p].key, |s|) == p
  { FirstIs(s, p, chains[p]); }

  lemma NotPlaced(s: seq<Slot>, chains: map<int, seq<int>>, src: seq<Pair>, n: nat, sizearray: nat)
    requires Pass2(s, chains, src, n, sizearray) && n < |src| && Distinct(src)
    requires s[Main(src[n].key, |s|)].Node? && s[Main(src[n].key, |s|)].key != src[n].key
    ensures src[n].key !in Placed(s)
  {
    hide Main, Chained, Stored, HashKeys;
    NotYet(src, n, sizearray);
  }

  // A key still to be placed: some slot is free.
  lemma FreeSlot(s: seq<Slot>, chains: map<int, seq<int>>, src: seq<Pair>, n: nat, sizearray: nat)
    requires Pass2(s, chains, src, n, sizearray) && n < |src| && Distinct(src) && Hashed(src[n].key, sizearray)
    requires s[Main(src[n].key, |s|)].Node? && s[Main(src[n].key, |s|)].key != src[n].key
    requires |s| == |HashKeys(src, |src|, sizearray)|
    ensures exists i :: 0 <= i < |s| && s[i].Free?
  {
    hide Main, Chained, HashKeys;
    NotPlaced(s, chains, src, n, sizearray);
    InHashKeys(src, n, sizearray);
    var all := HashKeys(src, |src|, sizearray);
    Smaller(Placed(s), all, src[n].key);
    SomeFree(Filled(s), |s|);
    var i :| 0 <= i < |s| && i !in Filled(s);
    assert s[i].Free?;
  }

  lemma Smaller<T>(a: set<T>, b: set<T>, x: T)
    requires a <= b && x in b && x !in a
    ensures |a| < |b|
  {
    assert a <= b - {x};
    Fewer(a, b - {x});
  }

  lemma {:induction false} Fewer<T>(a: set<T>, b: set<T>)
    requires a <= b
    ensures |a| <= |b|
  {
    if a != {} {
      var x :| x in a;
      Fewer(a - {x}, b - {x});
    }
  }

  // The keys of the array part from index i on, and of the hash part from slot i on.
  ghost function ArrayKeys(a: seq<Option<Value>>, i: nat): seq<Key>
    decreases |a| - i
  {
    if i >= |a| then [] else (if a[i].Some? then [Int(i + 1)] else []) + ArrayKeys(a, i + 1)
  }

  ghost function SlotKeys(s: seq<Slot>, i: nat): seq<Key>
    requires forall j :: 0 <= j < |s| ==> s[j].Node?
    decreases |s| - i
  {
    if i >= |s| then [] else [s[i].key] + SlotKeys(s, i + 1)
  }

  function Head(s: seq<Key>): Option<Key> { if s == [] then None else Some(s[0]) }

  class Conf {
    const sizearray: nat
    const sizehash: nat
    const arr: array<Option<Value>>
    const hash: array<Slot>
    ghost var chains: map<int, seq<int>>

    ghost predicate Sized(src: seq<Pair>) {
      arr.Length == sizearray && hash.Length == sizehash && Distinct(src) &&
      sizehash == |HashKeys(src, |src|, sizearray)|
    }

    // The table is src, frozen.
    ghost predicate Valid(src: seq<Pair>) reads this, arr, hash {
      Sized(src) &&
      (forall i :: 0 <= i < sizehash ==> hash[i].Node?) &&
      (forall i :: 0 <= i < sizearray ==> arr[i] == Find(src, Int(i + 1))) &&
      (sizehash > 0 ==> Pass2(hash[..], chains, src, |src|, sizearray))
    }

    method FillNoColliding(src: seq<Pair>)
      requires Sized(src) && sizehash > 0
      requires (forall i :: 0 <= i < sizehash ==> hash[i].Free?) && (forall i :: 0 <= i < sizearray ==> arr[i].None?)
      modifies this`chains, arr, hash
      ensures Pass1(hash[..], chains, src, |src|, sizearray)
      ensures forall i :: 0 <= i < sizearray ==> arr[i] == Find(src, Int(i + 1))
    {
      hide Pass1, Find, HashKeys;
      chains := map[];
      Pass1Empty(hash[..], src);
      var n := 0;
      while n < |src|
        invariant n <= |src| && Pass1(hash[..], chains, src, n, sizearray)
        invariant forall i :: 0 <= i < sizearray && arr[i].Some? ==> arr[i] == Find(src, Int(i + 1))
        invariant forall j :: 0 <= j < n && !Hashed(src[j].key, sizearray) ==> arr[src[j].key.i - 1].Some?
      {
        var k, v := src[n].key, src[n].value;
        if k.Int? && 0 < k.i <= sizearray {
          FindIs(src, k, v);
          Pass1Skip(hash[..], chains, src, n, sizearray);
          arr[k.i - 1] := Some(v);
        } else {
          var p := Main(k, sizehash);
          if hash[p].Free? {
            Pass1Put(hash[..], chains, src, n, sizearray);
            ghost var t := hash[..][p := Node(k, KeyHash(k), -1, true, v)];
            hash[p] := Node(k, KeyHash(k), -1, true, v);
            assert hash[..] == t;
            chains := chains[p := [p]];
          } else {
            Pass1Skip(hash[..], chains, src, n, sizearray);
          }
        }
        n := n + 1;
      }
      ArrayDone(src, arr[..]);
    }

    lemma Pass1Empty(s: seq<Slot>, src: seq<Pair>)
      requires |s| > 0 && forall i :: 0 <= i < |s| ==> s[i].Free?
      ensures Pass1(s, map[], src, 0, sizearray)
    {
      assert Filled(s) == {} && Placed(s) == {};
    }

    lemma ArrayDone(src: seq<Pair>, a: seq<Option<Value>>)
      requires Distinct(src) && |a| == sizearray
      requires forall i :: 0 <= i < sizearray && a[i].Some? ==> a[i] == Find(src, Int(i + 1))
      requires forall j :: 0 <= j < |src| && !Hashed(src[j].key, sizearray) ==> a[src[j].key.i - 1].Some?
      ensures forall i :: 0 <= i < sizearray ==> a[i] == Find(src, Int(i + 1))
    {
      forall i | 0 <= i < sizearray && a[i].None?
        ensures Find(src, Int(i + 1)) == None
      {
        if Find(src, Int(i + 1)).Some? {
          FindIs(src, Int(i + 1), Find(src, Int(i + 1)).value);
        }
      }
    }

    method FillColliding(src: seq<Pair>)
      requires Sized(src) && sizehash > 0 && Pass1(hash[..], chains, src, |src|, sizearray)
      modifies this`chains, hash
      ensures Pass2(hash[..], chains, src, |src|, sizearray)
    {
      hide Pass1, Pass2, Find, HashKeys;
      Pass2Start(hash[..], chains, src, sizearray);
      var emptyslot, n := 0, 0;
      while n < |src|
        invariant n <= |src| && 0 <= emptyslot <= sizehash && Pass2(hash[..], chains, src, n, sizearray)
        invariant forall i :: 0 <= i < emptyslot ==> hash[i].Node?
      {
        var k := src[n].key;
        if Hashed(k, sizearray) {
          var p := Main(k, sizehash);
          MainFilled(hash[..], chains, src, n);
          if hash[p].key != k {
            emptyslot := Collide(src, n, emptyslot);
          } else {
            Pass2Skip(hash[..], chains, src, n, sizearray);
          }
        } else {
          Pass2Skip(hash[..], chains, src, n, sizearray);
        }
        n := n + 1;
      }
    }

    lemma MainFilled(s: seq<Slot>, chains: map<int, seq<int>>, src: seq<Pair>, n: nat)
      requires Pass2(s, chains, src, n, sizearray) && n < |src| && Hashed(src[n].key, sizearray)
      ensures s[Main(src[n].key, |s|)].Node?
    { ChainHead(s, chains, Main(src[n].key, |s|)); }

    // A key away from its main position takes the next free slot; there is one.
    method Collide(src: seq<Pair>, n: nat, emptyslot0: nat) returns (emptyslot: nat)
      requires Sized(src) && sizehash > 0 && n < |src| && Pass2(hash[..], chains, src, n, sizearray)
      requires Hashed(src[n].key, sizearray) && emptyslot0 <= sizehash
      requires hash[Main(src[n].key, sizehash)].Node? && hash[Main(src[n].key, sizehash)].key != src[n].key
      requires forall i :: 0 <= i < emptyslot0 ==> hash[i].Node?
      modifies this`chains, hash
      ensures Pass2(hash[..], chains, src, n + 1, sizearray)
      ensures emptyslot <= sizehash && forall i :: 0 <= i < emptyslot ==> hash[i].Node?
    {
      hide Pass2, HashKeys;
      var k, v := src[n].key, src[n].value;
      var p := Main(k, sizehash);
      FreeSlot(hash[..], chains, src, n, sizearray);
      ghost var witness0 :| 0 <= witness0 < |hash[..]| && hash[..][witness0].Free?;
      var i := emptyslot0;
      while i < sizehash && !hash[i].Free?
        invariant emptyslot0 <= i <= sizehash && forall j :: 0 <= j < i ==> hash[j].Node?
      {
        i := i + 1;
      }
      assert i < sizehash;
      emptyslot := i + 1;
      Pass2Put(hash[..], chains, src, n, sizearray, i);
      ghost var t := Linked(hash[..], i, k, v);
      hash[i] := Node(k, KeyHash(k), hash[p].next, false, v);
      hash[p] := hash[p].(next := i, nocolliding := false);
      assert hash[..] == t;
      chains := chains[p := [p, i] + chains[p][1..]];
    }

    // convtable: sizearray0 is the length of the array part.
    constructor(src: seq<Pair>, sizearray0: nat)
      requires Distinct(src)
      ensures Valid(src) && sizearray == sizearray0 && fresh(arr) && fresh(hash)
    {
      sizearray := sizearray0;
      arr := new Option<Value>[sizearray0](_ => None);
      var m := CountSize(src, sizearray0);
      sizehash := m;
      hash := new Slot[m](_ => Free);
      chains := map[];
      new;
      if sizehash != 0 {
        FillNoColliding(src);
        FillColliding(src);
        AllFilled(hash[..], chains, src);
      } else {
        var i := 1;
        while i <= sizearray
          invariant 1 <= i <= sizearray + 1
          invariant forall j :: 0 <= j < i - 1 ==> arr[j] == Find(src, Int(j + 1))
        {
          arr[i - 1] := Find(src, Int(i));
          i := i + 1;
        }
      }
    }

    lemma AllFilled(s: seq<Slot>, chains: map<int, seq<int>>, src: seq<Pair>)
      requires Pass2(s, chains, src, |src|, sizearray) && |s| == |HashKeys(src, |src|, sizearray)|
      ensures forall i :: 0 <= i < |s| ==> s[i].Node?
    {
      hide Chained, HashKeys, Main;
      assert Placed(s) == HashKeys(src, |src|, sizearray);
      if i :| 0 <= i < |s| && s[i].Free? {
        AtMost(Filled(s) + {i}, |s|);
      }
    }

    lemma Home(src: seq<Pair>, i: int)
      requires Valid(src) && 0 <= i < sizehash
      ensures var p := Main(hash[i].key, sizehash);
        p in chains && i in chains[p] && Chain(hash[..], p, chains[p]) &&
        hash[i].keyhash == KeyHash(hash[i].key) && (hash[i].nocolliding ==> chains[p] == [i])
    { assert hash[..][i] == hash[i]; }

    // Where a stored key lies: in the chain of its main position, which begins there.
    lemma HomeOf(src: seq<Pair>, k: Key, i: int)
      requires Valid(src) && 0 <= i < sizehash && hash[i].key == k
      ensures var p := Main(k, sizehash);
        p in chains && i in chains[p] && Main(hash[p].key, sizehash) == p && Chain(hash[..], p, chains[p])
    {
      Home(src, i);
      ChainHead(hash[..], chains, Main(k, sizehash));
    }

    // The slot of a key, or -1.
    method LookupKey(k: Key, ghost src: seq<Pair>) returns (r: int)
      requires Valid(src)
      ensures r == -1 || (0 <= r < sizehash && hash[r].key == k)
      ensures r == -1 ==> forall i :: 0 <= i < sizehash ==> hash[i].key != k
    {
      hide Valid, Main, KeyHash, Chain;
      SameSizes(src);
      if sizehash == 0 { return -1; }
      var n := Main(k, sizehash);
      Home(src, n);
      ghost var p := Main(hash[n].key, sizehash);
      ghost var c := chains[p];
      ghost var j := Index(c, n);
      if KeyHash(k) != hash[n].keyhash && hash[n].nocolliding {
        NotElsewhere(src, k, n);
        return -1;
      }
      StartsHere(src, k, n, j);
      while true
        invariant 0 <= j < |c| && n == c[j] && 0 <= n < sizehash && p in chains && c == chains[p]
        invariant forall i :: 0 <= i < sizehash && hash[i].key == k ==> i in c[j..]
        decreases |c| - j
      {
        Home(src, n);
        if KeyHash(k) == hash[n].keyhash && hash[n].key == k { return n; }
        Walk(src, p, j);
        Tail(c, j, n);
        if hash[n].next < 0 {
          return -1;
        }
        n := hash[n].next;
        j := j + 1;
      }
    }

    lemma SameSizes(src: seq<Pair>)
      requires Valid(src)
      ensures hash.Length == sizehash && arr.Length == sizearray && forall i :: 0 <= i < sizehash ==> hash[i].Node?
    {}

    // One link of a chain.
    lemma Walk(src: seq<Pair>, p: int, j: int)
      requires Valid(src) && p in chains && 0 <= j < |chains[p]| && sizehash > 0
      ensures 0 <= chains[p][j] < sizehash && hash[chains[p][j]].next == Follows(chains[p], j)
      ensures j + 1 < |chains[p]| ==> 0 <= chains[p][j + 1] < sizehash
    { assert Chain(hash[..], p, chains[p]); }

    lemma Tail(c: seq<int>, j: nat, n: int)
      requires j < |c| && n == c[j]
      ensures forall i :: i in c[j..] ==> i == n || i in c[j + 1..]
      ensures j + 1 == |c| ==> c[j + 1..] == []
    {
      assert c[j..] == [c[j]] + c[j + 1..];
    }

    lemma NotElsewhere(src: seq<Pair>, k: Key, n: int)
      requires Valid(src) && sizehash > 0 && n == Main(k, sizehash) && KeyHash(k) != hash[n].keyhash &&
               hash[n].nocolliding
      ensures forall i :: 0 <= i < sizehash ==> hash[i].key != k
    {
      hide Chain, Chained, Pass2;
      forall i | 0 <= i < sizehash
        ensures hash[i].key != k
      {
        if hash[i].key == k {
          HomeOf(src, k, i);
          Home(src, n);
        }
      }
    }

    // If k is stored at all, it is in the chain that the search enters, at its beginning.
    lemma StartsHere(src: seq<Pair>, k: Key, n: int, j: int)
      requires Valid(src) && sizehash > 0 && n == Main(k, sizehash)
      requires var p := Main(hash[n].key, sizehash); p in chains && 0 <= j < |chains[p]| && chains[p][j] == n
      ensures forall i :: 0 <= i < sizehash && hash[i].key == k ==> i in chains[Main(hash[n].key, sizehash)][j..]
    {
      hide Chain, Chained, Pass2, Main, KeyHash;
      var p := Main(hash[n].key, sizehash);
      forall i | 0 <= i < sizehash && hash[i].key == k
        ensures i in chains[p][j..]
      {
        HomeOf(src, k, i);
        if j > 0 { NoRepeat(hash[..], p, chains[p], j); }
        assert chains[p][0..] == chains[p];
      }
    }

    // What the source holds under k: the hash part has it or nobody has.
    lemma HashFind(src: seq<Pair>, k: Key, r: int)
      requires Valid(src) && Hashed(k, sizearray)
      requires r == -1 || (0 <= r < sizehash && hash[r].key == k)
      requires r == -1 ==> forall i :: 0 <= i < sizehash ==> hash[i].key != k
      ensures Find(src, k) == if r == -1 then None else Some(hash[r].value)
    {
      hide Chained, Find, Main;
      if r != -1 {
        assert hash[..][r] == hash[r];
        FindIs(src, k, hash[r].value);
      } else if Find(src, k).Some? {
        FindIs(src, k, Find(src, k).value);
        var n :| 0 <= n < |src| && src[n] == Pair(k, Find(src, k).value);
        InHashKeys(src, n, sizearray);
        Stored1(src, k);
      }
    }

    lemma Stored1(src: seq<Pair>, k: Key)
      requires Valid(src) && k in HashKeys(src, |src|, sizearray)
      ensures exists i :: 0 <= i < sizehash && hash[i].key == k
    {
      hide Chained, Find, Main, HashKeys;
      if sizehash > 0 {
        var i :| 0 <= i < |hash[..]| && hash[..][i].Node? && hash[..][i].key == k;
        assert hash[i].key == k;
      }
    }

    // lindexconf
    method Get(k: Key, ghost src: seq<Pair>) returns (r: Option<Value>)
      requires Valid(src)
      ensures r == Find(src, k)
    {
      hide Find, Pass2, HashKeys;
      if k.Int? && 0 < k.i <= sizearray { return arr[k.i - 1]; }
      var n := LookupKey(k, src);
      HashFind(src, k, n);
      r := if n >= 0 then Some(hash[n].value) else None;
    }

    // All keys in the order of a traversal.
    ghost function Listing(src: seq<Pair>): seq<Key>
      requires Valid(src)
      reads this, arr, hash
    { ArrayKeys(arr[..], 0) + SlotKeys(hash[..], 0) }

    // What a traversal has still to list behind k.
    ghost predicate Behind(src: seq<Pair>, k: Key, rest: seq<Key>)
      requires Valid(src)
      reads this, arr, hash
    {
      (k.Int? && 0 < k.i <= sizearray && arr[k.i - 1].Some? &&
        rest == ArrayKeys(arr[..], k.i) + SlotKeys(hash[..], 0)) ||
      (Hashed(k, sizearray) && exists i :: 0 <= i < sizehash && hash[i].key == k && rest == SlotKeys(hash[..], i + 1))
    }

    method FirstHash(ghost src: seq<Pair>) returns (r: Option<Key>)
      requires Valid(src)
      ensures r == Head(SlotKeys(hash[..], 0))
    { if sizehash != 0 { r := Some(hash[0].key); } else { r := None; } }

    // The first array key from index i on, else the first key of the hash part.
    method FromArray(i0: nat, ghost src: seq<Pair>) returns (r: Option<Key>)
      requires Valid(src)
      ensures r == Head(ArrayKeys(arr[..], i0) + SlotKeys(hash[..], 0))
    {
      hide Pass2, HashKeys, Find;
      var i := i0;
      while i < sizearray
        invariant i0 <= i && ArrayKeys(arr[..], i) == ArrayKeys(arr[..], i0)
        decreases sizearray - i
      {
        if arr[i] != None { return Some(Int(i + 1)); }
        i := i + 1;
      }
      r := FirstHash(src);
    }

    // lnextkey
    method NextKey(k: Option<Key>, ghost src: seq<Pair>) returns (r: Option<Key>)
      requires Valid(src)
      ensures k.None? ==> r == Head(Listing(src))
      ensures k.Some? ==> forall rest :: Behind(src, k.value, rest) ==> r == Head(rest)
      ensures k.Some? && Find(src, k.value).None? && Hashed(k.value, sizearray) ==> r == None
    {
      hide Pass2, HashKeys, Find, ArrayKeys;
      if k.None? {
        r := FromArray(0, src);
      } else if k.value.Int? && 0 < k.value.i <= sizearray {
        r := FromArray(k.value.i, src);
      } else {
        var n := LookupKey(k.value, src);
        HashFind(src, k.value, n);
        if n < 0 || n + 1 == sizehash { r := None; } else { r := Some(hash[n + 1].key); }
        OneSlot(src);
      }
    }

    lemma OneSlot(src: seq<Pair>)
      requires Valid(src)
      ensures forall i, j :: 0 <= i < j < sizehash ==> hash[i].key != hash[j].key
    {
      hide Chained, HashKeys, Find;
      forall i, j | 0 <= i < j < sizehash
        ensures hash[i].key != hash[j].key
      { assert hash[..][i] == hash[i] && hash[..][j] == hash[j]; }
    }

    lemma SlotHashed(src: seq<Pair>, i: int)
      requires Valid(src) && 0 <= i < sizehash
      ensures Hashed(hash[i].key, sizearray) && hash[i].key in HashKeys(src, |src|, sizearray)
    {
      hide Chained, Find, Main;
      assert hash[..][i] == hash[i];
      assert hash[i].key in Placed(hash[..]);
    }

    lemma {:induction false} ArrayNext(src: seq<Pair>, i: nat)
      requires Valid(src)
      ensures var r := ArrayKeys(arr[..], i) + SlotKeys(hash[..], 0); r != [] ==> Behind(src, r[0], r[1..])
      decreases sizearray - i
    {
      hide Pass2, Find, HashKeys;
      var r := ArrayKeys(arr[..], i) + SlotKeys(hash[..], 0);
      if i >= sizearray {
        assert r == SlotKeys(hash[..], 0);
        SlotNext(src, 0);
      } else if arr[i].Some? {
        assert r[1..] == ArrayKeys(arr[..], i + 1) + SlotKeys(hash[..], 0);
      } else {
        assert r == ArrayKeys(arr[..], i + 1) + SlotKeys(hash[..], 0);
        ArrayNext(src, i + 1);
      }
    }

    lemma SlotNext(src: seq<Pair>, i: nat)
      requires Valid(src)
      ensures var r := SlotKeys(hash[..], i); r != [] ==> Behind(src, r[0], r[1..])
    {
      hide Pass2, Find, HashKeys;
      if i < sizehash {
        SlotHashed(src, i);
        assert SlotKeys(hash[..], i)[1..] == SlotKeys(hash[..], i + 1);
      }
    }

    lemma BehindNext(src: seq<Pair>, k: Key, rest: seq<Key>)
      requires Valid(src) && Behind(src, k, rest) && rest != []
      ensures Behind(src, rest[0], rest[1..])
    {
      hide Pass2, Find, HashKeys, ArrayKeys, SlotKeys;
      if Hashed(k, sizearray) {
        var i :| 0 <= i < sizehash && hash[i].key == k && rest == SlotKeys(hash[..], i + 1);
        SlotNext(src, i + 1);
      } else {
        ArrayNext(src, k.i);
      }
    }

    // Asking for the next key until there is none lists the table.
    method Traverse(ghost src: seq<Pair>) returns (out: seq<Key>)
      requires Valid(src)
      ensures out == Listing(src)
    {
      hide Valid, Find, ArrayKeys, SlotKeys, Behind;
      out := [];
      ghost var rest := Listing(src);
      ArrayNext(src, 0);
      var k := NextKey(None, src);
      while k.Some?
        invariant out + rest == Listing(src) && k == Head(rest)
        invariant rest != [] ==> Behind(src, rest[0], rest[1..])
        decreases |rest|
      {
        out := out + [k.value];
        k := NextKey(k, src);
        if |rest| > 1 { BehindNext(src, rest[0], rest[1..]); }
        rest := rest[1..];
      }
    }

    // The listing has every key of the source, once.
    lemma ListingIs(src: seq<Pair>)
      requires Valid(src)
      ensures forall k :: k in Listing(src) <==> Find(src, k).Some?
      ensures forall i, j :: 0 <= i < j < |Listing(src)| ==> Listing(src)[i] != Listing(src)[j]
    {
      hide Find, Pass2, HashKeys, ArrayKeys, SlotKeys;
      var a, s := ArrayKeys(arr[..], 0), SlotKeys(hash[..], 0);
      ArrayKeysAre(arr[..], 0);
      SlotKeysAre(hash[..]);
      OneSlot(src);
      forall k
        ensures k in a + s <==> Find(src, k).Some?
      {
        if Hashed(k, sizearray) {
          if k in s {
            var i :| 0 <= i < |s| && s[i] == k;
            HashFind(src, k, i);
          } else {
            forall i | 0 <= i < sizehash ensures hash[i].key != k { assert s[i] == hash[i].key; }
            HashFind(src, k, -1);
          }
        } else if k in s {
          var i :| 0 <= i < |s| && s[i] == k;
          SlotHashed(src, i);
        }
      }
      forall i, j | 0 <= i < j < |a + s|
        ensures (a + s)[i] != (a + s)[j]
      {
        if j >= |a| { SlotHashed(src, j - |a|); }
      }
    }
  }

  lemma {:induction false} ArrayKeysAre(a: seq<Option<Value>>, i: nat)
    ensures forall k :: k in ArrayKeys(a, i) <==> k.Int? && i < k.i <= |a| && a[k.i - 1].Some?
    ensures forall x, y :: 0 <= x < y < |ArrayKeys(a, i)| ==> ArrayKeys(a, i)[x] != ArrayKeys(a, i)[y]
    decreases |a| - i
  {
    if i < |a| { ArrayKeysAre(a, i + 1); }
  }

  lemma {:induction false} SlotKeyAt(s: seq<Slot>, i: nat, j: nat)
    requires i <= |s| && forall j :: 0 <= j < |s| ==> s[j].Node?
    ensures |SlotKeys(s, i)| == |s| - i && (i <= j < |s| ==> SlotKeys(s, i)[j - i] == s[j].key)
    decreases |s| - i
  {
    if i < |s| { SlotKeyAt(s, i + 1, j); }
  }

  lemma SlotKeysAre(s: seq<Slot>)
    requires forall j :: 0 <= j < |s| ==> s[j].Node?
    ensures |SlotKeys(s, 0)| == |s| && forall j :: 0 <= j < |s| ==> SlotKeys(s, 0)[j] == s[j].key
  {
    SlotKeyAt(s, 0, 0);
    forall j | 0 <= j < |s| ensures SlotKeys(s, 0)[j] == s[j].key { SlotKeyAt(s, 0, j); }
  }

  ghost function Index(c: seq<int>, n: int): (j: int)
    requires n in c
    ensures 0 <= j < |c| && c[j] == n
  { var j :| 0 <= j < |c| && c[j] == n; j }

  lemma {:induction false} AtMost(s: set<int>, m: nat)
    requires forall i :: i in s ==> 0 <= i < m
    ensures |s| <= m
  {
    if m > 0 {
      AtMost(s - {m - 1}, m - 1);
    } else {
      assert forall i :: i !in s;
      assert s == {};
    }
  }
}
