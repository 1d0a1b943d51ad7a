/**
The two-table hash dictionary of game/lib/lua-redis/dict.c: chained buckets, incremental rehashing and the
stateless scan. Keys are taken up to dictCompareKeys, so that `==` on K is that comparison, and dictHashKey is
an arbitrary function on them.
*/
module Dict {
  import opened Basics
  import opened Words
  import opened Cursor

  datatype Entry<K, V> = Entry(key: K, val: V)

  /** struct dictht. The size is 2^exp and the sizemask 2^exp - 1; a NULL table has no buckets. */
  datatype Table<K, V> = Table(buckets: seq<seq<Entry<K, V>>>, exp: nat, used: nat)

  type Hash<!K> = K -> Word

  function NoTable<K, V>(): Table<K, V> { Table([], 0, 0) }

  /** h & sizemask */
  function Index(h: Word, a: nat): (i: nat)
    requires a <= BITS
    ensures i < Pow2(a)
  {
    Num(h[..a])
  }

  ghost function Count<K, V>(b: seq<seq<Entry<K, V>>>): nat {
    if b == [] then 0 else |b[0]| + Count(b[1..])
  }

  /** Every entry hashes to the bucket it is in, and no key is there twice. */
  ghost predicate ChainOk<K, V>(hash: Hash<K>, c: seq<Entry<K, V>>, a: nat, i: nat)
    requires a <= BITS
  {
    && (forall x :: 0 <= x < |c| ==> Index(hash(c[x].key), a) == i)
    && (forall x, y :: 0 <= x < y < |c| ==> c[x].key != c[y].key)
  }

  ghost predicate TableOk<K, V>(hash: Hash<K>, t: Table<K, V>) {
    && (if t.buckets == [] then t == NoTable() else 2 <= t.exp <= 63 && |t.buckets| == Pow2(t.exp))
    && (forall i :: 0 <= i < |t.buckets| ==> ChainOk(hash, t.buckets[i], t.exp, i))
    && t.used == Count(t.buckets)
  }

  ghost predicate In<K, V>(hash: Hash<K>, t: Table<K, V>, e: Entry<K, V>)
    requires TableOk(hash, t)
  {
    t.buckets != [] && e in t.buckets[Index(hash(e.key), t.exp)]
  }

  /** The two tables together hold exactly the map m, each key in one place. */
  ghost predicate Represents<K(!new), V(!new)>(hash: Hash<K>, t0: Table<K, V>, t1: Table<K, V>, m: map<K, V>) {
    && TableOk(hash, t0) && TableOk(hash, t1)
    && |m| == t0.used + t1.used
    && (forall e :: In(hash, t0, e) ==> e.key in m && m[e.key] == e.val)
    && (forall e :: In(hash, t1, e) ==> e.key in m && m[e.key] == e.val)
    && (forall k :: k in m ==> In(hash, t0, Entry(k, m[k])) != In(hash, t1, Entry(k, m[k])))
  }

  // ---------------------------------------------------------------- changing one bucket

  /** Linking an entry in at the head of its bucket. */
  function Push<K, V>(hash: Hash<K>, t: Table<K, V>, e: Entry<K, V>): Table<K, V>
    requires t.exp <= BITS && Index(hash(e.key), t.exp) < |t.buckets|
  {
    var i := Index(hash(e.key), t.exp);
    t.(buckets := t.buckets[i := [e] + t.buckets[i]], used := t.used + 1)
  }

  /** Unlinking entry j of bucket i. */
  function Drop<K, V>(t: Table<K, V>, i: nat, j: nat): Table<K, V>
    requires i < |t.buckets| && j < |t.buckets[i]| && t.used > 0
  {
    var c := t.buckets[i];
    t.(buckets := t.buckets[i := c[..j] + c[j + 1..]], used := t.used - 1)
  }

  /** Writing the value of entry j of bucket i. */
  function SetVal<K, V>(t: Table<K, V>, i: nat, j: nat, v: V): Table<K, V>
    requires i < |t.buckets| && j < |t.buckets[i]|
  {
    var c := t.buckets[i];
    t.(buckets := t.buckets[i := c[j := Entry(c[j].key, v)]])
  }

  lemma {:induction false} CountUpdate<K, V>(b: seq<seq<Entry<K, V>>>, i: nat, c: seq<Entry<K, V>>)
    requires i < |b|
    ensures Count(b[i := c]) == Count(b) - |b[i]| + |c|
  {
    if i > 0 {
      assert b[i := c][1..] == b[1..][i - 1 := c];
      CountUpdate(b[1..], i - 1, c);
    } else {
      assert b[i := c][1..] == b[1..];
    }
  }

  lemma {:induction false} CountZero<K, V>(b: seq<seq<Entry<K, V>>>)
    ensures Count(b) == 0 <==> forall i :: 0 <= i < |b| ==> b[i] == []
  {
    if b != [] {
      CountZero(b[1..]);
      assert forall i :: 0 < i < |b| ==> b[i] == b[1..][i - 1];
    }
  }

  lemma PushOk<K, V>(hash: Hash<K>, t: Table<K, V>, e: Entry<K, V>)
    requires TableOk(hash, t) && t.buckets != []
    requires forall v :: !In(hash, t, Entry(e.key, v))
    ensures TableOk(hash, Push(hash, t, e)) && Push(hash, t, e).used == t.used + 1
    ensures forall x :: In(hash, Push(hash, t, e), x) <==> x == e || In(hash, t, x)
  {
    hide Index;
    var i := Index(hash(e.key), t.exp);
    CountUpdate(t.buckets, i, [e] + t.buckets[i]);
    forall x | 0 <= x < |t.buckets[i]| ensures t.buckets[i][x].key != e.key {
      assert t.buckets[i][x] == Entry(t.buckets[i][x].key, t.buckets[i][x].val);
    }
  }

  lemma DropOk<K, V>(hash: Hash<K>, t: Table<K, V>, i: nat, j: nat)
    requires TableOk(hash, t) && i < |t.buckets| && j < |t.buckets[i]|
    ensures t.used > 0 && TableOk(hash, Drop(t, i, j)) && Drop(t, i, j).used == t.used - 1
    ensures In(hash, t, t.buckets[i][j])
    ensures forall x :: In(hash, Drop(t, i, j), x) <==> In(hash, t, x) && x.key != t.buckets[i][j].key
  {
    hide Index;
    var c := t.buckets[i];
    CountUpdate(t.buckets, i, c[..j] + c[j + 1..]);
  }

  lemma SetOk<K, V>(hash: Hash<K>, t: Table<K, V>, i: nat, j: nat, v: V)
    requires TableOk(hash, t) && i < |t.buckets| && j < |t.buckets[i]|
    ensures TableOk(hash, SetVal(t, i, j, v)) && SetVal(t, i, j, v).used == t.used
    ensures In(hash, t, t.buckets[i][j])
    ensures forall x :: In(hash, SetVal(t, i, j, v), x)
                        <==> if x.key == t.buckets[i][j].key then x.val == v else In(hash, t, x)
  {
    hide Index;
    var c := t.buckets[i];
    var c' := c[j := Entry(c[j].key, v)];
    CountUpdate(t.buckets, i, c');
    assert forall x :: 0 <= x < |c| ==> c'[x].key == c[x].key;
    assert ChainOk(hash, c', t.exp, i);
    forall x ensures x in c' <==> if x.key == c[j].key then x == Entry(c[j].key, v) else x in c {
      if x in c && x.key != c[j].key {
        var y :| 0 <= y < |c| && c[y] == x;
        assert c'[y] == x;
      }
      assert c'[j] == Entry(c[j].key, v);
    }
  }

  // ---------------------------------------------------------------- the two tables as one map

  lemma RepAbsent<K(!new), V(!new)>(hash: Hash<K>, t0: Table<K, V>, t1: Table<K, V>, m: map<K, V>, k: K)
    requires Represents(hash, t0, t1, m)
    ensures k !in m <==> forall v :: !In(hash, t0, Entry(k, v)) && !In(hash, t1, Entry(k, v))
  {
    hide In, TableOk;
  }

  lemma RepRoom<K(!new), V(!new)>(hash: Hash<K>, t0: Table<K, V>, t1: Table<K, V>, m: map<K, V>, k: K)
    requires Represents(hash, t0, t1, m)
    ensures t0.exp <= 63 && (t0.buckets != [] ==> Index(hash(k), t0.exp) < |t0.buckets|)
    ensures t1.exp <= 63 && (t1.buckets != [] ==> Index(hash(k), t1.exp) < |t1.buckets|)
  {
  }

  lemma RepSwap<K(!new), V(!new)>(hash: Hash<K>, t0: Table<K, V>, t1: Table<K, V>, m: map<K, V>)
    requires Represents(hash, t0, t1, m)
    ensures Represents(hash, t1, t0, m)
  {
    hide In, TableOk;
  }

  lemma RepRoomAt<K(!new), V(!new)>(hash: Hash<K>, t0: Table<K, V>, t1: Table<K, V>, m: map<K, V>, v: Word)
    requires Represents(hash, t0, t1, m)
    ensures t0.exp <= 63 && (t0.buckets != [] ==> Index(v, t0.exp) < |t0.buckets|)
    ensures t1.exp <= 63 && (t1.buckets != [] ==> Index(v, t1.exp) < |t1.buckets|)
  {
  }

  lemma RepOk<K(!new), V(!new)>(hash: Hash<K>, t0: Table<K, V>, t1: Table<K, V>, m: map<K, V>)
    requires Represents(hash, t0, t1, m)
    ensures TableOk(hash, t0) && TableOk(hash, t1)
  {
  }

  /** Adding a new key to one of the tables. */
  lemma RepAdd<K(!new), V(!new)>(hash: Hash<K>, t0: Table<K, V>, t1: Table<K, V>, m: map<K, V>, e: Entry<K, V>)
    requires Represents(hash, t0, t1, m) && t0.buckets != [] && e.key !in m
    ensures Represents(hash, Push(hash, t0, e), t1, m[e.key := e.val])
  {
    hide In, TableOk, Push, Index;
    RepAbsent(hash, t0, t1, m, e.key);
    PushOk(hash, t0, e);
  }

  lemma RepDelete<K(!new), V(!new)>(hash: Hash<K>, t0: Table<K, V>, t1: Table<K, V>, m: map<K, V>, i: nat, j: nat)
    requires Represents(hash, t0, t1, m) && i < |t0.buckets| && j < |t0.buckets[i]|
    ensures t0.used > 0 && Represents(hash, Drop(t0, i, j), t1, m - {t0.buckets[i][j].key})
    ensures t0.buckets[i][j].key in m && m[t0.buckets[i][j].key] == t0.buckets[i][j].val
  {
    hide In, TableOk, Drop, Index;
    DropOk(hash, t0, i, j);
    var k := t0.buckets[i][j].key;
    assert (m - {k}).Keys == m.Keys - {k};
  }

  lemma RepSet<K(!new), V(!new)>(hash: Hash<K>, t0: Table<K, V>, t1: Table<K, V>, m: map<K, V>, i: nat, j: nat, v: V)
    requires Represents(hash, t0, t1, m) && i < |t0.buckets| && j < |t0.buckets[i]|
    ensures Represents(hash, SetVal(t0, i, j, v), t1, m[t0.buckets[i][j].key := v])
  {
    hide In, TableOk, SetVal, Index;
    SetOk(hash, t0, i, j, v);
    var k := t0.buckets[i][j].key;
    assert m[k := v].Keys == m.Keys;
    assert In(hash, t0, Entry(k, m[k]));
  }

  /** Moving the first entry of a bucket to the other table changes nothing that can be seen. */
  lemma RepMove<K(!new), V(!new)>(hash: Hash<K>, t0: Table<K, V>, t1: Table<K, V>, m: map<K, V>, i: nat)
    requires Represents(hash, t0, t1, m) && i < |t0.buckets| && t0.buckets[i] != [] && t1.buckets != []
    ensures t0.used > 0 && Represents(hash, Drop(t0, i, 0), Push(hash, t1, t0.buckets[i][0]), m)
  {
    hide Represents, In, TableOk, Drop, Push, Index;
    var e := t0.buckets[i][0];
    RepRoom(hash, t0, t1, m, e.key);
    RepDelete(hash, t0, t1, m, i, 0);
    RepSwap(hash, Drop(t0, i, 0), t1, m - {e.key});
    RepAdd(hash, t1, Drop(t0, i, 0), m - {e.key}, e);
    RepSwap(hash, Push(hash, t1, e), Drop(t0, i, 0), (m - {e.key})[e.key := e.val]);
    assert (m - {e.key})[e.key := e.val] == m;
  }

  // ---------------------------------------------------------------- new tables

  const LONG_MAX := 0x7fff_ffff_ffff_ffff
  const ULONG := 0x1_0000_0000_0000_0000  // 2^64
  const FORCE_RESIZE_RATIO := 5

  lemma {:induction false} Pow2Mono(a: nat, b: nat)
    requires a <= b
    ensures Pow2(a) <= Pow2(b) && (a < b ==> 2 * Pow2(a) <= Pow2(b))
    decreases b - a
  {
    if a < b {
      Pow2Mono(a + 1, b);
    }
  }

  lemma Pow2Of7()
    ensures Pow2(7) == 128
  {
    assert Pow2(2) == 4 && Pow2(4) == 16 && Pow2(6) == 64;
  }

  lemma LongMax()
    ensures Pow2(63) == LONG_MAX + 1
  {
    hide Pow2;
    Pow2Of7();
    Pow2Sum(7, 7);
    Pow2Sum(14, 7);
    Pow2Sum(21, 21);
    Pow2Sum(42, 21);
  }

  function Least(size: nat, e: nat): (r: nat)
    ensures e <= r && (e <= 63 ==> r <= 63)
    ensures r == e || Pow2(r - 1) < size
    ensures r >= 63 || size <= Pow2(r)
    decreases 63 - e
  {
    if e >= 63 || size <= Pow2(e) then e else Least(size, e + 1)
  }

  /** The exponent of the least power of two that is at least 4 and at least size, up to 2^63. */
  function PowerExp(size: nat): (e: nat)
    ensures 2 <= e <= 63
  {
    if size >= LONG_MAX then 63 else Least(size, 2)
  }

  lemma PowerExpCovers(size: nat)
    ensures size <= LONG_MAX ==> size <= Pow2(PowerExp(size))
  {
    LongMax();
  }

  lemma LeastStep(size: nat, e: nat)
    requires e <= 63 && size < LONG_MAX
    ensures if Pow2(e) < size then e < 63 && Least(size, e) == Least(size, e + 1) && Pow2(e + 1) == 2 * Pow2(e)
            else Least(size, e) == e
    ensures Pow2(2) == 4
  {
    LongMax();
  }

  /** _dictNextPower */
  method NextPower(size: nat) returns (e: nat)
    ensures e == PowerExp(size)
  {
    hide Pow2, Least;
    if size >= LONG_MAX {
      return 63;
    }
    LeastStep(size, 2);
    e := 2;
    var i := 4;
    while i < size
      invariant 2 <= e <= 63 && i == Pow2(e)
      invariant Least(size, 2) == Least(size, e)
      decreases 63 - e
    {
      LeastStep(size, e);
      i := i * 2;
      e := e + 1;
    }
    LeastStep(size, e);
  }

  /** A table with as many entries as buckets is replaced by a larger one. */
  lemma Doubling(e: nat, used: nat)
    requires 2 <= e < 63 && Pow2(e) <= used
    ensures PowerExp(2 * used) > e
  {
    hide Pow2;
    PowerExpCovers(2 * used);
    if PowerExp(2 * used) <= e {
      Pow2Mono(PowerExp(2 * used), e);
    }
  }

  lemma FourBuckets()
    ensures PowerExp(4) == 2 && Pow2(2) == 4
  {
    LongMax();
    LeastStep(4, 2);
  }

  /** The size of the table that twice the number of entries calls for. */
  lemma Twice(e: nat, used: nat)
    requires 2 <= e < 63 && Pow2(e) <= used
    ensures Pow2(PowerExp(2 * used)) > Pow2(e)
    ensures 2 * used < LONG_MAX ==> 2 * used <= Pow2(PowerExp(2 * used)) < 4 * used
  {
    hide Pow2;
    Doubling(e, used);
    PowerExpCovers(2 * used);
    var r := PowerExp(2 * used);
    Pow2Step(r - 1);
    Pow2Mono(e, r - 1);
    if 2 * used < LONG_MAX { LeastBound(2 * used); }
  }

  lemma Pow2Step(n: nat)
    ensures Pow2(n + 1) == 2 * Pow2(n) && Pow2(n) > 0
  {
  }

  lemma LeastBound(size: nat)
    requires size < LONG_MAX
    ensures PowerExp(size) == 2 || Pow2(PowerExp(size) - 1) < size
  {
  }

  lemma Fits(e: nat, used: nat)
    requires 2 <= e <= 63 && Pow2(e) <= used <= LONG_MAX
    ensures e < 63
  {
    LongMax();
  }

  function NewTable<K, V>(e: nat): Table<K, V> {
    Table(seq(Pow2(e), _ => []), e, 0)
  }

  lemma NewTableOk<K(!new), V(!new)>(hash: Hash<K>, e: nat)
    requires 2 <= e <= 63
    ensures TableOk<K, V>(hash, NewTable(e)) && NewTable<K, V>(e).buckets != []
    ensures forall x: Entry<K, V> :: !In(hash, NewTable(e), x)
  {
    CountZero(NewTable<K, V>(e).buckets);
  }

  lemma RepSize<K(!new), V(!new)>(hash: Hash<K>, t0: Table<K, V>, t1: Table<K, V>, m: map<K, V>)
    requires Represents(hash, t0, t1, m)
    ensures t0.buckets != [] ==> 2 <= t0.exp <= 63 && |t0.buckets| == Pow2(t0.exp)
    ensures t0.buckets == [] ==> t0 == NoTable()
    ensures |m| == t0.used + t1.used
  {
  }

  lemma SameSize(a: nat, b: nat)
    ensures Pow2(a) == Pow2(b) <==> a == b
  {
    if a < b {
      Pow2Mono(a, b);
    } else {
      Pow2Mono(b, a);
    }
  }

  lemma RepEmpty<K(!new), V(!new)>(hash: Hash<K>)
    ensures Represents<K, V>(hash, NoTable(), NoTable(), map[])
  {
  }

  lemma RepNew<K(!new), V(!new)>(hash: Hash<K>, t: Table<K, V>, m: map<K, V>, e: nat)
    requires Represents(hash, t, NoTable(), m) && 2 <= e <= 63
    ensures Represents(hash, t, NewTable(e), m)
    ensures t.buckets == [] ==> Represents(hash, NewTable(e), NoTable(), m)
  {
    NewTableOk<K, V>(hash, e);
  }

  /** When entries are left in a table, some bucket holds one. */
  lemma RepBusy<K(!new), V(!new)>(hash: Hash<K>, t0: Table<K, V>, t1: Table<K, V>, m: map<K, V>, from: nat)
    requires Represents(hash, t0, t1, m) && t0.used != 0
    requires from <= |t0.buckets| && forall i :: 0 <= i < from ==> t0.buckets[i] == []
    ensures exists i :: from <= i < |t0.buckets| && t0.buckets[i] != []
  {
    hide In, ChainOk;
    CountZero(t0.buckets);
  }

  /** When no entries are left in the old table, the new one is the dictionary. */
  lemma RepDone<K(!new), V(!new)>(hash: Hash<K>, t0: Table<K, V>, t1: Table<K, V>, m: map<K, V>)
    requires Represents(hash, t0, t1, m) && t0.used == 0
    ensures Represents(hash, t1, NoTable(), m)
  {
    hide ChainOk, Index;
    CountZero(t0.buckets);
  }

  /** A key is in the map exactly when one of the two buckets it hashes to holds it. */
  lemma RepFound<K(!new), V(!new)>(hash: Hash<K>, t0: Table<K, V>, t1: Table<K, V>, m: map<K, V>, k: K)
    requires Represents(hash, t0, t1, m) && t0.buckets != []
    ensures t0.exp <= 63 && t1.exp <= 63 && Index(hash(k), t0.exp) < |t0.buckets|
    ensures t1.buckets != [] ==> Index(hash(k), t1.exp) < |t1.buckets|
    ensures forall e :: e in t0.buckets[Index(hash(k), t0.exp)] && e.key == k ==> k in m && e == Entry(k, m[k])
    ensures t1.buckets != [] ==>
              forall e :: e in t1.buckets[Index(hash(k), t1.exp)] && e.key == k ==> k in m && e == Entry(k, m[k])
    ensures k in m ==> Entry(k, m[k]) in t0.buckets[Index(hash(k), t0.exp)]
                       || (t1.buckets != [] && Entry(k, m[k]) in t1.buckets[Index(hash(k), t1.exp)])
  {
    hide Index, ChainOk;
    assert forall e :: In(hash, t0, e) ==> e.key in m && m[e.key] == e.val;
  }

  // ---------------------------------------------------------------- the buckets a scan visits

  /** The bucket at a cursor holds exactly the entries whose hash agrees with the cursor on the mask. */
  lemma BucketIs<K(!new), V(!new)>(hash: Hash<K>, t: Table<K, V>, v: Word, e: Entry<K, V>)
    requires TableOk(hash, t) && t.buckets != []
    ensures Index(v, t.exp) < |t.buckets|
    ensures e in t.buckets[Index(v, t.exp)] <==> In(hash, t, e) && hash(e.key)[..t.exp] == v[..t.exp]
  {
    if Index(hash(e.key), t.exp) == Index(v, t.exp) {
      NumInjective(hash(e.key)[..t.exp], v[..t.exp]);
    }
    assert ChainOk(hash, t.buckets[Index(v, t.exp)], t.exp, Index(v, t.exp));
  }

  lemma InTable<K, V>(hash: Hash<K>, t: Table<K, V>, v: Word)
    requires TableOk(hash, t)
    ensures t.exp <= 63 && (t.buckets != [] ==> Index(v, t.exp) < |t.buckets|)
  {
  }

  /** The entries that the inner loop of dictScan passes on between two cursors. */
  ghost predicate Passed<K, V>(hash: Hash<K>, t: Table<K, V>, a: nat, v: Word, lo: nat, hi: nat, e: Entry<K, V>)
    requires TableOk(hash, t) && a <= t.exp <= BITS
  {
    In(hash, t, e) && hash(e.key)[..a] == v[..a] && lo <= Num(hash(e.key)[a..t.exp]) < hi
  }

  lemma PassedMore<K(!new), V(!new)>(hash: Hash<K>, t: Table<K, V>, a: nat, v: Word, lo: nat, cur: Word, e: Entry<K, V>)
    requires TableOk(hash, t) && t.buckets != [] && a <= t.exp && cur[..a] == v[..a] && lo <= Num(cur[a..t.exp])
    ensures Index(cur, t.exp) < |t.buckets|
    ensures Passed(hash, t, a, v, lo, Num(cur[a..t.exp]) + 1, e)
            <==> Passed(hash, t, a, v, lo, Num(cur[a..t.exp]), e) || e in t.buckets[Index(cur, t.exp)]
  {
    hide TableOk, In, Index;
    InTable(hash, t, cur);
    BucketIs(hash, t, cur, e);
    var h, b := hash(e.key), t.exp;
    assert h[..b] == h[..a] + h[a..b] && cur[..b] == cur[..a] + cur[a..b];
    if Num(h[a..b]) == Num(cur[a..b]) {
      NumInjective(h[a..b], cur[a..b]);
    }
  }

  lemma NonePassed<K, V>(hash: Hash<K>, t: Table<K, V>, a: nat, v: Word, lo: nat, e: Entry<K, V>)
    requires TableOk(hash, t) && a <= t.exp <= BITS
    ensures !Passed(hash, t, a, v, lo, lo, e)
  {
  }

  /** The entries of the cursor's class in the larger table that the inner loop does not come to. */
  ghost predicate Skipped<K, V>(hash: Hash<K>, t: Table<K, V>, v: Word, a: nat, e: Entry<K, V>)
    requires TableOk(hash, t)
  {
    t.buckets != [] && a <= t.exp && In(hash, t, e) && Num(hash(e.key)[a..t.exp]) < Num(v[a..t.exp])
  }

  lemma PassedIff<K, V>(hash: Hash<K>, t: Table<K, V>, a: nat, v: Word, e: Entry<K, V>)
    requires TableOk(hash, t) && a <= t.exp <= BITS && t.buckets != []
    ensures Passed(hash, t, a, v, Num(v[a..t.exp]), Pow2(t.exp - a), e)
            <==> In(hash, t, e) && hash(e.key)[..a] == v[..a] && !Skipped(hash, t, v, a, e)
  {
  }

  /** The test of the inner loop: v & (m0 ^ m1). */
  lemma BetweenMasks(v: Word, a: nat, b: nat)
    requires a <= b <= BITS
    ensures And(v, Xor(Mask(a), Mask(b))) == ZERO <==> v[a..b] == Fill(b - a, false)
  {
    var w := And(v, Xor(Mask(a), Mask(b)));
    assert forall i :: 0 <= i < BITS ==> w[i] == (a <= i < b && v[i]);
    if w == ZERO {
      assert forall i :: 0 <= i < b - a ==> v[a..b][i] == w[a + i];
    }
    if v[a..b] == Fill(b - a, false) {
      assert forall i :: a <= i < b ==> v[i] == v[a..b][i - a];
      assert w == ZERO;
    }
  }

  lemma ExpansionCounts(v: Word, a: nat, b: nat)
    requires a <= b <= BITS
    ensures Expansion(v, a)[..a] == v[..a]
    ensures if Expansion(v, a)[a..b] == Fill(b - a, false) then Num(v[a..b]) + 1 == Pow2(b - a)
            else Num(Expansion(v, a)[a..b]) == Num(v[a..b]) + 1
  {
    hide Expansion, Inc;
    ExpansionIs(v, a);
    IncPrefix(v[a..], b - a);
    assert v[a..][..b - a] == v[a..b];
    assert Expansion(v, a)[a..b] == Inc(v[a..])[..b - a];
    IncNum(v[a..b]);
    NumZero(b - a);
  }

  /** No key comes twice. */
  ghost predicate Once<K, V>(out: seq<Entry<K, V>>) {
    forall x, y :: 0 <= x < y < |out| ==> out[x].key != out[y].key
  }

  lemma OnceJoin<K, V>(a: seq<Entry<K, V>>, b: seq<Entry<K, V>>)
    requires Once(a) && Once(b) && forall e, f :: e in a && f in b ==> e.key != f.key
    ensures Once(a + b)
  {
    var c := a + b;
    forall x, y | 0 <= x < y < |c| ensures c[x].key != c[y].key {
      if x < |a| <= y {
        assert c[x] in a && c[y] in b;
      }
    }
  }

  lemma BucketOnce<K(!new), V(!new)>(hash: Hash<K>, t: Table<K, V>, i: nat)
    requires TableOk(hash, t) && i < |t.buckets|
    ensures Once(t.buckets[i])
  {
    assert ChainOk(hash, t.buckets[i], t.exp, i);
  }

  /** What the inner loop has passed on so far is not in the next bucket. */
  lemma PassedApart<K(!new), V(!new)>(hash: Hash<K>, t: Table<K, V>, a: nat, v: Word, lo: nat, cur: Word,
                                      e: Entry<K, V>, f: Entry<K, V>)
    requires TableOk(hash, t) && t.buckets != [] && a <= t.exp <= BITS && Index(cur, t.exp) < |t.buckets|
    requires Passed(hash, t, a, v, lo, Num(cur[a..t.exp]), e) && f in t.buckets[Index(cur, t.exp)]
    ensures e.key != f.key
  {
    hide TableOk, In, Index, Num;
    BucketIs(hash, t, cur, f);
    assert hash(f.key)[a..t.exp] == hash(f.key)[..t.exp][a..] == cur[..t.exp][a..] == cur[a..t.exp];
  }

  /** The inner loop of dictScan over the larger table: starting from the bits that the cursor has there, it
      passes on every entry of the cursor's class from that point up. */
  method ScanExpansions<K(!new), V(!new)>(ghost hash: Hash<K>, t: Table<K, V>, v: Word, a: nat)
    returns (out: seq<Entry<K, V>>, cur: Word)
    requires TableOk(hash, t) && t.buckets != [] && a <= t.exp
    ensures cur[..a] == v[..a]
    ensures forall e :: e in out <==> Passed(hash, t, a, v, Num(v[a..t.exp]), Pow2(t.exp - a), e)
    ensures Once(out)
  {
    hide TableOk, In, Passed, Index, Expansion, Pow2, Once;
    InTable(hash, t, v);
    var b := t.exp;
    ghost var lo := Num(v[a..b]);
    out, cur := [], v;
    var again := true;
    forall e ensures !Passed(hash, t, a, v, lo, lo, e) {
      NonePassed(hash, t, a, v, lo, e);
    }
    OnceNone<K, V>();
    while again
      invariant cur[..a] == v[..a] && Once(out)
      invariant again ==> lo <= Num(cur[a..b]) < Pow2(b - a)
                          && forall e :: e in out <==> Passed(hash, t, a, v, lo, Num(cur[a..b]), e)
      invariant !again ==> forall e :: e in out <==> Passed(hash, t, a, v, lo, Pow2(b - a), e)
      decreases again, Pow2(b - a) - Num(cur[a..b])
    {
      InTable(hash, t, cur);
      forall e ensures Passed(hash, t, a, v, lo, Num(cur[a..b]) + 1, e)
                       <==> Passed(hash, t, a, v, lo, Num(cur[a..b]), e) || e in t.buckets[Index(cur, b)]
      {
        PassedMore(hash, t, a, v, lo, cur, e);
      }
      BucketOnce(hash, t, Index(cur, b));
      forall e, f | e in out && f in t.buckets[Index(cur, b)] ensures e.key != f.key {
        PassedApart(hash, t, a, v, lo, cur, e, f);
      }
      OnceJoin(out, t.buckets[Index(cur, b)]);
      out := out + t.buckets[Index(cur, b)];
      ExpansionCounts(cur, a, b);
      cur := Expansion(cur, a);
      BetweenMasks(cur, a, b);
      again := And(cur, Xor(Mask(a), Mask(b))) != ZERO;
    }
  }

  lemma OnceNone<K, V>()
    ensures Once<K, V>([])
  {
  }

  /** The two tables have no key in common. */
  lemma TablesApart<K(!new), V(!new)>(hash: Hash<K>, t0: Table<K, V>, t1: Table<K, V>, m: map<K, V>,
                                      a: seq<Entry<K, V>>, b: seq<Entry<K, V>>)
    requires Represents(hash, t0, t1, m) && Once(a) && Once(b)
    requires (forall e :: e in a ==> In(hash, t0, e)) && (forall e :: e in b ==> In(hash, t1, e))
    ensures Once(a + b)
  {
    hide TableOk, In, Once;
    forall e, f | e in a && f in b ensures e.key != f.key {
      assert e == Entry(e.key, e.val) && f == Entry(f.key, f.val);
    }
    OnceJoin(a, b);
  }

  /** The class of a cursor: the entries of the map whose hash agrees with it on the smaller mask. */
  ghost predicate InClass<K, V>(hash: Hash<K>, m: map<K, V>, v: Word, a: nat, e: Entry<K, V>)
    requires a <= BITS
  {
    e.key in m && m[e.key] == e.val && hash(e.key)[..a] == v[..a]
  }

  /** One call of dictScan: the class of the cursor, except for what is skipped in the larger of two tables. */
  ghost predicate Scanned<K(!new), V(!new)>(hash: Hash<K>, m: map<K, V>, larger: Table<K, V>, v: Word, a: nat,
                                            out: seq<Entry<K, V>>)
    requires a <= BITS
  {
    TableOk(hash, larger)
    && forall e :: e in out <==> InClass(hash, m, v, a, e) && !Skipped(hash, larger, v, a, e)
  }

  lemma ScannedTwo<K(!new), V(!new)>(hash: Hash<K>, t0: Table<K, V>, t1: Table<K, V>, m: map<K, V>, v: Word,
                                     out0: seq<Entry<K, V>>, out1: seq<Entry<K, V>>)
    requires Represents(hash, t0, t1, m) && t0.buckets != [] && t0.exp <= 63 && Index(v, t0.exp) < |t0.buckets|
    requires out0 == t0.buckets[Index(v, t0.exp)]
    requires if t1.buckets == [] then out1 == []
             else t0.exp <= t1.exp <= 63
                  && forall e :: e in out1 <==>
                       Passed(hash, t1, t0.exp, v, Num(v[t0.exp..t1.exp]), Pow2(t1.exp - t0.exp), e)
    requires Once(out1)
    ensures Scanned(hash, m, t1, v, t0.exp, out0 + out1) && Once(out0 + out1)
  {
    hide TableOk, In, Passed, Index, Pow2, Num, Once;
    BucketOnce(hash, t0, Index(v, t0.exp));
    OnceParts(hash, t0, t1, m, v, out0, out1);
    var a := t0.exp;
    NotInNull(hash, t0, t1, m);
    forall e ensures e in out0 + out1 <==> InClass(hash, m, v, a, e) && !Skipped(hash, t1, v, a, e) {
      BucketIs(hash, t0, v, e);
      if t1.buckets != [] {
        PassedIff(hash, t1, a, v, e);
      }
      assert e == Entry(e.key, e.val);
    }
  }

  lemma OnceParts<K(!new), V(!new)>(hash: Hash<K>, t0: Table<K, V>, t1: Table<K, V>, m: map<K, V>, v: Word,
                                    out0: seq<Entry<K, V>>, out1: seq<Entry<K, V>>)
    requires Represents(hash, t0, t1, m) && t0.buckets != [] && t0.exp <= 63 && Index(v, t0.exp) < |t0.buckets|
    requires out0 == t0.buckets[Index(v, t0.exp)] && Once(out0) && Once(out1)
    requires if t1.buckets == [] then out1 == []
             else t0.exp <= t1.exp <= 63
                  && forall e :: e in out1 <==>
                       Passed(hash, t1, t0.exp, v, Num(v[t0.exp..t1.exp]), Pow2(t1.exp - t0.exp), e)
    ensures Once(out0 + out1)
  {
    hide TableOk, In, Index, Pow2, Num, Once;
    forall e | e in out0 ensures In(hash, t0, e) { BucketIs(hash, t0, v, e); }
    TablesApart(hash, t0, t1, m, out0, out1);
  }

  /** What is skipped has been reached before, if the cursor's bits above the mask are ones followed by zeroes. */
  lemma SkippedBefore<K, V>(hash: Hash<K>, t: Table<K, V>, v: Word, a: nat, e: Entry<K, V>)
    requires TableOk(hash, t) && a <= BITS && OnesFirst(v[a..]) && Skipped(hash, t, v, a, e)
    requires hash(e.key)[..a] == v[..a]
    ensures Less(hash(e.key), v)
  {
    hide In, Less, Num, OnesFirst;
    OnesFirstPart(v[a..], 0, t.exp - a);
    assert v[a..][0..t.exp - a] == v[a..t.exp];
    MissesNothing(v, a, t.exp);
  }

  lemma NotInNull<K(!new), V(!new)>(hash: Hash<K>, t0: Table<K, V>, t1: Table<K, V>, m: map<K, V>)
    requires Represents(hash, t0, t1, m)
    ensures t1.buckets == [] ==> forall e :: !In(hash, t1, e)
  {
  }

  // ---------------------------------------------------------------- struct dict

  /** Looking for a key along a chain: its position, or -1. */
  method Search<K(==), V>(c: seq<Entry<K, V>>, k: K) returns (j: int)
    ensures -1 <= j < |c|
    ensures j >= 0 ==> c[j].key == k
    ensures j == -1 ==> forall x :: 0 <= x < |c| ==> c[x].key != k
  {
    j := 0;
    while j < |c|
      invariant 0 <= j <= |c|
      invariant forall x :: 0 <= x < j ==> c[x].key != k
    {
      if c[j].key == k {
        return;
      }
      j := j + 1;
    }
    j := -1;
  }

  class Dict<K(==, !new), V(!new)> {
    const hash: Hash<K>
    var ht0: Table<K, V>
    var ht1: Table<K, V>
    var rehashidx: int
    var iterators: nat
    var canResize: bool       // dict_can_resize
    ghost var m: map<K, V>    // the map that the dictionary stands for

    ghost predicate Valid()
      reads this
    {
      && Represents(hash, ht0, ht1, m)
      && (if rehashidx == -1 then ht1 == NoTable()
          else
            && ht0.buckets != [] && ht1.buckets != [] && ht0.exp != ht1.exp
            && 0 <= rehashidx <= |ht0.buckets|
            && forall i :: 0 <= i < rehashidx ==> ht0.buckets[i] == [])
    }

    predicate Rehashing()
      reads this
    {
      rehashidx != -1
    }

    /** The exponent of the smaller table in use. */
    function Small(): nat
      reads this
    {
      if Rehashing() && ht1.exp < ht0.exp then ht1.exp else ht0.exp
    }

    /** What holds between two states when only growing resizes happened: the mask never shrinks. */
    twostate predicate Grew()
      reads this
    {
      old(Small()) <= Small() && (old(ht0.buckets) != [] ==> ht0.buckets != [])
    }

    /** The larger of two tables in use, or none. */
    function Larger(): Table<K, V>
      reads this
    {
      if Rehashing() && ht1.exp < ht0.exp then ht0 else ht1
    }

    lemma Exponents()
      requires Valid()
      ensures Small() <= 63
    {
      RepOk(hash, ht0, ht1, m);
    }

    lemma Sizes()
      requires Valid()
      ensures |m| == ht0.used + ht1.used
      ensures ht0.buckets == [] ==> ht0.exp == 0 && !Rehashing()
    {
      RepSize(hash, ht0, ht1, m);
    }

    constructor (hash: Hash<K>)
      ensures Valid() && this.hash == hash && m == map[] && ht0 == ht1 == NoTable() && !Rehashing()
    {
      hide Represents;
      RepEmpty<K, V>(hash);
      this.hash := hash;
      ht0, ht1 := NoTable(), NoTable();
      rehashidx, iterators, canResize := -1, 0, true;
      m := map[];
    }

    /** dictExpand: refused while rehashing, for a size below the number of entries, and for the size the
        table already has; otherwise a new empty table is set up beside the old one. */
    method Expand(size: nat) returns (ok: bool)
      requires Valid()
      modifies `ht0, `ht1, `rehashidx
      ensures Valid()
      ensures ok <==> !old(Rehashing()) && old(ht0.used) <= size
                      && (old(ht0.buckets) == [] || PowerExp(size) != old(ht0.exp))
      ensures if !ok then ht0 == old(ht0) && ht1 == old(ht1) && rehashidx == old(rehashidx)
              else if old(ht0.buckets) == [] then ht0 == NewTable(PowerExp(size)) && !Rehashing()
              else ht0 == old(ht0) && ht1 == NewTable(PowerExp(size)) && rehashidx == 0
    {
      hide Represents, PowerExp, Pow2;
      RepSize(hash, ht0, ht1, m);
      var e := NextPower(size);
      if Rehashing() || ht0.used > size {
        return false;
      }
      SameSize(e, ht0.exp);
      if Pow2(e) == |ht0.buckets| {
        return false;
      }
      RepNew(hash, ht0, m, e);
      var n := NewTable(e);
      if ht0.buckets == [] {
        ht0 := n;
        return true;
      }
      ht1 := n;
      rehashidx := 0;
      return true;
    }
  
    /** The inner loop of dictRehash: all entries of one bucket go to the new table. */
    method MoveBucket()
      requires Valid() && Rehashing() && rehashidx < |ht0.buckets|
      modifies `ht0, `ht1, `rehashidx
      ensures Valid() && Rehashing() && rehashidx == old(rehashidx) + 1
      ensures ht0.exp == old(ht0.exp) && ht1.exp == old(ht1.exp) && |ht0.buckets| == |old(ht0.buckets)|
    {
      hide Represents, Index;
      var i := rehashidx;
      while ht0.buckets[i] != []
        invariant Valid() && Rehashing() && rehashidx == i && i < |ht0.buckets|
        invariant ht0.exp == old(ht0.exp) && ht1.exp == old(ht1.exp) && |ht0.buckets| == |old(ht0.buckets)|
        decreases |ht0.buckets[i]|
      {
        var e := ht0.buckets[i][0];
        RepRoom(hash, ht0, ht1, m, e.key);
        RepMove(hash, ht0, ht1, m, i);
        ht1 := Push(hash, ht1, e);
        ht0 := Drop(ht0, i, 0);
      }
      rehashidx := rehashidx + 1;
    }

    /** dictRehash. The loop over empty buckets stays inside the table because entries are left in it. */
    method Rehash(n: nat) returns (more: bool)
      requires Valid()
      modifies `ht0, `ht1, `rehashidx
      ensures Valid() && Grew() && more == Rehashing()
      ensures old(Rehashing()) && n > 0 && Rehashing() ==> rehashidx > old(rehashidx)
    {
      hide Represents, Index;
      var emptyVisits, left := n * 10, n;
      if !Rehashing() {
        return false;
      }
      while left > 0 && ht0.used != 0
        invariant Valid() && Rehashing() && (left > 0 ==> emptyVisits > 0)
        invariant ht0.exp == old(ht0.exp) && ht1.exp == old(ht1.exp)
        invariant rehashidx >= old(rehashidx) && (left < n ==> rehashidx > old(rehashidx))
      {
        left := left - 1;
        RepBusy(hash, ht0, ht1, m, rehashidx);
        ghost var busy :| rehashidx <= busy < |ht0.buckets| && ht0.buckets[busy] != [];
        while ht0.buckets[rehashidx] == []
          invariant 0 <= rehashidx <= busy && emptyVisits > 0
          invariant Valid()
          modifies `rehashidx
          decreases busy - rehashidx
        {
          rehashidx := rehashidx + 1;
          emptyVisits := emptyVisits - 1;
          if emptyVisits == 0 {
            return true;
          }
        }
        MoveBucket();
      }
      if ht0.used == 0 {
        RepDone(hash, ht0, ht1, m);
        ht0 := ht1;
        ht1 := NoTable();
        rehashidx := -1;
        return false;
      }
      return true;
    }
  
    /** _dictRehashStep */
    method RehashStep()
      requires Valid()
      modifies `ht0, `ht1, `rehashidx
      ensures Valid() && Grew()
    {
      if iterators == 0 {
        var _ := Rehash(1);
      }
    }

    function Ht(table: nat): Table<K, V>
      reads this
    {
      if table == 0 then ht0 else ht1
    }

    /** The search shared by dictFind, dictGenericDelete and _dictKeyIndex: the old table first, then, while
        rehashing, the new one. When the key is missing, i is its bucket in the last table searched. */
    method Locate(k: K) returns (found: bool, table: nat, i: nat, j: int)
      requires Valid() && ht0.buckets != []
      ensures found <==> k in m
      ensures table <= 1 && (Rehashing() || table == 0) && i < |Ht(table).buckets|
      ensures found ==> 0 <= j < |Ht(table).buckets[i]| && Ht(table).buckets[i][j] == Entry(k, m[k])
      ensures !found ==> table == (if Rehashing() then 1 else 0) && Ht(table).exp <= 63
                         && i == Index(hash(k), Ht(table).exp)
    {
      hide Represents, Index;
      RepRoom(hash, ht0, ht1, m, k);
      table := 0;
      i := Index(hash(k), ht0.exp);
      j := Search(ht0.buckets[i], k);
      found := j >= 0;
      if !found && Rehashing() {
        table := 1;
        i := Index(hash(k), ht1.exp);
        j := Search(ht1.buckets[i], k);
        found := j >= 0;
      }
      RepFound(hash, ht0, ht1, m, k);
    }

    /** dictFind */
    method Find(k: K) returns (r: Option<V>)
      requires Valid()
      modifies `ht0, `ht1, `rehashidx
      ensures Valid() && Grew()
      ensures r == if k in m then Some(m[k]) else None
    {
      hide Represents, Index;
      RepSize(hash, ht0, ht1, m);
      if ht0.used + ht1.used == 0 {
        return None;
      }
      if Rehashing() {
        RehashStep();
        RepSize(hash, ht0, ht1, m);
      }
      var found, table, i, j := Locate(k);
      r := if found then Some(Ht(table).buckets[i][j].val) else None;
    }

    /** dictGenericDelete: the entry is unlinked and given back. */
    method Delete(k: K) returns (r: Option<V>)
      requires Valid()
      modifies `ht0, `ht1, `rehashidx, `m
      ensures Valid() && Grew()
      ensures r == if k in old(m) then Some(old(m)[k]) else None
      ensures m == old(m) - {k}
    {
      hide Represents, Index;
      RepSize(hash, ht0, ht1, m);
      if ht0.used == 0 && ht1.used == 0 {
        return None;
      }
      if Rehashing() {
        RehashStep();
        RepSize(hash, ht0, ht1, m);
      }
      var found, table, i, j := Locate(k);
      if !found {
        return None;
      }
      r := Some(Ht(table).buckets[i][j].val);
      if table == 0 {
        RepDelete(hash, ht0, ht1, m, i, j);
        ht0 := Drop(ht0, i, j);
      } else {
        RepSwap(hash, ht0, ht1, m);
        RepDelete(hash, ht1, ht0, m, i, j);
        ht1 := Drop(ht1, i, j);
        RepSwap(hash, ht1, ht0, m - {k});
      }
      m := m - {k};
    }
  
    /** There are as many entries as buckets, and resizing is allowed or overdue. */
    predicate Full()
      reads this
    {
      && !Rehashing() && ht0.buckets != [] && ht0.used >= |ht0.buckets|
      && (canResize || ht0.used / |ht0.buckets| > FORCE_RESIZE_RATIO)
    }

    /** _dictExpandIfNeeded: fails only when the number of entries no longer fits a long. A full table starts to move
        into one of at least twice as many buckets as there are entries; nothing else changes a table. */
    method ExpandIfNeeded() returns (ok: bool)
      requires Valid()
      modifies `ht0, `ht1, `rehashidx
      ensures Valid() && Grew()
      ensures ok ==> ht0.buckets != []
      ensures !ok ==> |m| > LONG_MAX
      ensures old(ht0.buckets) == [] ==> ok && |ht0.buckets| == 4 && !Rehashing()
      ensures old(ht0.buckets) != [] && !old(Full()) ==>
                ok && ht0 == old(ht0) && ht1 == old(ht1) && rehashidx == old(rehashidx)
      ensures old(Full()) && |m| <= LONG_MAX ==>
                && ok && rehashidx == 0 && ht0 == old(ht0) && ht1.used == 0 && |ht1.buckets| > |ht0.buckets|
                && (2 * ht0.used < LONG_MAX ==> 2 * ht0.used <= |ht1.buckets| < 4 * ht0.used)
    {
      hide Represents, PowerExp, Pow2;
      RepSize(hash, ht0, ht1, m);
      if Rehashing() {
        return true;
      }
      if |ht0.buckets| == 0 {
        FourBuckets();
        ok := Expand(4);
        RepSize(hash, ht0, ht1, m);
        return;
      }
      if ht0.used >= |ht0.buckets| && (canResize || ht0.used / |ht0.buckets| > FORCE_RESIZE_RATIO) {
        if ht0.used <= LONG_MAX {
          Fits(ht0.exp, ht0.used);
          Doubling(ht0.exp, ht0.used);
          Twice(ht0.exp, ht0.used);
        }
        ok := Expand(ht0.used * 2 % ULONG);
        return;
      }
      return true;
    }

    /** dictAdd: a new key is linked into the table that will stay. */
    method Add(k: K, v: V) returns (ok: bool)
      requires Valid()
      modifies `ht0, `ht1, `rehashidx, `m
      ensures Valid() && Grew()
      ensures ok ==> k !in old(m) && m == old(m)[k := v]
      ensures !ok ==> (k in old(m) || |old(m)| > LONG_MAX) && m == old(m)
      ensures !old(Rehashing()) && old(ht0.used) < |old(ht0.buckets)| ==>
                !Rehashing() && ht0.exp == old(ht0.exp) && (ok <==> k !in old(m))
    {
      hide Represents, Index;
      if Rehashing() {
        RehashStep();
      }
      ok := ExpandIfNeeded();
      if !ok {
        return;
      }
      var found, table, i, j := Locate(k);
      if found {
        return false;
      }
      Insert(Entry(k, v));
    }

    /** The end of dictAddRaw. */
    method Insert(e: Entry<K, V>)
      requires Valid() && ht0.buckets != [] && e.key !in m
      modifies `ht0, `ht1, `m
      ensures Valid() && Grew() && ht0.exp == old(ht0.exp) && ht1.exp == old(ht1.exp)
      ensures m == old(m)[e.key := e.val]
    {
      hide Represents, Index;
      RepRoom(hash, ht0, ht1, m, e.key);
      if Rehashing() {
        RepSwap(hash, ht0, ht1, m);
        RepAdd(hash, ht1, ht0, m, e);
        ht1 := Push(hash, ht1, e);
        RepSwap(hash, ht1, ht0, m[e.key := e.val]);
      } else {
        RepAdd(hash, ht0, ht1, m, e);
        ht0 := Push(hash, ht0, e);
      }
      m := m[e.key := e.val];
    }

    /** dictReplace: adds the key, or overwrites the value it has. */
    method Replace(k: K, v: V) returns (added: bool)
      requires Valid() && |m| <= LONG_MAX
      modifies `ht0, `ht1, `rehashidx, `m
      ensures Valid() && Grew()
      ensures added <==> k !in old(m)
      ensures m == old(m)[k := v]
    {
      hide Represents, Index;
      if Rehashing() {
        RehashStep();
      }
      var ok := ExpandIfNeeded();
      var found, table, i, j := Locate(k);
      if !found {
        Insert(Entry(k, v));
        return true;
      }
      if table == 0 {
        RepSet(hash, ht0, ht1, m, i, j, v);
        ht0 := SetVal(ht0, i, j, v);
      } else {
        RepSwap(hash, ht0, ht1, m);
        RepSet(hash, ht1, ht0, m, i, j, v);
        ht1 := SetVal(ht1, i, j, v);
        RepSwap(hash, ht1, ht0, m[k := v]);
      }
      m := m[k := v];
      return false;
    }
  
    /** dictScan */
    method Scan(v: Word) returns (next: Word, out: seq<Entry<K, V>>)
      requires Valid()
      ensures Small() <= 63
      ensures if m == map[] then next == ZERO && out == []
              else next == Next(v, Small()) && Scanned(hash, m, Larger(), v, Small(), out)
      ensures Once(out)
    {
      hide Represents, Passed, Scanned, Index, Next, Reverse, Inc, Once;
      OnceNone<K, V>();
      RepSize(hash, ht0, ht1, m);
      RepRoomAt(hash, ht0, ht1, m, v);
      if ht0.used + ht1.used == 0 {
        return ZERO, [];
      }
      var a, cur := 0, v;
      if !Rehashing() {
        a := ht0.exp;
        out := ht0.buckets[Index(v, a)];
        ScannedTwo(hash, ht0, ht1, m, v, out, []);
        assert out + [] == out;
      } else {
        var t0, t1 := ht0, ht1;
        if t0.exp > t1.exp {
          t0, t1 := ht1, ht0;
          RepSwap(hash, ht0, ht1, m);
        }
        a := t0.exp;
        var first, rest;
        first := t0.buckets[Index(v, a)];
        RepOk(hash, t0, t1, m);
        rest, cur := ScanExpansions(hash, t1, v, a);
        ScannedTwo(hash, t0, t1, m, v, first, rest);
        out := first + rest;
      }
      NextLow(v, cur, a);
      next := Advance(cur, a);
    }
  }

  // ---------------------------------------------------------------- a whole scan

  /** A call that may come between two calls of dictScan. */
  datatype Op<K, V> =
    | OpAdd(k: K, v: V) | OpReplace(k: K, v: V) | OpFind(k: K) | OpDelete(k: K) | OpRehash(n: nat) | OpResize(size: nat)

  predicate Deletes<K(==), V>(ops: seq<Op<K, V>>, k: K) {
    exists i :: 0 <= i < |ops| && ops[i] == OpDelete(k)
  }

  predicate Adds<K(==), V>(ops: seq<Op<K, V>>, k: K) {
    exists i :: 0 <= i < |ops| && (ops[i].OpAdd? || ops[i].OpReplace?) && ops[i].k == k
  }

  /** While a scan stands at v, dictExpand is not called with a size for which a later call could miss entries. */
  predicate Allowed(v: Word, size: nat, exp: nat) {
    var e := PowerExp(size);
    e >= exp || e > BITS || OnesFirst(v[e..])
  }

  method Apply<K(==, !new), V(!new)>(d: Dict<K, V>, op: Op<K, V>, v: Word)
    requires d.Valid() && d.Small() <= BITS && OnesFirst(v[d.Small()..])
    modifies d
    ensures d.Valid() && d.Small() <= BITS && OnesFirst(v[d.Small()..])
    ensures old(d.ht0.buckets) != [] ==> d.ht0.buckets != []
    ensures forall k :: k in old(d.m) && op != OpDelete(k) ==> k in d.m
    ensures forall k :: k in d.m ==> k in old(d.m) || ((op.OpAdd? || op.OpReplace?) && op.k == k)
  {
    hide Represents, PowerExp, d.Valid, OnesFirst;
    ghost var a := d.Small();
    match op {
      case OpAdd(k, x) => var _ := d.Add(k, x);
      case OpReplace(k, x) =>
        d.Sizes();
        if d.ht0.used + d.ht1.used <= LONG_MAX { var _ := d.Replace(k, x); }
      case OpFind(k) => var _ := d.Find(k);
      case OpDelete(k) => var _ := d.Delete(k);
      case OpRehash(n) => var _ := d.Rehash(n);
      case OpResize(size) =>
        d.Sizes();
        if Allowed(v, size, d.ht0.exp) { var _ := d.Expand(size); }
    }
    d.Exponents();
    if a <= d.Small() { StillOnesFirst(v, a, d.Small()); }
  }

  lemma StillOnesFirst(v: Word, a: nat, b: nat)
    requires a <= b <= BITS && OnesFirst(v[a..])
    ensures OnesFirst(v[b..])
  {
    OnesFirstPart(v[a..], b - a, BITS - a);
    assert v[a..][b - a..BITS - a] == v[b..];
  }

  method ApplyAll<K(==, !new), V(!new)>(d: Dict<K, V>, ops: seq<Op<K, V>>, v: Word)
    requires d.Valid() && d.Small() <= BITS && OnesFirst(v[d.Small()..])
    modifies d
    ensures d.Valid() && d.Small() <= BITS && OnesFirst(v[d.Small()..])
    ensures old(d.ht0.buckets) != [] ==> d.ht0.buckets != []
    ensures forall k :: k in old(d.m) && !Deletes(ops, k) ==> k in d.m
    ensures forall k :: k in d.m ==> k in old(d.m) || Adds(ops, k)
  {
    hide Represents, d.Valid, OnesFirst;
    var i := 0;
    while i < |ops|
      invariant i <= |ops| && d.Valid() && d.Small() <= BITS && OnesFirst(v[d.Small()..])
      invariant old(d.ht0.buckets) != [] ==> d.ht0.buckets != []
      invariant forall k :: k in old(d.m) && !Deletes(ops, k) ==> k in d.m
      invariant forall k :: k in d.m ==> k in old(d.m) || Adds(ops, k)
    {
      Apply(d, ops[i], v);
      i := i + 1;
    }
  }

  /** The keys that a scan has to have reported when the cursor stands at v: those it has passed. */
  ghost predicate Covered<K(!new)>(hash: Hash<K>, live: set<K>, v: Word, seen: set<K>) {
    forall k :: k in live && Less(hash(k), v) ==> k in seen
  }

  function Keys<K(==), V>(out: seq<Entry<K, V>>): set<K> {
    set i | 0 <= i < |out| :: out[i].key
  }

  /** One call of dictScan carries the cursor on without missing a key. */
  lemma ScanProgress<K(!new), V(!new)>(hash: Hash<K>, m: map<K, V>, larger: Table<K, V>, live: set<K>, v: Word,
                                       a: nat, out: seq<Entry<K, V>>, seen: set<K>)
    requires a <= BITS && OnesFirst(v[a..]) && live <= m.Keys
    requires Scanned(hash, m, larger, v, a, out) && Covered(hash, live, v, seen)
    ensures OnesFirst(Next(v, a)[a..])
    ensures if Next(v, a) == ZERO then live <= seen + Keys(out)
            else Covered(hash, live, Next(v, a), seen + Keys(out)) && Rank(v) < Rank(Next(v, a))
  {
    hide Less, Next, Rank, TableOk, Skipped;
    CursorStep(v, v, a);
    LessRank(v, Next(v, a));
    forall k | k in live && (Next(v, a) == ZERO || Less(hash(k), Next(v, a))) ensures k in seen + Keys(out) {
      CursorStep(hash(k), v, a);
      if !Less(hash(k), v) {
        var e := Entry(k, m[k]);
        assert InClass(hash, m, v, a, e);
        if Skipped(hash, larger, v, a, e) { SkippedBefore(hash, larger, v, a, e); }
        assert Entry(k, m[k]) in out;
      }
    }
  }

  lemma OnlyPresent<K(!new), V(!new)>(hash: Hash<K>, m: map<K, V>, larger: Table<K, V>, v: Word, a: nat,
                                      out: seq<Entry<K, V>>)
    requires a <= BITS && Scanned(hash, m, larger, v, a, out)
    ensures Keys(out) <= m.Keys
  {
    hide Skipped, TableOk;
    forall k | k in Keys(out) ensures k in m {
      var i :| 0 <= i < |out| && out[i].key == k;
      assert out[i] in out;
    }
  }

  lemma NoKeys<K, V>()
    ensures Keys<K, V>([]) == {}
  {
  }

  lemma FewerCovered<K(!new)>(hash: Hash<K>, live: set<K>, live': set<K>, v: Word, seen: set<K>)
    requires Covered(hash, live, v, seen) && live' <= live
    ensures Covered(hash, live', v, seen)
  {
  }

  lemma ScanStart<K(!new)>(hash: Hash<K>, live: set<K>)
    ensures Covered(hash, live, ZERO, {})
    ensures forall a :: 0 <= a <= BITS ==> OnesFirst(ZERO[a..])
  {
    forall k | k in live ensures !Less(hash(k), ZERO) {
      NotLessZero(hash(k));
    }
  }

  /** A whole scan: dictScan is called from cursor 0 until it returns 0, and round i of other calls happens
      after the i-th call; resizes are those that the cursor allows, growing ones always. Every key that is present
      throughout is reported, and nothing that was never there; the scan ends whatever the other calls do. */
  method ScanAll<K(==, !new), V(!new)>(d: Dict<K, V>, rounds: seq<seq<Op<K, V>>>) returns (seen: set<K>, n: nat)
    requires d.Valid()
    modifies d
    ensures d.Valid() && n >= 1
    ensures forall k :: k in old(d.m) && (forall i :: 0 <= i < n - 1 && i < |rounds| ==> !Deletes(rounds[i], k))
                        ==> k in seen
    ensures forall k :: k in seen ==> k in old(d.m) || exists i :: 0 <= i < |rounds| && Adds(rounds[i], k)
  {
    hide Represents, d.Valid, Scanned, Less, Next, Covered, OnesFirst, Rank, Deletes, Adds, Keys, Pow2;
    var v := ZERO;
    seen, n := {}, 0;
    ghost var live := d.m.Keys;
    ScanStart(d.hash, live);
    d.Exponents();
    while true
      invariant d.Valid() && live <= d.m.Keys
      invariant d.Small() <= 63 && OnesFirst(v[d.Small()..])
      invariant forall k :: k in old(d.m) && (forall i :: 0 <= i < n && i < |rounds| ==> !Deletes(rounds[i], k)) ==>
                  k in live
      invariant Covered(d.hash, live, v, seen)
      invariant forall k :: k in seen || k in d.m ==>
                  k in old(d.m) || exists i :: 0 <= i < |rounds| && Adds(rounds[i], k)
      decreases Pow2(BITS) - Rank(v)
    {
      var next, out := d.Scan(v);
      n := n + 1;
      if d.m != map[] { OnlyPresent(d.hash, d.m, d.Larger(), v, d.Small(), out); } else { NoKeys<K, V>(); }
      if next == ZERO {
        if d.m != map[] {
          ScanProgress(d.hash, d.m, d.Larger(), live, v, d.Small(), out, seen);
        }
        seen := seen + Keys(out);
        return;
      }
      ScanProgress(d.hash, d.m, d.Larger(), live, v, d.Small(), out, seen);
      seen := seen + Keys(out);
      v := next;
      if n - 1 < |rounds| {
        ApplyAll(d, rounds[n - 1], v);
        ghost var was := live;
        live := live * d.m.Keys;
        FewerCovered(d.hash, was, live, v, seen);
      }
      d.Exponents();
    }
  }

  /** A scan with nothing in between, on one table or two: every entry is reported, and once. */
  method ScanOnce<K(==, !new), V(!new)>(d: Dict<K, V>) returns (all: seq<Entry<K, V>>)
    requires d.Valid()
    ensures Once(all) && forall e :: e in all <==> e.key in d.m && d.m[e.key] == e.val
  {
    hide Represents, d.Valid, Scanned, Less, Next, Within, Rank, Once, Pow2;
    d.Exponents();
    OnceNone<K, V>();
    var v := ZERO;
    all := [];
    ghost var a := d.Small();
    NoneYet(d.hash, d.m, a);
    while true
      invariant Within(v, a) && Once(all) && forall e :: e in all <==> Reached(d.hash, d.m, v, e)
      decreases Pow2(BITS) - Rank(v)
    {
      var next, out := d.Scan(v);
      if d.m != map[] {
        ReachedMore(d.hash, d.m, d.Larger(), v, a, all, out);
      } else {
        assert all + out == all;
      }
      all := all + out;
      if next == ZERO {
        return;
      }
      CursorStep(v, v, a);
      LessRank(v, next);
      v := next;
    }
  }

  /** The entries before a cursor. */
  ghost predicate Reached<K, V>(hash: Hash<K>, m: map<K, V>, v: Word, e: Entry<K, V>) {
    e.key in m && m[e.key] == e.val && Less(hash(e.key), v)
  }

  lemma NoneYet<K(!new), V(!new)>(hash: Hash<K>, m: map<K, V>, a: nat)
    requires a <= BITS
    ensures Within(ZERO, a) && forall e: Entry<K, V> :: !Reached(hash, m, ZERO, e)
  {
    forall e: Entry<K, V> ensures !Reached(hash, m, ZERO, e) {
      if e.key in m { NotLessZero(hash(e.key)); }
    }
  }

  lemma ReachedMore<K(!new), V(!new)>(hash: Hash<K>, m: map<K, V>, larger: Table<K, V>, v: Word, a: nat,
                                      all: seq<Entry<K, V>>, out: seq<Entry<K, V>>)
    requires a <= BITS && Within(v, a) && Scanned(hash, m, larger, v, a, out) && Once(all) && Once(out)
    requires forall e :: e in all <==> Reached(hash, m, v, e)
    ensures Once(all + out)
    ensures var next := Next(v, a);
            forall e :: e in all + out <==>
              if next == ZERO then e.key in m && m[e.key] == e.val else Reached(hash, m, next, e)
  {
    hide Less, Next, Within, TableOk, Skipped, Once;
    forall e: Entry<K, V> | InClass(hash, m, v, a, e)
      ensures !Skipped(hash, larger, v, a, e) && !Less(hash(e.key), v)
    {
      ClassUnreached(hash, larger, v, a, e);
    }
    forall e: Entry<K, V>
      ensures e in all + out <==>
                if Next(v, a) == ZERO then e.key in m && m[e.key] == e.val else Reached(hash, m, Next(v, a), e)
    {
      if e.key in m { CursorStep(hash(e.key), v, a); }
    }
    OnceJoin(all, out);
  }

  /** A cursor without bits above the mask skips nothing, and none of its class was reached before. */
  lemma ClassUnreached<K, V>(hash: Hash<K>, larger: Table<K, V>, v: Word, a: nat, e: Entry<K, V>)
    requires a <= BITS && Within(v, a) && TableOk(hash, larger) && hash(e.key)[..a] == v[..a]
    ensures !Skipped(hash, larger, v, a, e) && !Less(hash(e.key), v)
  {
    hide Less, In;
    var h := hash(e.key);
    LessParts([], h[..a], v[..a], h[a..], v[a..]);
    assert h == [] + h[..a] + h[a..] && v == [] + v[..a] + v[a..];
    NotLessZero(h[a..]);
    if larger.buckets != [] && a <= larger.exp {
      assert v[a..larger.exp] == v[a..][..larger.exp - a] == Fill(larger.exp - a, false);
      NumZero(larger.exp - a);
    }
  }

  /** A call of dictScan: the cursor and what was reported. */
  datatype Call = Call(at: Word, out: seq<Entry<Word, int>>)

  /** The calls of a scan from some cursor on, all over the same tables, until the cursor is 0. */
  ghost predicate Chain(m: map<Word, int>, larger: Table<Word, int>, calls: seq<Call>, end: Word) {
    forall i :: 0 <= i < |calls| ==>
      && Scanned(ITSELF, m, larger, calls[i].at, 2, calls[i].out)
      && Next(calls[i].at, 2) == if i + 1 < |calls| then calls[i + 1].at else end
  }

  ghost predicate Reports(calls: seq<Call>, k: Word) {
    exists i :: 0 <= i < |calls| && k in Keys(calls[i].out)
  }

  /** A table of 16 buckets is shrunk to 4 when the scan stands at 8. The call that comes next starts in the old table
      at bucket 8, so bucket 4 is not visited, neither now nor later: a key that is there all the time is missed. */
  method ShrunkScan() returns (d: Dict<Word, int>, k: Word, first: Call, calls: seq<Call>)
    ensures fresh(d) && d.Valid() && d.m == map[k := 0] && d.ht0.exp == 4 && d.ht1 == NewTable(2) && d.Rehashing()
    ensures first.at == ZERO && Scanned(ITSELF, d.m, NoTable(), ZERO, 4, first.out)
    ensures calls != [] && calls[0].at == Next(ZERO, 4) && Chain(d.m, d.ht0, calls, ZERO)
    ensures !Reports([first] + calls, k)
  {
    hide Represents, d.Valid, Scanned, Less, Next, Within, Rank, PowerExp, Pow2, Keys, Chain, Reports;
    d, k := SixteenBuckets();
    assert k in d.m;
    var v, out := d.Scan(ZERO);
    first := Call(ZERO, out);
    FirstCall(d.m, d.Larger(), k, out);
    SmallPowers<Word, int>();
    var ok := d.Expand(4);
    Moving(d, k);
    var next;
    next, out := d.Scan(v);
    SecondCall(d.m, d.ht0, k, out);
    calls := [Call(v, out)];
    ChainOne(d.m, d.ht0, v, out);
    ReportsOne(first, calls[0], k);
    v := next;
    while v != ZERO
      invariant d.Valid() && d.m == map[k := 0] && k in d.m && d.hash == ITSELF
      invariant d.Rehashing() && d.ht0.exp == 4 && d.ht1 == NewTable(2)
      invariant calls != [] && calls[0].at == Next(ZERO, 4) && Chain(d.m, d.ht0, calls, v)
      invariant !Reports([first] + calls, k)
      invariant v != ZERO ==> Within(v, 2) && Less(k, v)
      decreases v != ZERO, Pow2(BITS) - Rank(v)
    {
      next, out := d.Scan(v);
      LaterCall(d.m, d.Larger(), k, v, out);
      ChainSnoc(d.m, d.ht0, calls, v, out);
      ReportsSnoc([first] + calls, Call(v, out), k);
      assert [first] + calls + [Call(v, out)] == [first] + (calls + [Call(v, out)]);
      calls, v := calls + [Call(v, out)], next;
    }
  }

  lemma ChainOne(m: map<Word, int>, larger: Table<Word, int>, v: Word, out: seq<Entry<Word, int>>)
    requires Scanned(ITSELF, m, larger, v, 2, out)
    ensures Chain(m, larger, [Call(v, out)], Next(v, 2))
  {
    hide Scanned, Next;
  }

  lemma ChainSnoc(m: map<Word, int>, larger: Table<Word, int>, calls: seq<Call>, v: Word, out: seq<Entry<Word, int>>)
    requires Chain(m, larger, calls, v) && Scanned(ITSELF, m, larger, v, 2, out)
    ensures Chain(m, larger, calls + [Call(v, out)], Next(v, 2))
  {
    hide Scanned, Next;
    var more := calls + [Call(v, out)];
    assert forall i :: 0 <= i < |calls| ==> more[i] == calls[i];
    forall i | 0 <= i < |more|
      ensures Scanned(ITSELF, m, larger, more[i].at, 2, more[i].out)
      ensures Next(more[i].at, 2) == if i + 1 < |more| then more[i + 1].at else Next(v, 2)
    {
      if i < |calls| { assert more[i] == calls[i]; }
    }
  }

  lemma ReportsOne(a: Call, b: Call, k: Word)
    requires k !in Keys(a.out) && k !in Keys(b.out)
    ensures !Reports([a] + [b], k)
  {
    hide Keys;
  }

  lemma ReportsSnoc(calls: seq<Call>, c: Call, k: Word)
    requires !Reports(calls, k) && k !in Keys(c.out)
    ensures !Reports(calls + [c], k)
  {
    hide Keys;
  }

  const ITSELF: Hash<Word> := (w: Word) => w

  const FOUR: Word := Fill(2, false) + [true] + Fill(61, false)
  const EIGHT: Word := Fill(3, false) + [true] + Fill(60, false)

  method SixteenBuckets() returns (d: Dict<Word, int>, k: Word)
    ensures fresh(d) && d.Valid() && d.m == map[k := 0] && d.hash == ITSELF && k == FOUR
    ensures !d.Rehashing() && d.ht0.exp == 4 && d.ht0.used == 1 && d.ht0.buckets != [] && d.ht1 == NoTable()
  {
    hide Represents, d.Valid, Pow2, PowerExp;
    k := FOUR;
    d := new Dict(ITSELF);
    SmallPowers<Word, int>();
    var ok := d.Expand(16);
    ok := d.Add(k, 0);
    Settled(d);
  }

  lemma Settled<K(!new), V(!new)>(d: Dict<K, V>)
    requires d.Valid() && !d.Rehashing()
    ensures d.ht0.used == |d.m| && (d.m != map[] ==> d.ht0.buckets != []) && d.ht1 == NoTable()
  {
    d.Sizes();
  }

  lemma SmallPowers<K, V>()
    ensures PowerExp(16) == 4 && PowerExp(4) == 2
    ensures |NewTable<K, V>(4).buckets| == 16 && NewTable<K, V>(4).used == 0 && NewTable<K, V>(4).exp == 4
  {
    LongMax();
    assert Pow2(2) == 4 && Pow2(3) == 8 && Pow2(4) == 16;
    LeastStep(16, 2);
    LeastStep(16, 3);
    LeastStep(16, 4);
    LeastStep(4, 2);
  }

  lemma Moving(d: Dict<Word, int>, k: Word)
    requires d.Valid() && d.Rehashing() && d.ht1 == NewTable(2) && d.m == map[k := 0] && d.hash == ITSELF
    ensures TableOk(ITSELF, d.ht0) && In(ITSELF, d.ht0, Entry(k, 0))
  {
    hide TableOk, In;
    NewTableOk<Word, int>(ITSELF, 2);
  }

  lemma FirstCall(m: map<Word, int>, larger: Table<Word, int>, k: Word, out: seq<Entry<Word, int>>)
    requires k == FOUR && Scanned(ITSELF, m, larger, ZERO, 4, out)
    ensures Next(ZERO, 4) == EIGHT && k !in Keys(out)
  {
    hide Next, Skipped, TableOk;
    NextIs(ZERO, 4);
    UpSnoc(Fill(3, false), false);
    assert Fill(3, false) + [false] == ZERO[..4];
    assert Fill(3, false) + [true] + Fill(60, false) == EIGHT;
    assert k[..4][2] && !ZERO[..4][2];
    Unseen(k, out);
  }

  lemma Unseen(k: Word, out: seq<Entry<Word, int>>)
    requires forall e :: e in out ==> e.key != k
    ensures k !in Keys(out)
  {
  }

  lemma SecondCall(m: map<Word, int>, t: Table<Word, int>, k: Word, out: seq<Entry<Word, int>>)
    requires k == FOUR && m == map[k := 0] && Scanned(ITSELF, m, t, EIGHT, 2, out)
    requires t.exp == 4 && t.buckets != [] && In(ITSELF, t, Entry(k, 0))
    ensures k !in Keys(out)
    ensures Within(Next(EIGHT, 2), 2) && (Next(EIGHT, 2) != ZERO ==> Less(k, Next(EIGHT, 2)))
  {
    hide Next, TableOk, In, Less, Num;
    assert k[..2] == EIGHT[..2];
    CursorStep(k, EIGHT, 2);
    assert k[2..4] == [true, false] && EIGHT[2..4] == [false, true];
    TwoBits();
    assert Skipped(ITSELF, t, EIGHT, 2, Entry(k, 0));
    forall e | e in out ensures e.key != k {
      assert e == Entry(e.key, e.val);
    }
    Unseen(k, out);
  }

  lemma TwoBits()
    ensures Num([true, false]) == 1 && Num([false, true]) == 2
  {
    assert [true, false][1..] == [false] && [false, true][1..] == [true];
    assert Num([false]) == 0 && Num([true]) == 1;
  }

  lemma LaterCall(m: map<Word, int>, larger: Table<Word, int>, k: Word, v: Word, out: seq<Entry<Word, int>>)
    requires Scanned(ITSELF, m, larger, v, 2, out) && Within(v, 2) && Less(k, v)
    ensures k !in Keys(out)
    ensures var v' := Next(v, 2); Within(v', 2) && (v' != ZERO ==> Less(k, v') && Rank(v) < Rank(v'))
  {
    hide Next, Skipped, TableOk, Less, Rank;
    CursorStep(k, v, 2);
    CursorStep(v, v, 2);
    LessRank(v, Next(v, 2));
    LessParts([], k[..2], v[..2], k[2..], v[2..]);
    assert k == [] + k[..2] + k[2..] && v == [] + v[..2] + v[2..];
    NotLessZero(k[2..]);
    Unseen(k, out);
  }
}
