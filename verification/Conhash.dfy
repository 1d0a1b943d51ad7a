/**
 * conhash.c and conhash_inter.c: consistent hashing over the red-black tree of
 * virtual nodes.  The hash function and the naming of virtual nodes are parameters.
 */
module Conhash {
  import opened RedBlack
  import opened Entries
  import RbTree
  import RbMemory

  class Server {
    const iden: string
    const replicas: nat
    var init: bool
    var isIn: bool

    // conhash_set_node
    constructor(iden: string, replicas: nat)
      ensures this.iden == iden && this.replicas == replicas && init && !isIn
    {
      this.iden, this.replicas, init, isIn := iden, replicas, true, false;
    }
  }

  // h is the place on the ring of a key: the least one at or after it, else the least of all.
  ghost predicate Home(ring: map<int, Server>, k: int, h: int) {
    h in ring &&
    if h >= k then forall g :: g in ring && g >= k ==> h <= g
    else forall g :: g in ring ==> g < k && h <= g
  }

  // The ring without one server's virtual nodes.
  ghost function Rest(ring: map<int, Server>, s: Server): map<int, Server> {
    map k | k in ring && ring[k] != s :: ring[k]
  }

  // Nothing changes hands, and what is new belongs to s.
  ghost predicate Gained(ring: map<int, Server>, ring': map<int, Server>, s: Server) {
    (forall k :: k in ring ==> k in ring' && ring'[k] == ring[k]) &&
    forall k :: k in ring' && k !in ring ==> ring'[k] == s
  }

  lemma GainedIs(ring: map<int, Server>, ring': map<int, Server>, s: Server)
    ensures Gained(ring, ring, s)
    ensures Gained(ring, ring', s) ==>
              (forall k :: k in ring ==> k in ring' && ring'[k] == ring[k]) &&
              forall k :: k in ring' && k !in ring ==> ring'[k] == s
  {}

  lemma GainedMore(ring: map<int, Server>, mid: map<int, Server>, ring': map<int, Server>, s: Server, k: int)
    requires Gained(ring, mid, s) && (ring' == mid || (k !in mid && ring' == mid[k := s]))
    ensures Gained(ring, ring', s) && forall g :: g in mid ==> g in ring'
  {}

  lemma GainedLess(ring: map<int, Server>, mid: map<int, Server>, ring': map<int, Server>, s: Server, k: int)
    requires Gained(mid, ring, s) && (ring' == mid || (k in mid && mid[k] == s && ring' == mid - {k}))
    ensures Gained(ring', ring, s) && forall g :: g in ring' ==> g in mid && ring'[g] == mid[g]
  {}

  lemma HomeUnique(ring: map<int, Server>, k: int, h: int, g: int)
    requires Home(ring, k, h) && Home(ring, k, g)
    ensures h == g
  {}

  // More virtual nodes of one server: a key stays at home or moves to that server.
  lemma AddMoves(ring: map<int, Server>, ring': map<int, Server>, s: Server, k: int, h: int, h': int)
    requires forall g :: g in ring ==> g in ring' && ring'[g] == ring[g]
    requires forall g :: g in ring' && g !in ring ==> ring'[g] == s
    requires Home(ring, k, h) && Home(ring', k, h')
    ensures ring'[h'] == s || (h' == h && ring'[h'] == ring[h])
  {
    if h' in ring { assert Home(ring, k, h'); HomeUnique(ring, k, h, h'); }
  }

  // All virtual nodes of one server gone: a key that was not there stays at home.
  lemma DeleteMoves(ring: map<int, Server>, ring': map<int, Server>, s: Server, k: int, h: int)
    requires ring' == Rest(ring, s)
    requires Home(ring, k, h) && ring[h] != s
    ensures Home(ring', k, h) && ring'[h] == ring[h]
  {}

  lemma Purged(ring: map<int, Server>, ring': map<int, Server>, s: Server)
    requires forall k :: k in ring' ==> k in ring && ring'[k] == ring[k] && ring'[k] != s
    requires forall k :: k in ring && k !in ring' ==> ring[k] == s
    ensures ring' == Rest(ring, s)
  {
    var r := Rest(ring, s);
    assert forall k :: k in ring' <==> k in r;
    assert forall k :: k in ring' ==> ring'[k] == r[k];
    assert ring' == r;
  }

  // A server that had no virtual nodes comes and goes without a trace.
  lemma AddThenDelete(ring: map<int, Server>, ring': map<int, Server>, s: Server)
    requires forall k :: k in ring ==> k in ring' && ring'[k] == ring[k] && ring[k] != s
    requires forall k :: k in ring' && k !in ring ==> ring'[k] == s
    ensures Rest(ring', s) == ring
  {
    var r := Rest(ring', s);
    assert forall k :: k in ring <==> k in r;
    assert forall k :: k in ring ==> ring[k] == r[k];
    assert ring == r;
  }

  predicate Strict(s: seq<Entry>) { forall i, j :: 0 <= i < j < |s| ==> s[i].key < s[j].key }

  lemma {:induction false} PlacedStrict(s: seq<Entry>, e: Entry)
    requires Strict(s) && forall x :: x in s ==> x.key != e.key
    ensures Strict(Placed(s, e))
  {
    if s != [] && e.key >= s[0].key {
      PlacedStrict(s[1..], e);
      var r := Placed(s[1..], e);
      forall i | 0 <= i < |r|
        ensures s[0].key < r[i].key
      { PlacedHas(s[1..], e, r[i]); }
    }
  }

  lemma {:induction false} WithoutHas(s: seq<Entry>, id: int, x: Entry)
    ensures x in Without(s, id) <==> x in s && x.id != id
  {
    if s != [] { WithoutHas(s[1..], id, x); }
  }

  lemma {:induction false} WithoutStrict(s: seq<Entry>, id: int)
    requires Strict(s)
    ensures Strict(Without(s, id))
  {
    if s != [] {
      WithoutStrict(s[1..], id);
      var r := Without(s[1..], id);
      forall i | 0 <= i < |r|
        ensures s[0].key < r[i].key
      { WithoutHas(s[1..], id, r[i]); }
    }
  }

  datatype VNode = VNode(hash: int, owner: Server)

  ghost predicate HasKey(s: seq<Entry>, k: int) { exists e :: e in s && e.key == k }

  // The tree's entries, the virtual nodes behind them, and the ring they stand for.
  ghost predicate Agrees(s: seq<Entry>, v: map<int, VNode>, ring: map<int, Server>) {
    Strict(s) &&
    (forall e :: e in s ==> e.id in v && v[e.id].hash == e.key && e.key in ring && ring[e.key] == v[e.id].owner) &&
    (forall k :: k in ring ==> HasKey(s, k))
  }

  lemma AgreesAdd(s: seq<Entry>, v: map<int, VNode>, ring: map<int, Server>, e: Entry, o: Server)
    requires Agrees(s, v, ring) && !HasKey(s, e.key) && forall x :: x in s ==> x.id != e.id
    ensures Agrees(Placed(s, e), v[e.id := VNode(e.key, o)], ring[e.key := o])
    ensures e.key !in ring
  {
    hide Placed, Strict;
    PlacedStrict(s, e);
    forall x: Entry ensures x in Placed(s, e) <==> x == e || x in s { PlacedHas(s, e, x); }
    var t := Placed(s, e);
    assert e in t;
    forall k | k in ring
      ensures HasKey(t, k)
    {
      var x :| x in s && x.key == k;
      assert x in t;
    }
    assert HasKey(t, e.key);
  }

  lemma AgreesDelete(s: seq<Entry>, v: map<int, VNode>, ring: map<int, Server>, e: Entry)
    requires Agrees(s, v, ring) && e in s
    ensures Agrees(Without(s, e.id), v - {e.id}, ring - {e.key})
  {
    hide Without;
    WithoutStrict(s, e.id);
    forall x: Entry ensures x in Without(s, e.id) <==> x in s && x.id != e.id { WithoutHas(s, e.id, x); }
    var t := Without(s, e.id);
    forall x | x in t
      ensures x.key != e.key
    { if x.key == e.key { SameKey(s, x, e); } }
    forall k | k in ring - {e.key}
      ensures HasKey(t, k)
    {
      var x :| x in s && x.key == k;
      assert x.id != e.id;
      assert x in t;
    }
  }

  lemma SameKey(s: seq<Entry>, x: Entry, y: Entry)
    requires Strict(s) && x in s && y in s && x.key == y.key
    ensures x == y
  {
    var i :| 0 <= i < |s| && s[i] == x;
    var j :| 0 <= j < |s| && s[j] == y;
  }

  lemma SuccessorHome(s: seq<Entry>, v: map<int, VNode>, ring: map<int, Server>, k: int)
    requires Agrees(s, v, ring) && s != []
    ensures Home(ring, k, Successor(s, k).key) && Successor(s, k) in s
  {
    hide Successor;
    SuccessorIs(s, k);
    var e := Successor(s, k);
    forall g | g in ring && g >= k
      ensures e.key >= k && e.key <= g
    { var x :| x in s && x.key == g; }
    if e.key < k {
      forall g | g in ring
        ensures g < k && e.key <= g
      { var x :| x in s && x.key == g; }
    }
  }

  class Conhash {
    const hash: string -> int
    const naming: (string, nat) -> string
    const tree: RbTree.RbTree
    var ivnodes: int
    var vnodes: map<int, VNode>
    // The ring: which server owns each place.
    ghost var ring: map<int, Server>

    // The place of a server's virtual node.
    function Spot(s: Server, i: nat): int { hash(naming(s.iden, i)) }

    ghost predicate Named(k: int, s: Server, n: nat) { exists i: nat :: i < n && Spot(s, i) == k }

    ghost predicate Valid() reads this, tree {
      tree.Valid() && ivnodes == tree.size && Agrees(Inorder(tree.tree), vnodes, ring) &&
      forall k :: k in ring ==> Named(k, ring[k], ring[k].replicas)
    }

    constructor(hash: string -> int, naming: (string, nat) -> string)
      ensures Valid() && ring == map[] && ivnodes == 0 && this.hash == hash && this.naming == naming && fresh(tree)
    {
      this.hash, this.naming := hash, naming;
      ivnodes, vnodes, ring := 0, map[], map[];
      tree := new RbTree.RbTree();
    }

    method AddReplica(s: Server, i: nat, lost: bool)
      requires Valid() && i < s.replicas
      modifies this, tree
      ensures Valid()
      ensures ring == if Spot(s, i) in old(ring) || lost then old(ring) else old(ring)[Spot(s, i) := s]
    {
      hide Inorder, Agrees, Placed;
      var k := Spot(s, i);
      var found := tree.Search(k);
      KeyKnown(k);
      if found == RbMemory.NULL && !lost {
        var n := tree.Alloc(k);
        NewEntry(n);
        var _ := tree.Insert(n);
        AgreesAdd(old(Inorder(tree.tree)), vnodes, ring, Entry(k, n), s);
        vnodes := vnodes[n := VNode(k, s)];
        ring := ring[k := s];
        ivnodes := ivnodes + 1;
        assert Named(k, s, s.replicas);
      }
    }

    lemma KeyKnown(k: int)
      requires Valid()
      ensures k in ring <==> HasKey(Inorder(tree.tree), k)
    {}

    lemma NewEntry(n: int)
      requires n !in Ids(tree.tree)
      ensures forall x :: x in Inorder(tree.tree) ==> x.id != n
    {
      forall x | x in Inorder(tree.tree) ensures x.id in Ids(tree.tree) { InorderIds(tree.tree, x); }
    }

    method DeleteReplica(s: Server, i: nat)
      requires Valid()
      modifies this, tree
      ensures Valid()
      ensures ring == if Spot(s, i) in old(ring) && old(ring)[Spot(s, i)] == s then old(ring) - {Spot(s, i)}
                      else old(ring)
    {
      hide Inorder, Agrees, Without;
      var k := Spot(s, i);
      var found := tree.Search(k);
      KeyKnown(k);
      if found != RbMemory.NULL {
        EntryKnown(Entry(k, found));
        if vnodes[found].hash == k && vnodes[found].owner == s {
          ivnodes := ivnodes - 1;
          tree.Delete(found);
          AgreesDelete(old(Inorder(tree.tree)), vnodes, ring, Entry(k, found));
          vnodes := vnodes - {found};
          ring := ring - {k};
        }
      }
    }

    lemma EntryKnown(e: Entry)
      requires Valid() && e in Inorder(tree.tree)
      ensures e.id in vnodes && vnodes[e.id].hash == e.key && e.key in ring && vnodes[e.id].owner == ring[e.key]
      ensures e.id in Ids(tree.tree) && e.id > 0
    {
      InorderIds(tree.tree, e);
      RbMemory.LaidIds(tree.cells, tree.tree, tree.top);
    }

    // All virtual nodes of s whose places are free; lost are those that could not be allocated.
    method AddNode(s: Server?, lost: set<nat>) returns (ok: int)
      requires Valid()
      modifies this, tree, s
      ensures Valid()
      ensures ok == if s != null && old(s.init && !s.isIn) then 0 else -1
      ensures ok == -1 ==> ring == old(ring)
      ensures forall k :: k in old(ring) ==> k in ring && ring[k] == old(ring)[k]
      ensures forall k :: k in ring && k !in old(ring) ==> ok == 0 && ring[k] == s
      ensures s != null ==> s.init == old(s.init)
      ensures ok == 0 ==> s.isIn && forall i: nat :: i < s.replicas && i !in lost ==> Spot(s, i) in ring
    {
      hide Agrees, RbTree.RbTree.Valid, Gained;
      if s == null || !s.init || s.isIn { return -1; }
      GainedIs(ring, ring, s);
      s.isIn := true;
      var i := 0;
      while i < s.replicas
        invariant i <= s.replicas && Valid() && s.isIn && s.init
        invariant Gained(old(ring), ring, s)
        invariant forall j: nat :: j < i && j !in lost ==> Spot(s, j) in ring
      {
        ghost var before := ring;
        AddReplica(s, i, i in lost);
        GainedMore(old(ring), before, ring, s, Spot(s, i));
        i := i + 1;
      }
      GainedIs(old(ring), ring, s);
      return 0;
    }

    // All virtual nodes of s.
    method DeleteNode(s: Server?) returns (ok: int)
      requires Valid()
      modifies this, tree, s
      ensures Valid()
      ensures ok == if s != null && old(s.init && s.isIn) then 0 else -1
      ensures ok == -1 ==> ring == old(ring)
      ensures s != null ==> s.init == old(s.init)
      ensures ok == 0 ==> !s.isIn && ring == Rest(old(ring), s)
    {
      hide Agrees, Rest, RbTree.RbTree.Valid, Gained;
      if s == null || !s.init || !s.isIn { return -1; }
      GainedIs(ring, ring, s);
      s.isIn := false;
      var i := 0;
      while i < s.replicas
        invariant i <= s.replicas && Valid() && !s.isIn && s.init
        invariant Gained(ring, old(ring), s)
        invariant forall j: nat :: j < i && Spot(s, j) in ring ==> ring[Spot(s, j)] != s
      {
        ghost var before := ring;
        DeleteReplica(s, i);
        GainedLess(old(ring), before, ring, s, Spot(s, i));
        i := i + 1;
      }
      GainedIs(ring, old(ring), s);
      AllGone(s);
      Purged(old(ring), ring, s);
      return 0;
    }

    lemma AllGone(s: Server)
      requires Valid() && forall j: nat :: j < s.replicas && Spot(s, j) in ring ==> ring[Spot(s, j)] != s
      ensures forall k :: k in ring ==> ring[k] != s
    {
      hide Agrees;
      forall k | k in ring
        ensures ring[k] != s
      {
        assert Named(k, ring[k], ring[k].replicas);
      }
    }

    // The server at home for an object; home is its place.
    method Lookup(item: string) returns (r: Server?, ghost home: int)
      requires Valid()
      ensures r == null <==> ring == map[]
      ensures r != null ==> Home(ring, hash(item), home) && r == ring[home]
    {
      hide Inorder, Agrees, Successor, Home;
      RingEmpty();
      home := 0;
      if ivnodes == 0 { return null, 0; }
      var n := tree.Lookup(hash(item));
      TreeFull();
      SuccessorHome(Inorder(tree.tree), vnodes, ring, hash(item));
      home := Successor(Inorder(tree.tree), hash(item)).key;
      EntryKnown(Successor(Inorder(tree.tree), hash(item)));
      r := vnodes[n].owner;
    }

    lemma RingEmpty()
      requires Valid()
      ensures ivnodes == 0 <==> ring == map[]
    {
      var s := Inorder(tree.tree);
      if s == [] {
        assert forall k :: k in ring ==> HasKey(s, k);
        assert forall k :: k !in ring;
        assert ring == map[];
      } else {
        assert s[0] in s;
      }
    }

    lemma TreeFull()
      requires Valid() && ivnodes != 0
      ensures tree.tree.Node? && Inorder(tree.tree) != []
    {}
  }

  // What a lookup has to find.
  ghost predicate Found(ring: map<int, Server>, k: int, r: Server?) {
    if r == null then ring == map[] else exists h :: Home(ring, k, h) && ring[h] == r
  }

  lemma FoundAt(ring: map<int, Server>, k: int, r: Server?, h: int)
    requires r == null <==> ring == map[]
    requires r != null ==> Home(ring, k, h) && ring[h] == r
    ensures Found(ring, k, r)
  {}

  // A lookup on both sides of an addition: the same server, or the one added.
  method LookupAroundAdd(c: Conhash, s: Server, lost: set<nat>, item: string) returns (before: Server?, after: Server?)
    requires c.Valid()
    modifies c, c.tree, s
    ensures c.Valid()
    ensures Found(old(c.ring), c.hash(item), before) && Found(c.ring, c.hash(item), after)
    ensures if old(s.init && !s.isIn) then forall i: nat :: i < s.replicas && i !in lost ==> c.Spot(s, i) in c.ring
            else c.ring == old(c.ring)
    ensures after == before || after == s
    ensures !old(s.init && !s.isIn) ==> after == before
  {
    hide Conhash.Valid, Home, Found;
    ghost var h, h';
    before, h := c.Lookup(item);
    ghost var ring := c.ring;
    var ok := c.AddNode(s, lost);
    after, h' := c.Lookup(item);
    if before != null && after != null {
      AddMoves(ring, c.ring, s, c.hash(item), h, h');
    } else if after != null {
      HomeIn(c.ring, c.hash(item), h');
    } else {
      SameRing(ring, c.ring);
    }
    if ok == -1 && before != null { HomeUnique(ring, c.hash(item), h, h'); }
    FoundAt(ring, c.hash(item), before, h);
    FoundAt(c.ring, c.hash(item), after, h');
  }

  // A lookup on both sides of a deletion: the same server, unless it was the one deleted.
  method LookupAroundDelete(c: Conhash, s: Server, item: string) returns (before: Server?, after: Server?)
    requires c.Valid()
    modifies c, c.tree, s
    ensures c.Valid()
    ensures Found(old(c.ring), c.hash(item), before) && Found(c.ring, c.hash(item), after)
    ensures c.ring == if old(s.init && s.isIn) then Rest(old(c.ring), s) else old(c.ring)
    ensures before != s || !old(s.init && s.isIn) ==> after == before
    ensures old(s.init && s.isIn) ==> after != s
  {
    hide Conhash.Valid, Home, Rest, Found;
    ghost var h, h';
    before, h := c.Lookup(item);
    ghost var ring := c.ring;
    var ok := c.DeleteNode(s);
    after, h' := c.Lookup(item);
    if after != null { HomeIn(c.ring, c.hash(item), h'); }
    if ok == 0 {
      RestIs(ring, s);
      if before != null && before != s {
        DeleteMoves(ring, c.ring, s, c.hash(item), h);
        HomeIn(c.ring, c.hash(item), h);
        HomeUnique(c.ring, c.hash(item), h, h');
      }
    } else if before != null {
      HomeUnique(ring, c.hash(item), h, h');
    }
    FoundAt(ring, c.hash(item), before, h);
    FoundAt(c.ring, c.hash(item), after, h');
  }

  // A server that owns nothing is added and deleted again: the ring is what it was.
  method AddAndDelete(c: Conhash, s: Server, lost: set<nat>)
    requires c.Valid() && s.init && !s.isIn && forall k :: k in c.ring ==> c.ring[k] != s
    modifies c, c.tree, s
    ensures c.Valid() && c.ring == old(c.ring) && !s.isIn
  {
    hide Conhash.Valid, Rest;
    var added := c.AddNode(s, lost);
    ghost var ring := c.ring;
    var deleted := c.DeleteNode(s);
    AddThenDelete(old(c.ring), ring, s);
  }

  lemma HomeIn(ring: map<int, Server>, k: int, h: int)
    requires Home(ring, k, h)
    ensures h in ring
  {}

  lemma RestIs(ring: map<int, Server>, s: Server)
    ensures forall k :: k in Rest(ring, s) ==> k in ring && Rest(ring, s)[k] == ring[k] != s
    ensures ring == map[] ==> Rest(ring, s) == map[]
  {}

  lemma SameRing(ring: map<int, Server>, ring': map<int, Server>)
    requires forall k :: k in ring ==> k in ring'
    ensures ring' == map[] ==> ring == map[]
  {
    if ring' == map[] { assert forall k :: k !in ring; assert ring == map[]; }
  }
}
