/**
 * In-order sequences of keyed nodes: sortedness, the place of a new entry, and
 * the successor that a lookup must return.
 */
module Entries {
  import opened RedBlack

  predicate Sorted(s: seq<Entry>) {
    forall i, j :: 0 <= i < j < |s| ==> s[i].key <= s[j].key
  }

  predicate AllBelow(s: seq<Entry>, k: int) { forall i :: 0 <= i < |s| ==> s[i].key < k }
  predicate AllAtMost(s: seq<Entry>, k: int) { forall i :: 0 <= i < |s| ==> s[i].key <= k }
  predicate AllAbove(s: seq<Entry>, k: int) { forall i :: 0 <= i < |s| ==> k < s[i].key }

  // The entry goes behind every entry with the same or a smaller key.
  function Placed(s: seq<Entry>, e: Entry): seq<Entry> {
    if s == [] || e.key < s[0].key then [e] + s else [s[0]] + Placed(s[1..], e)
  }

  lemma {:induction false} PlacedAt(pre: seq<Entry>, post: seq<Entry>, e: Entry)
    requires AllAtMost(pre, e.key) && AllAbove(post, e.key)
    ensures Placed(pre + post, e) == pre + [e] + post
  {
    if pre == [] {
      assert pre + post == post;
      assert [e] + post == pre + [e] + post;
    } else {
      assert (pre + post)[1..] == pre[1..] + post;
      PlacedAt(pre[1..], post, e);
      assert [pre[0]] + (pre[1..] + [e] + post) == pre + [e] + post;
    }
  }

  lemma {:induction false} PlacedSorted(s: seq<Entry>, e: Entry)
    requires Sorted(s)
    ensures Sorted(Placed(s, e)) && |Placed(s, e)| == |s| + 1
    ensures s != [] ==> Placed(s, e)[0].key == if e.key < s[0].key then e.key else s[0].key
    ensures s == [] ==> Placed(s, e)[0].key == e.key
  {
    if s != [] && e.key >= s[0].key {
      PlacedSorted(s[1..], e);
      var r := Placed(s[1..], e);
      assert forall i :: 0 < i < |r| ==> r[0].key <= r[i].key;
    }
  }

  lemma {:induction false} PlacedHas(s: seq<Entry>, e: Entry, x: Entry)
    ensures x in Placed(s, e) <==> x == e || x in s
  {
    if s != [] && e.key >= s[0].key { PlacedHas(s[1..], e, x); }
  }

  // The first entry at or after k, in order, else the very first one.
  function Successor(s: seq<Entry>, k: int): Entry
    requires s != []
  { if exists i :: 0 <= i < |s| && s[i].key >= k then FirstFrom(s, k) else s[0] }

  function FirstFrom(s: seq<Entry>, k: int): Entry
    requires s != []
  { if s[0].key >= k || |s| == 1 then s[0] else FirstFrom(s[1..], k) }

  lemma {:induction false} SuccessorAt(pre: seq<Entry>, post: seq<Entry>, k: int)
    requires AllBelow(pre, k) && post != [] && post[0].key >= k
    ensures Successor(pre + post, k) == post[0]
  {
    var s := pre + post;
    assert s[|pre|] == post[0];
    FirstFromAt(pre, post, k);
  }

  lemma {:induction false} FirstFromAt(pre: seq<Entry>, post: seq<Entry>, k: int)
    requires AllBelow(pre, k) && post != [] && post[0].key >= k
    ensures FirstFrom(pre + post, k) == post[0]
  {
    if pre != [] {
      assert (pre + post)[1..] == pre[1..] + post;
      FirstFromAt(pre[1..], post, k);
    }
  }

  // What the successor is: the owner of the least key at or after k, else of the least key.
  lemma {:induction false} SuccessorIs(s: seq<Entry>, k: int)
    requires s != [] && Sorted(s)
    ensures Successor(s, k) in s
    ensures forall e :: e in s && e.key >= k ==> Successor(s, k).key >= k && Successor(s, k).key <= e.key
    ensures (forall e :: e in s ==> e.key < k) ==> forall e :: e in s ==> Successor(s, k).key <= e.key
  {
    if i :| 0 <= i < |s| && s[i].key >= k {
      FirstFromIs(s, k, i);
    }
  }

  lemma {:induction false} FirstFromIs(s: seq<Entry>, k: int, i: int)
    requires 0 <= i < |s| && s[i].key >= k && Sorted(s)
    ensures FirstFrom(s, k) in s && FirstFrom(s, k).key >= k
    ensures forall e :: e in s && e.key >= k ==> FirstFrom(s, k).key <= e.key
  {
    if s[0].key < k {
      FirstFromIs(s[1..], k, i - 1);
    }
  }

  // The sequence without the entry of one node.
  function Without(s: seq<Entry>, id: int): seq<Entry> {
    if s == [] then [] else (if s[0].id == id then [] else [s[0]]) + Without(s[1..], id)
  }

  lemma {:induction false} WithoutNone(s: seq<Entry>, id: int)
    requires forall e :: e in s ==> e.id != id
    ensures Without(s, id) == s
  {
    if s != [] { WithoutNone(s[1..], id); }
  }

  lemma {:induction false} WithoutAt(a: seq<Entry>, e: Entry, b: seq<Entry>)
    requires forall x :: x in a || x in b ==> x.id != e.id
    ensures Without(a + [e] + b, e.id) == a + b
  {
    if a == [] {
      WithoutNone(b, e.id);
      assert (a + [e] + b)[1..] == b;
      assert a + b == b;
    } else {
      assert (a + [e] + b)[1..] == a[1..] + [e] + b;
      WithoutAt(a[1..], e, b);
      assert [a[0]] + (a[1..] + b) == a + b;
    }
  }

  lemma SortedWithout(a: seq<Entry>, e: Entry, b: seq<Entry>)
    requires Sorted(a + [e] + b)
    ensures Sorted(a + b)
  {
    var s, t := a + [e] + b, a + b;
    forall i, j | 0 <= i < j < |t|
      ensures t[i].key <= t[j].key
    {
      var i', j' := if i < |a| then i else i + 1, if j < |a| then j else j + 1;
      assert t[i] == s[i'] && t[j] == s[j'];
    }
  }

  // Taking one entry e out of the middle, between p + l and r + q.
  lemma RemovedEntry(p: seq<Entry>, l: seq<Entry>, e: Entry, r: seq<Entry>, q: seq<Entry>)
    requires forall x :: x in p || x in l || x in r || x in q ==> x.id != e.id
    ensures Without(p + (l + [e] + r) + q, e.id) == p + (l + r) + q
    ensures Sorted(p + (l + [e] + r) + q) ==> Sorted(p + (l + r) + q)
  {
    Group(p, l, [e], r, q);
    Group(p, l, [], r, q);
    assert l + [] == l && (p + l) + [] == p + l;
    WithoutAt(p + l, e, r + q);
    if Sorted(p + (l + [e] + r) + q) { SortedWithout(p + l, e, r + q); }
  }

  lemma Group(p: seq<Entry>, l: seq<Entry>, m: seq<Entry>, r: seq<Entry>, q: seq<Entry>)
    ensures p + (l + m + r) + q == (p + l) + m + (r + q)
  {}

  // A tree from which one node has gone, its subtrees kept in order.
  lemma RemovedNode(c: Ctx, t: Tree, u: Tree)
    requires t.Node? && Apart(c, t) && Inorder(u) == Inorder(t.left) + Inorder(t.right)
    ensures Inorder(Plug(c, u)) == Without(Inorder(Plug(c, t)), t.id)
    ensures |Inorder(Plug(c, u))| == |Inorder(Plug(c, t))| - 1
    ensures Sorted(Inorder(Plug(c, t))) ==> Sorted(Inorder(Plug(c, u)))
  {
    hide Plug, Sorted, Without, Pre, Post;
    PlugInorder(c, t);
    PlugInorder(c, u);
    forall e: Entry | e in Pre(c) || e in Post(c)
      ensures e.id != t.id
    { CtxInorderIds(c, e); }
    forall e: Entry | e in Inorder(t.left)
      ensures e.id != t.id
    { InorderIds(t.left, e); }
    forall e: Entry | e in Inorder(t.right)
      ensures e.id != t.id
    { InorderIds(t.right, e); }
    RemovedEntry(Pre(c), Inorder(t.left), Entry(t.key, t.id), Inorder(t.right), Post(c));
  }
}
