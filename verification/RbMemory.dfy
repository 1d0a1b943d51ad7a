/**
 * How a red-black tree lies in memory: node cells with parent, left and right
 * references, a sentinel at 0, and how the writes of a rotation change the tree.
 */
module RbMemory {
  import opened RedBlack
  import opened Entries

  datatype Cell = Cell(key: int, parent: int, right: int, left: int, red: bool)

  const NULL: int := -1

  function Ref(t: Tree): int { if t.Leaf? then 0 else t.id }

  function ParentOf(c: Ctx, top: int): int { if c.Top? then top else c.id }

  function RootOf(c: Ctx, h: int): int { if c.Top? then h else RootOf(c.up, c.id) }

  // The cells of t hold exactly t, its root having parent p.
  ghost predicate Laid(cells: seq<Cell>, t: Tree, p: int) {
    match t
    case Leaf => true
    case Node(l, id, key, red, r) =>
      0 < id < |cells| && cells[id] == Cell(key, p, Ref(r), Ref(l), red) && Laid(cells, l, id) && Laid(cells, r, id)
  }

  function FrameCell(c: Ctx, h: int, top: int): Cell
    requires c.In?
  {
    Cell(c.key, ParentOf(c.up, top), if c.isLeft then Ref(c.other) else h, if c.isLeft then h else Ref(c.other), c.red)
  }

  // The cells of the context hold it, with h as the child in the hole; top is the root's parent.
  ghost predicate Around(cells: seq<Cell>, c: Ctx, h: int, top: int) {
    c.In? ==>
      0 < c.id < |cells| && cells[c.id] == FrameCell(c, h, top) &&
      Laid(cells, c.other, c.id) && Around(cells, c.up, c.id, top)
  }

  lemma {:induction false} Split(cells: seq<Cell>, c: Ctx, t: Tree, top: int)
    ensures Laid(cells, Plug(c, t), top) <==> Laid(cells, t, ParentOf(c, top)) && Around(cells, c, Ref(t), top)
    ensures Ref(Plug(c, t)) == RootOf(c, Ref(t))
  {
    if c.In? {
      Split(cells, c.up, Mk(c.isLeft, t, c.id, c.key, c.red, c.other), top);
    }
  }

  ghost predicate SameOn(a: seq<Cell>, b: seq<Cell>, s: set<int>) {
    |a| <= |b| && forall i :: i in s && 0 <= i < |a| ==> b[i] == a[i]
  }

  lemma {:induction false} LaidKept(a: seq<Cell>, b: seq<Cell>, t: Tree, p: int)
    requires Laid(a, t, p) && SameOn(a, b, Ids(t))
    ensures Laid(b, t, p)
  {
    if t.Node? {
      LaidKept(a, b, t.left, t.id);
      LaidKept(a, b, t.right, t.id);
    }
  }

  lemma {:induction false} AroundKept(a: seq<Cell>, b: seq<Cell>, c: Ctx, h: int, top: int)
    requires Around(a, c, h, top) && SameOn(a, b, CtxIds(c))
    ensures Around(b, c, h, top)
  {
    if c.In? {
      LaidKept(a, b, c.other, c.id);
      AroundKept(a, b, c.up, c.id, top);
    }
  }

  // The root of t gets another parent.
  lemma LaidMoved(a: seq<Cell>, b: seq<Cell>, t: Tree, p: int, q: int)
    requires Laid(a, t, p) && Distinct(t) && SameOn(a, b, Ids(t) - {Ref(t)})
    requires t.Node? ==> t.id < |b| && b[t.id] == a[t.id].(parent := q)
    ensures Laid(b, t, q)
  {
    if t.Node? {
      LaidKept(a, b, t.left, t.id);
      LaidKept(a, b, t.right, t.id);
    }
  }

  // The hole of c gets another child.
  lemma AroundMoved(a: seq<Cell>, b: seq<Cell>, c: Ctx, h: int, h': int, top: int)
    requires Around(a, c, h, top) && CtxDistinct(c)
    requires c.In? ==> SameOn(a, b, CtxIds(c) - {c.id}) && c.id < |b| && b[c.id] == FrameCell(c, h', top)
    ensures Around(b, c, h', top)
  {
    if c.In? {
      LaidKept(a, b, c.other, c.id);
      AroundKept(a, b, c.up, c.id, top);
    }
  }

  lemma {:induction false} RootAtTop(c: Ctx, h: int)
    requires h !in CtxIds(c)
    ensures RootOf(c, h) == h <==> c.Top?
    ensures c.In? ==> RootOf(c, h) in CtxIds(c)
  {
    if c.In? && c.up.In? { RootIn(c.up, c.id); }
  }

  lemma {:induction false} RootIn(c: Ctx, h: int)
    ensures c.In? ==> RootOf(c, h) in CtxIds(c)
  {
    if c.In? { RootIn(c.up, c.id); }
  }

  lemma {:induction false} RootElsewhere(c: Ctx, h: int, h': int)
    requires c.In?
    ensures RootOf(c, h) == RootOf(c, h')
  {}

  // No node of a laid-out tree is the sentinel.
  lemma {:induction false} LaidIds(cells: seq<Cell>, t: Tree, p: int)
    requires Laid(cells, t, p)
    ensures forall i :: i in Ids(t) ==> 0 < i < |cells|
  {
    if t.Node? {
      LaidIds(cells, t.left, t.id);
      LaidIds(cells, t.right, t.id);
    }
  }

  function Far(t: Tree, left: bool): Tree
    requires t.Node?
  { if left then t.right else t.left }

  // The far child y of x goes up, x becomes its near child, y's near subtree changes sides.
  function Rotated(t: Tree, left: bool): Tree
    requires t.Node? && Far(t, left).Node?
  {
    var y := Far(t, left);
    if left then Node(Node(t.left, t.id, t.key, t.red, y.left), y.id, y.key, y.red, y.right)
    else Node(y.left, y.id, y.key, y.red, Node(y.right, t.id, t.key, t.red, t.right))
  }

  lemma RotatedIds(t: Tree, left: bool)
    requires t.Node? && Far(t, left).Node?
    ensures Ids(Rotated(t, left)) == Ids(t)
    ensures Distinct(t) ==> Distinct(Rotated(t, left))
  {
    var y, u := Far(t, left), Rotated(t, left);
    var x := if left then u.left else u.right;
    assert Ids(y) == Ids(y.left) + {y.id} + Ids(y.right);
    assert Ids(x) == Ids(x.left) + {x.id} + Ids(x.right);
    if Distinct(t) { assert Distinct(y); assert Distinct(x); }
  }

  lemma RotatedInorder(t: Tree, left: bool)
    requires t.Node? && Far(t, left).Node?
    ensures Inorder(Rotated(t, left)) == Inorder(t)
  {
    var y := Far(t, left);
    var e, f := [Entry(t.key, t.id)], [Entry(y.key, y.id)];
    if left {
      Reassociate(Inorder(t.left), e, Inorder(y.left), f, Inorder(y.right));
    } else {
      Reassociate(Inorder(y.left), f, Inorder(y.right), e, Inorder(t.right));
    }
  }

  lemma Reassociate(a: seq<Entry>, x: seq<Entry>, b: seq<Entry>, y: seq<Entry>, d: seq<Entry>)
    ensures (a + x + b) + y + d == a + x + (b + y + d)
  {}

  // The cells after the writes of a rotation, cell by cell.
  ghost predicate RotateWrites(a: seq<Cell>, b: seq<Cell>, c: Ctx, t: Tree, left: bool, top: int)
    requires t.Node? && Far(t, left).Node?
  {
    var y := Far(t, left);
    var m := if left then y.left else y.right;
    var u := Rotated(t, left);
    |a| == |b| &&
    (0 < t.id < |b| && b[t.id] ==
      Cell(t.key, y.id, if left then Ref(m) else Ref(t.right), if left then Ref(t.left) else Ref(m), t.red)) &&
    (0 < y.id < |b| && b[y.id] ==
      Cell(y.key, ParentOf(c, top), if left then Ref(y.right) else t.id, if left then t.id else Ref(y.left),
           y.red)) &&
    (m.Node? ==> 0 < m.id < |b| && b[m.id] == a[m.id].(parent := t.id)) &&
    (c.In? ==> 0 < c.id < |b| && b[c.id] == FrameCell(c, y.id, top)) &&
    forall i :: 0 <= i < |a| && i != t.id && i != y.id && (m.Leaf? || i != m.id) && (c.Top? || i != c.id) ==>
      b[i] == a[i]
  }

  lemma FarFacts(a: seq<Cell>, t: Tree, left: bool, p: int)
    requires t.Node? && Far(t, left).Node? && Distinct(t) && Laid(a, t, p)
    ensures var y := Far(t, left);
      var m := if left then y.left else y.right;
      var s := if left then t.left else t.right;
      var d := if left then y.right else y.left;
      Ids(t) == Ids(s) + {t.id} + Ids(m) + {y.id} + Ids(d) && t.id != y.id &&
      Distinct(m) && {t.id, y.id} !! Ids(s) && {t.id, y.id} !! Ids(m) && {t.id, y.id} !! Ids(d) &&
      Ids(s) !! Ids(m) && Ids(s) !! Ids(d) && Ids(m) !! Ids(d) &&
      Laid(a, s, t.id) && Laid(a, y, t.id) && Laid(a, m, y.id) && Laid(a, d, y.id)
  {
    var y := Far(t, left);
    assert Ids(y) == Ids(y.left) + {y.id} + Ids(y.right);
    assert Distinct(y);
    assert Laid(a, y, t.id);
  }

  lemma RotateLaid(a: seq<Cell>, b: seq<Cell>, c: Ctx, t: Tree, left: bool, top: int)
    requires t.Node? && Far(t, left).Node? && Apart(c, t)
    requires Laid(a, t, ParentOf(c, top)) && Around(a, c, t.id, top)
    requires RotateWrites(a, b, c, t, left, top)
    ensures Laid(b, Rotated(t, left), ParentOf(c, top)) && Around(b, c, Far(t, left).id, top)
  {
    hide Ids, CtxIds, Distinct, CtxDistinct;
    RotateParts(a, b, c, t, left, top);
    var u := Rotated(t, left);
    assert Laid(b, if left then u.left else u.right, u.id);
  }

  lemma RotateParts(a: seq<Cell>, b: seq<Cell>, c: Ctx, t: Tree, left: bool, top: int)
    requires t.Node? && Far(t, left).Node? && Apart(c, t)
    requires Laid(a, t, ParentOf(c, top)) && Around(a, c, t.id, top)
    requires RotateWrites(a, b, c, t, left, top)
    ensures Around(b, c, Far(t, left).id, top)
    ensures var y := Far(t, left);
      Laid(b, if left then y.left else y.right, t.id) && Laid(b, if left then t.left else t.right, t.id) &&
      Laid(b, if left then y.right else y.left, y.id)
  {
    hide Ids, CtxIds, Distinct, CtxDistinct, Laid, Around;
    var y := Far(t, left);
    var m := if left then y.left else y.right;
    var s := if left then t.left else t.right;
    var d := if left then y.right else y.left;
    FarFacts(a, t, left, ParentOf(c, top));
    OwnIds(c, m);
    LaidKept(a, b, s, t.id);
    LaidKept(a, b, d, y.id);
    LaidMoved(a, b, m, y.id, t.id);
    AroundMoved(a, b, c, t.id, y.id, top);
  }

  lemma OwnIds(c: Ctx, t: Tree)
    ensures c.In? ==> c.id in CtxIds(c)
    ensures t.Node? ==> t.id in Ids(t)
  {}

  lemma RotateDone(a: seq<Cell>, b: seq<Cell>, c: Ctx, t: Tree, left: bool, top: int)
    requires t.Node? && Far(t, left).Node? && Apart(c, t)
    requires Laid(a, t, ParentOf(c, top)) && Around(a, c, t.id, top)
    requires RotateWrites(a, b, c, t, left, top)
    ensures var u := Rotated(t, left);
      Laid(b, Plug(c, u), top) && Distinct(Plug(c, u)) && Ids(Plug(c, u)) == Ids(Plug(c, t)) &&
      Ref(Plug(c, u)) == RootOf(c, Far(t, left).id)
    ensures forall i :: 0 <= i < |a| && i !in Ids(Plug(c, t)) ==> b[i] == a[i]
  {
    hide Laid, Around, Distinct, CtxDistinct;
    var u := Rotated(t, left);
    RotateLaid(a, b, c, t, left, top);
    RotatedIds(t, left);
    PlugApart(c, t);
    PlugApart(c, u);
    Split(b, c, u, top);
    FarFacts(a, t, left, ParentOf(c, top));
  }

  // What a rotation at t reads, and that the cells it writes are different.
  lemma RotateReads(a: seq<Cell>, c: Ctx, t: Tree, left: bool, top: int)
    requires t.Node? && Far(t, left).Node? && Apart(c, t)
    requires Laid(a, t, ParentOf(c, top)) && Around(a, c, t.id, top)
    ensures var y := Far(t, left);
      var m := if left then y.left else y.right;
      0 < t.id < |a| && 0 < y.id < |a| && t.id != y.id &&
      a[t.id] == Cell(t.key, ParentOf(c, top), Ref(t.right), Ref(t.left), t.red) &&
      a[y.id] == Cell(y.key, t.id, Ref(y.right), Ref(y.left), y.red) &&
      (m.Node? ==> 0 < m.id < |a| && m.id != t.id && m.id != y.id && (c.In? ==> m.id != c.id)) &&
      (c.In? ==>
          0 < c.id < |a| && c.id != t.id && c.id != y.id && a[c.id] == FrameCell(c, t.id, top) &&
          Ref(c.other) != t.id) &&
      (RootOf(c, t.id) == t.id <==> c.Top?)
    ensures forall h :: c.In? ==> RootOf(c, h) == RootOf(c, t.id)
  {
    FarFacts(a, t, left, ParentOf(c, top));
    var y := Far(t, left);
    assert Laid(a, y, t.id);
    var m := if left then y.left else y.right;
    assert Laid(a, m, y.id);
    RootAtTop(c, t.id);
    if c.In? { OwnIds(c, c.other); }
  }

  lemma RotateInorder(c: Ctx, t: Tree, left: bool)
    requires t.Node? && Far(t, left).Node?
    ensures Inorder(Plug(c, Rotated(t, left))) == Inorder(Plug(c, t))
  {
    RotatedInorder(t, left);
    PlugInorder(c, t);
    PlugInorder(c, Rotated(t, left));
  }

  lemma PaintedSame(t: Tree, red: bool)
    requires t.Node?
    ensures Inorder(t.(red := red)) == Inorder(t) && Ids(t.(red := red)) == Ids(t)
    ensures Distinct(t.(red := red)) == Distinct(t)
  {}

  lemma PaintDone(a: seq<Cell>, b: seq<Cell>, c: Ctx, t: Tree, red: bool, top: int)
    requires t.Node? && Apart(c, t) && 0 <= t.id < |a|
    requires Laid(a, t, ParentOf(c, top)) && Around(a, c, t.id, top)
    requires b == a[t.id := a[t.id].(red := red)]
    ensures var u := t.(red := red);
      Laid(b, Plug(c, u), top) && Distinct(Plug(c, u)) && Ids(Plug(c, u)) == Ids(Plug(c, t)) &&
      Ref(Plug(c, u)) == Ref(Plug(c, t)) && t.id in Ids(Plug(c, t)) && Inorder(Plug(c, u)) == Inorder(Plug(c, t))
  {
    hide CtxIds, CtxDistinct, Around, Inorder, Plug, Pre, Post;
    var u := t.(red := red);
    PaintedSame(t, red);
    PlugInorder(c, t);
    PlugInorder(c, u);
    PlugApart(c, t);
    PlugApart(c, u);
    LaidKept(a, b, t.left, t.id);
    LaidKept(a, b, t.right, t.id);
    AroundKept(a, b, c, t.id, top);
    Split(a, c, t, top);
    Split(b, c, u, top);
  }

  lemma OutwardPlug(c: Ctx, t: Tree, h: int)
    requires Pending(c, t, h) && c.In? && c.red && c.isLeft != c.up.isLeft
    ensures c.up.In? && Far(Up(c, t), c.up.isLeft).Node?
    ensures var (d, u) := Outward(c, t);
      Plug(c.up, Rotated(Up(c, t), c.up.isLeft)) == Plug(d, u) && Pending(d, u, h) &&
      d.In? && d.red && d.up == c.up && d.isLeft == c.up.isLeft && u.Node? && u.id == c.id && d.id == t.id
  { OutwardKeeps(c, t, h); }

  lemma SettledPlug(c: Ctx, t: Tree)
    requires c.In? && c.up.In? && c.isLeft == c.up.isLeft
    ensures var Q := Mk(c.up.isLeft, Black(Up(c, t)), c.up.id, c.up.key, true, c.up.other);
      Q == Up(c.up, Black(Up(c, t))).(red := true) &&
      Far(Q, !c.isLeft).Node? && Plug(c.up.up, Rotated(Q, !c.isLeft)) == Plug(Settled(c), t)
  {}

  function Size(t: Tree): nat { if t.Leaf? then 0 else 1 + Size(t.left) + Size(t.right) }

  // In a sorted tree everything before t's node has no larger key, everything behind no smaller.
  lemma AroundKeys(c: Ctx, t: Tree)
    requires t.Node? && Sorted(Inorder(Plug(c, t)))
    ensures forall i :: 0 <= i < |Pre(Down(c, t, false))| ==> Pre(Down(c, t, false))[i].key <= t.key
    ensures forall i :: 0 <= i < |Post(Down(c, t, true))| ==> t.key <= Post(Down(c, t, true))[i].key
  {
    hide Plug, Inorder;
    PlugInorder(Down(c, t, false), t.right);
    PlugInorder(Down(c, t, true), t.left);
    DownKeeps(c, t, false, 0);
    DownKeeps(c, t, true, 0);
    var a, b, d := Pre(c) + Inorder(t.left), [Entry(t.key, t.id)], Inorder(t.right) + Post(c);
    Pivot(Pre(c), Inorder(t.left), Entry(t.key, t.id), Inorder(t.right), Post(c));
  }

  lemma Pivot(p: seq<Entry>, l: seq<Entry>, e: Entry, r: seq<Entry>, q: seq<Entry>)
    requires Sorted((p + l + [e]) + r + q) || Sorted(p + l + ([e] + r + q))
    ensures forall i :: 0 <= i < |p + l + [e]| ==> (p + l + [e])[i].key <= e.key
    ensures forall i :: 0 <= i < |[e] + r + q| ==> e.key <= ([e] + r + q)[i].key
  {
    var s := p + l + ([e] + r + q);
    assert (p + l + [e]) + r + q == s;
    assert s[|p + l|] == e;
    assert forall i :: 0 <= i < |p + l + [e]| ==> s[i] == (p + l + [e])[i];
    assert forall i :: 0 <= i < |[e] + r + q| ==> s[|p + l| + i] == ([e] + r + q)[i];
  }

  // A new red leaf node n in the hole of c.
  lemma LinkDone(a: seq<Cell>, b: seq<Cell>, c: Ctx, n: int, key: int, top: int)
    requires |a| == |b| && 0 < n < |a| && n !in CtxIds(c) && CtxDistinct(c) && Around(a, c, 0, top)
    requires b[n] == Cell(key, ParentOf(c, top), 0, 0, true)
    requires c.In? ==> 0 < c.id < |b| && b[c.id] == FrameCell(c, n, top)
    requires forall i :: 0 <= i < |a| && i != n && (c.Top? || i != c.id) ==> b[i] == a[i]
    ensures var u := Plug(c, Node(Leaf, n, key, true, Leaf));
      Laid(b, u, top) && Distinct(u) && Ids(u) == Ids(Plug(c, Leaf)) + {n} && Ref(u) == RootOf(c, n) &&
      Inorder(u) == Pre(c) + [Entry(key, n)] + Post(c)
  {
    hide CtxIds, CtxDistinct, Around, Plug, Pre, Post;
    var t := Node(Leaf, n, key, true, Leaf);
    assert Inorder(t) == [Entry(key, n)];
    assert Ids(t) == {n};
    PlugInorder(c, t);
    PlugApart(c, t);
    PlugApart(c, Leaf);
    Split(b, c, t, top);
    AroundMoved(a, b, c, 0, n, top);
  }

  lemma RedSiblingPlug(c: Ctx, t: Tree)
    requires c.In? && c.other.Node?
    ensures var d := c.(red := true, other := Black(c.other));
      Far(Up(d, t), c.isLeft).Node? && Plug(c.up, Rotated(Up(d, t), c.isLeft)) == Plug(RedSibling(c), t)
  {}

  lemma NearUpIs(c: Ctx)
    requires c.In? && c.other.Node? && Side(c.other, c.isLeft).Node?
    ensures var n := Black(Side(c.other, c.isLeft));
      var w := Mk(c.isLeft, n, c.other.id, c.other.key, true, Side(c.other, !c.isLeft));
      Far(w, !c.isLeft).Node? && Rotated(w, !c.isLeft) == NearUp(c)
  {}

  lemma BalancedPlug(c: Ctx, t: Tree)
    requires c.In? && c.other.Node?
    ensures var w := Mk(!c.isLeft, Black(Side(c.other, !c.isLeft)), c.other.id, c.other.key, c.red,
                        Side(c.other, c.isLeft));
      var p := Mk(c.isLeft, t, c.id, c.key, false, w);
      Far(p, c.isLeft).Node? && Rotated(p, c.isLeft) == Balanced(c, t)
  {}

  // x, the only child of t's node, hangs in its place.
  lemma SpliceDone(a: seq<Cell>, b: seq<Cell>, c: Ctx, t: Tree, x: Tree, top: int)
    requires t.Node? && c.In? && Apart(c, t) && ((t.left.Leaf? && x == t.right) || (t.right.Leaf? && x == t.left))
    requires Laid(a, t, c.id) && Around(a, c, t.id, top) && |a| == |b|
    requires 0 < c.id < |b| && b[c.id] == FrameCell(c, Ref(x), top)
    requires x.Node? ==> 0 < x.id < |a| && b[x.id] == a[x.id].(parent := c.id)
    requires forall i :: 0 < i < |a| && i != c.id && i != t.id && (x.Node? ==> i != x.id) ==> b[i] == a[i]
    ensures Laid(b, Plug(c, x), top) && Distinct(Plug(c, x)) && Ids(Plug(c, x)) == Ids(Plug(c, t)) - {t.id}
    ensures Ref(Plug(c, x)) == Ref(Plug(c, t))
  {
    hide CtxIds, CtxDistinct, Around, Plug;
    LaidIds(a, t, c.id);
    OwnIds(c, x);
    OwnIds(c, t);
    AroundInside(a, c, t.id, top);
    PlugApart(c, t);
    PlugApart(c, x);
    Split(b, c, x, top);
    Split(a, c, t, top);
    RootElsewhere(c, t.id, Ref(x));
    SameOnBut(a, b, Ids(x) - {Ref(x)});
    SameOnBut(a, b, CtxIds(c) - {c.id});
    LaidMoved(a, b, x, t.id, c.id);
    AroundMoved(a, b, c, t.id, Ref(x), top);
  }

  lemma SameOnBut(a: seq<Cell>, b: seq<Cell>, s: set<int>)
    requires |a| == |b| && forall i :: i in s && 0 <= i < |a| ==> a[i] == b[i]
    ensures SameOn(a, b, s)
  {}

  lemma {:induction false} AroundInside(a: seq<Cell>, c: Ctx, h: int, top: int)
    requires Around(a, c, h, top)
    ensures forall i :: i in CtxIds(c) ==> 0 < i < |a|
  {
    if c.In? {
      LaidIds(a, c.other, c.id);
      AroundInside(a, c.up, c.id, top);
    }
  }

  ghost predicate SwapWrites(a: seq<Cell>, b: seq<Cell>, c: Ctx, t: Tree, m: int, km: int, top: int)
    requires t.Node?
  {
    |a| == |b| && 0 < m < |a| &&
    b[m] == Cell(km, ParentOf(c, top), Ref(t.right), Ref(t.left), t.red) &&
    (c.In? ==> 0 < c.id < |b| && b[c.id] == FrameCell(c, m, top)) &&
    (t.left.Node? ==> 0 < t.left.id < |a| && b[t.left.id] == a[t.left.id].(parent := m)) &&
    (t.right.Node? ==> 0 < t.right.id < |a| && b[t.right.id] == a[t.right.id].(parent := m)) &&
    forall i ::
      0 < i < |a| && i != m && i != t.id && !(c.In? && i == c.id) && i != Ref(t.left) && i != Ref(t.right) ==>
      b[i] == a[i]
  }

  lemma NodeFacts(a: seq<Cell>, c: Ctx, t: Tree, top: int)
    requires t.Node? && Apart(c, t) && Laid(a, t, ParentOf(c, top)) && Around(a, c, t.id, top)
    ensures Ids(t) == Ids(t.left) + {t.id} + Ids(t.right) && Ids(t.left) !! Ids(t.right)
    ensures t.id !in Ids(t.left) && t.id !in Ids(t.right)
    ensures Distinct(t.left) && Distinct(t.right) && Laid(a, t.left, t.id) && Laid(a, t.right, t.id)
    ensures forall i :: i in Ids(t.left) || i in Ids(t.right) || i in CtxIds(c) ==> 0 < i < |a| && i != t.id
    ensures t.left.Node? ==> t.left.id in Ids(t.left)
    ensures t.right.Node? ==> t.right.id in Ids(t.right)
    ensures c.In? ==> c.id in CtxIds(c)
  {
    LaidIds(a, t, ParentOf(c, top));
    AroundInside(a, c, t.id, top);
  }

  lemma SwapParts(a: seq<Cell>, b: seq<Cell>, c: Ctx, t: Tree, m: int, km: int, top: int)
    requires t.Node? && Apart(c, t) && m !in Ids(t) && m !in CtxIds(c)
    requires Laid(a, t, ParentOf(c, top)) && Around(a, c, t.id, top) && SwapWrites(a, b, c, t, m, km, top)
    ensures Laid(b, t.left, m) && Laid(b, t.right, m) && Around(b, c, m, top)
  {
    hide Ids, CtxIds, Distinct, CtxDistinct, Around, Laid;
    NodeFacts(a, c, t, top);
    LaidMoved(a, b, t.left, t.id, m);
    LaidMoved(a, b, t.right, t.id, m);
    AroundMoved(a, b, c, t.id, m, top);
  }

  // m takes the place of t's node, between the same subtrees.
  lemma SwapDone(a: seq<Cell>, b: seq<Cell>, c: Ctx, t: Tree, m: int, km: int, top: int)
    requires t.Node? && Apart(c, t) && m !in Ids(t) && m !in CtxIds(c)
    requires Laid(a, t, ParentOf(c, top)) && Around(a, c, t.id, top) && SwapWrites(a, b, c, t, m, km, top)
    ensures var u := t.(id := m, key := km);
      Laid(b, Plug(c, u), top) && Distinct(Plug(c, u)) && Ids(Plug(c, u)) == Ids(Plug(c, t)) - {t.id} + {m} &&
      Ref(Plug(c, u)) == RootOf(c, m)
  {
    hide CtxIds, CtxDistinct, Around, Plug;
    var u := t.(id := m, key := km);
    SwapParts(a, b, c, t, m, km, top);
    PlugApart(c, t);
    PlugApart(c, u);
    Split(b, c, u, top);
  }

  lemma BlackLaid(a: seq<Cell>, b: seq<Cell>, x: Tree, p: int)
    requires Laid(a, x, p) && Distinct(x) && p !in Ids(x) && 0 <= p && |a| == |b|
    requires x.Node? ==> 0 <= x.id < |a| && b[x.id] == a[x.id].(red := false)
    requires forall i :: 0 < i < |a| && i != p && i != Ref(x) ==> b[i] == a[i]
    ensures Laid(b, Black(x), p) && Distinct(Black(x)) && Ids(Black(x)) == Ids(x)
  {
    if x.Node? {
      LaidIds(a, x, p);
      LaidKept(a, b, x.left, x.id);
      LaidKept(a, b, x.right, x.id);
    }
  }

  // The path from the right child of t to the next node in order, which has no left child.
  function NextCtx(c: Ctx, t: Tree): Ctx
    requires t.Node? && t.right.Node?
  { MinCtx(t.right, Down(c, t, false)) }

  // The cells once x has the place of its parent node in d.
  ghost function Spliced(a: seq<Cell>, d: Ctx, x: Tree, top: int): seq<Cell>
    requires d.In? && 0 <= d.id < |a| && 0 <= Ref(x) < |a|
  { a[Ref(x) := a[Ref(x)].(parent := d.id)][d.id := FrameCell(d, Ref(x), top)] }

  // t with the next node taken out of its right subtree.
  function NextGone(t: Tree): (r: Tree)
    requires t.Node? && t.right.Node?
    ensures r.Node? && r.id == t.id && r.left == t.left && r.red == t.red
  { t.(right := MinRest(t.right)) }

  // t with the next node in the place of its own.
  function NextInstead(t: Tree): Tree
    requires t.Node? && t.right.Node?
  { Node(t.left, MinNode(t.right).id, MinNode(t.right).key, t.red, MinRest(t.right)) }

  lemma NextPlug(c: Ctx, t: Tree)
    requires t.Node? && t.right.Node?
    ensures NextCtx(c, t).In?
    ensures Plug(NextCtx(c, t), MinNode(t.right)) == Plug(c, t)
    ensures Plug(NextCtx(c, t), MinNode(t.right).right) == Plug(c, NextGone(t))
    ensures NextCtx(c, t).id == if t.right.left.Leaf? then t.id else MinUp(t.right)
    ensures t.right.left.Leaf? ==> NextGone(t).right == MinNode(t.right).right
  {
    hide Plug;
    MinPlug(t.right, Down(c, t, false));
    MinParent(t.right, Down(c, t, false));
    UpPlug(Down(c, t, false), t.right);
    UpPlug(Down(c, t, false), MinRest(t.right));
  }

  lemma SplicedFacts(a: seq<Cell>, c: Ctx, t: Tree, top: int)
    requires t.Node? && t.right.Node? && Laid(a, Plug(c, t), top) && Distinct(Plug(c, t))
    ensures var d, m := NextCtx(c, t), MinNode(t.right);
      var x, u := m.right, NextGone(t);
      d.In? && 0 < d.id < |a| && a[d.id] == FrameCell(d, m.id, top) && Ref(d.other) != m.id && d.id != m.id &&
      0 < m.id < |a| && a[m.id] == Cell(m.key, d.id, Ref(x), 0, m.red) &&
      0 <= Ref(x) < |a| && Ref(x) != m.id && Ref(x) != d.id &&
      Laid(Spliced(a, d, x, top), Plug(c, u), top) && Distinct(Plug(c, u)) &&
      Ids(Plug(c, u)) == Ids(Plug(c, t)) - {m.id}
  {
    hide Plug, MinCtx, MinRest, CtxIds, CtxDistinct;
    NextPlug(c, t);
    var d, m := NextCtx(c, t), MinNode(t.right);
    Split(a, d, m, top);
    PlugApart(d, m);
    NodeFacts(a, d, m, top);
    if d.other.Node? { SideIds(d); }
    SpliceDone(a, Spliced(a, d, m.right, top), d, m, m.right, top);
  }

  lemma SideIds(d: Ctx)
    requires d.In? && d.other.Node?
    ensures d.other.id in CtxIds(d)
  {}

  // What taking over node t.id reads and writes, in cells that hold u in context c.
  lemma TakeOverFacts(a: seq<Cell>, c: Ctx, u: Tree, m: int, top: int)
    requires u.Node? && Laid(a, Plug(c, u), top) && Distinct(Plug(c, u)) && 0 < m < |a| && m !in Ids(Plug(c, u)) &&
             0 <= top
    ensures Apart(c, u) && Laid(a, u, ParentOf(c, top)) && Around(a, c, u.id, top) && m !in Ids(u) && m !in CtxIds(c)
    ensures 0 < u.id < |a| && a[u.id] == Cell(u.key, ParentOf(c, top), Ref(u.right), Ref(u.left), u.red) && m != u.id
    ensures RootOf(c, u.id) == u.id <==> c.Top?
    ensures Ref(Plug(c, u)) == RootOf(c, u.id)
    ensures c.In? ==> RootOf(c, u.id) == RootOf(c, m)
    ensures c.In? ==>
              0 < c.id < |a| && a[c.id] == FrameCell(c, u.id, top) && Ref(c.other) != u.id && c.id != m && c.id != u.id
    ensures 0 <= Ref(u.left) < |a| && 0 <= Ref(u.right) < |a| && (u.left.Node? ==> u.left.id > 0) &&
            (u.right.Node? ==> u.right.id > 0)
    ensures Ref(u.left) == Ref(u.right) ==> Ref(u.left) == 0
    ensures var s := Ids(Plug(c, u));
            (c.In? ==> c.id in s) && (u.left.Node? ==> u.left.id in s) && (u.right.Node? ==> u.right.id in s)
    ensures {Ref(u.left), Ref(u.right)} !! {m, u.id} && (c.In? ==> c.id !in {Ref(u.left), Ref(u.right)})
  {
    hide Plug, Distinct, CtxDistinct, Ids, CtxIds, RootOf;
    Split(a, c, u, top);
    PlugApart(c, u);
    NodeFacts(a, c, u, top);
    RootAtTop(c, u.id);
    if c.In? {
      RootElsewhere(c, u.id, m);
      if c.other.Node? { SideIds(c); }
    }
  }
}
