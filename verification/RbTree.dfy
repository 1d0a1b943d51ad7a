/**
 * util_rbtree.c: the red-black tree of virtual nodes, with its rotations, its
 * two fixups and its searches.
 */
module RbTree {
  import opened RedBlack
  import opened RbMemory
  import opened Entries

  class RbTree {
    // Node objects by reference; 0 is the sentinel.  New nodes get new references.
    var cells: seq<Cell>
    var root: int
    var size: int
    ghost var tree: Tree
    // What the root's parent field holds: the sentinel or a removed, black root.
    ghost var top: int

    ghost predicate Stored() reads this {
      |cells| > 0 && !cells[0].red && Laid(cells, tree, top) && root == Ref(tree) && Distinct(tree) &&
      0 <= top < |cells| && top !in Ids(tree) && !cells[top].red
    }

    lemma Open(c: Ctx, t: Tree)
      requires Stored() && tree == Plug(c, t)
      ensures Apart(c, t) && Laid(cells, t, ParentOf(c, top)) && Around(cells, c, Ref(t), top)
      ensures root == RootOf(c, Ref(t))
      ensures t.Node? ==>
                0 < t.id < |cells| && cells[t.id] == Cell(t.key, ParentOf(c, top), Ref(t.right), Ref(t.left), t.red)
      ensures c.In? ==> 0 < c.id < |cells| && cells[c.id] == FrameCell(c, Ref(t), top)
      ensures 0 !in Ids(tree) && top !in Ids(t) && top !in CtxIds(c)
    {
      Split(cells, c, t, top);
      PlugApart(c, t);
      LaidIds(cells, tree, top);
    }

    // Puts m where n hangs: below n's parent p, or at the root.
    method Replace(n: int, m: int, p: int, ghost c: Ctx)
      requires root == n <==> c.Top?
      requires c.In? ==> c.id == p && 0 < p < |cells| && cells[p] == FrameCell(c, n, top) && Ref(c.other) != n
      modifies this`cells, this`root
      ensures root == (if c.Top? then m else old(root))
      ensures cells == if c.Top? then old(cells) else old(cells)[p := FrameCell(c, m, top)]
    {
      if n == root {
        root := m;
      } else if cells[p].left == n {
        cells := cells[p := cells[p].(left := m)];
      } else {
        cells := cells[p := cells[p].(right := m)];
      }
    }

    // The rest of a rotation: n below rc, and rc's near subtree below n.
    method Relink(n: int, rc: int, near: int, left: bool)
      requires 0 <= n < |cells| && 0 <= rc < |cells| && 0 <= near < |cells| && n != rc &&
               (near != 0 ==> near != n && near != rc)
      modifies this`cells
      ensures |cells| == |old(cells)|
      ensures cells[n] == (if left then old(cells[n]).(parent := rc, right := near)
                           else old(cells[n]).(parent := rc, left := near))
      ensures cells[rc] == (if left then old(cells[rc]).(left := n) else old(cells[rc]).(right := n))
      ensures near != 0 ==> cells[near] == old(cells[near]).(parent := n)
      ensures forall i :: 0 <= i < |cells| && i != n && i != rc && (near == 0 || i != near) ==>
                cells[i] == old(cells[i])
    {
      cells := cells[n := cells[n].(parent := rc)];
      cells := cells[rc := if left then cells[rc].(left := n) else cells[rc].(right := n)];
      cells := cells[n := if left then cells[n].(right := near) else cells[n].(left := near)];
      if near != 0 { cells := cells[near := cells[near].(parent := n)]; }
    }

    // The pointer writes of a rotation.
    method Turn(n: int, left: bool, ghost c: Ctx, ghost t: Tree)
      requires t.Node? && n == t.id && Far(t, left).Node? && Apart(c, t) && root == RootOf(c, t.id)
      requires Laid(cells, t, ParentOf(c, top)) && Around(cells, c, t.id, top)
      modifies this`cells, this`root
      ensures RotateWrites(old(cells), cells, c, t, left, top) && |cells| == |old(cells)|
      ensures root == RootOf(c, Far(t, left).id)
    {
      hide Laid, Around, Distinct, CtxDistinct, Ids, CtxIds, Rotated;
      RotateReads(cells, c, t, left, top);
      var rc := if left then cells[n].right else cells[n].left;
      var near := if left then cells[rc].left else cells[rc].right;
      cells := cells[rc := cells[rc].(parent := cells[n].parent)];
      Replace(n, rc, cells[n].parent, c);
      Relink(n, rc, near, left);
    }

    method Rotate(n: int, left: bool, ghost c: Ctx, ghost t: Tree)
      requires Stored() && tree == Plug(c, t) && t.Node? && n == t.id && Far(t, left).Node?
      modifies this
      ensures Stored() && tree == Plug(c, Rotated(t, left)) && size == old(size) && top == old(top)
      ensures |cells| == |old(cells)| && cells[0] == old(cells[0])
      ensures Inorder(tree) == old(Inorder(tree)) && Ids(tree) == old(Ids(tree))
    {
      hide Laid, Around, Distinct, CtxDistinct, Ids, CtxIds, Rotated, Plug, Inorder;
      Open(c, t);
      RotateInorder(c, t, left);
      ghost var a := cells;
      Turn(n, left, c, t);
      RotateDone(a, cells, c, t, left, top);
      tree := Plug(c, Rotated(t, left));
    }

    method Paint(n: int, red: bool, ghost c: Ctx, ghost t: Tree)
      requires Stored() && tree == Plug(c, t) && t.Node? && n == t.id
      modifies this
      ensures Stored() && tree == Plug(c, t.(red := red)) && size == old(size) && top == old(top)
      ensures |cells| == |old(cells)| && cells[0] == old(cells[0])
      ensures Inorder(tree) == old(Inorder(tree)) && Ids(tree) == old(Ids(tree))
    {
      hide Distinct, CtxDistinct, Ids, CtxIds, Plug, Inorder, Around, Laid;
      Open(c, t);
      ghost var a := cells;
      cells := cells[n := cells[n].(red := red)];
      PaintDone(a, cells, c, t, red, top);
      tree := Plug(c, t.(red := red));
    }

    // A red node below a possibly red parent: repairs the colours up to the root.  The parents that the
    // loop looks at are tested; what the root has for a parent is one of them only if all of the path is
    // recoloured.
    method InsertFixup(n: int, ghost c0: Ctx, ghost t0: Tree, ghost h0: int) returns (tested: seq<int>)
      requires Stored() && tree == Plug(c0, t0) && Pending(c0, t0, h0) && n == t0.id
      modifies this
      ensures Stored() && Good(tree) && size == old(size) && top == old(top)
      ensures |cells| == |old(cells)| && Inorder(tree) == old(Inorder(tree)) && Ids(tree) == old(Ids(tree))
      ensures forall i :: i in tested ==> i in Ids(tree) || i == top
      ensures top in tested <==> Climbs(c0)
      ensures (c0.In? ==> !c0.red) ==> tree == Black(old(tree))
    {
      hide Plug, Inorder, Ids, Stored, Fits, RB, Laid, Good, Red, Climbs;
      var node := n;
      ghost var c, t, h := c0, t0, h0;
      Look(c, t);
      tested := [cells[node].parent];
      Tested(c, t);
      while cells[cells[node].parent].red
        invariant Stored() && tree == Plug(c, t) && Pending(c, t, h) && t.Node? && node == t.id
        invariant size == old(size) && top == old(top)
        invariant |cells| == |old(cells)| && Inorder(tree) == old(Inorder(tree)) && Ids(tree) == old(Ids(tree))
        invariant 0 <= node < |cells| && cells[node].parent == ParentOf(c, top) && 0 <= ParentOf(c, top) < |cells|
        invariant cells[ParentOf(c, top)].red == (c.In? && c.red)
        invariant (forall i :: i in tested ==> i in Ids(tree) || i == top) && (top in tested <==> c.Top?)
        invariant Climbs(c) <==> Climbs(c0)
        invariant (c0.In? ==> !c0.red) ==> c == c0 && tree == old(tree)
        decreases Depth(c)
      {
        node, c, t, h := FixStep(node, c, t, h);
        Look(c, t);
        Tested(c, t);
        tested := tested + [cells[node].parent];
      }
      ClimbEnd(c);
      InsertEnd(c, t, h);
      RootIs(c, t);
      Paint(root, false, Top, tree);
    }

    lemma Tested(c: Ctx, t: Tree)
      requires Stored() && tree == Plug(c, t) && Red(t)
      ensures c.Top? ==> ParentOf(c, top) == top
      ensures c.In? ==> ParentOf(c, top) in Ids(tree) && ParentOf(c, top) != top
    {
      Open(c, t);
      PlugApart(c, t);
      OwnIds(c, t);
    }

    lemma ClimbEnd(c: Ctx)
      requires c.In? ==> !c.red
      ensures Climbs(c) <==> c.Top?
    {}

    lemma RootIs(c: Ctx, t: Tree)
      requires Stored() && tree == Plug(c, t) && t.Node?
      ensures tree.Node? && root == tree.id && tree == Plug(Top, tree) && Plug(Top, Black(tree)) == Black(tree)
    { Split(cells, c, t, top); PlugNode(c, t); }

    lemma LookUp(c: Ctx, t: Tree)
      requires Stored() && tree == Plug(c, t) && t.Node?
      ensures 0 <= t.id < |cells| && cells[t.id].parent == ParentOf(c, top)
    { Open(c, t); }

    lemma Look(c: Ctx, t: Tree)
      requires Stored() && tree == Plug(c, t) && Red(t)
      ensures t.Node? && 0 <= t.id < |cells| && cells[t.id].parent == ParentOf(c, top) &&
              0 <= ParentOf(c, top) < |cells|
      ensures cells[ParentOf(c, top)].red == (c.In? && c.red)
    { Open(c, t); }

    method FixStep(n: int, ghost c: Ctx, ghost t: Tree, ghost h: int)
      returns (m: int, ghost d: Ctx, ghost s: Tree, ghost k: int)
      requires Stored() && tree == Plug(c, t) && Pending(c, t, h) && n == t.id && c.In? && c.red
      modifies this
      ensures Stored() && tree == Plug(d, s) && Pending(d, s, k) && s.Node? && m == s.id
      ensures size == old(size) && top == old(top)
      ensures |cells| == |old(cells)| && Inorder(tree) == old(Inorder(tree)) && Ids(tree) == old(Ids(tree))
      ensures Depth(d) < Depth(c) && (Climbs(d) <==> Climbs(c))
    {
      hide Plug, Inorder, Ids, Stored, Fits, RB, Laid, Red;
      FixReads(c, t, h);
      var p := cells[n].parent;
      var g := cells[p].parent;
      var onLeft := cells[g].left == p;
      var u := if onLeft then cells[g].right else cells[g].left;
      if cells[u].red {
        Recolour(n, p, g, u, c, t, h);
        m, d, s, k := g, c.up.up, Recoloured(c, t), h + 1;
      } else {
        m, d, s, k := n, c, t, h;
        if n == (if onLeft then cells[p].right else cells[p].left) {
          m := p;
          UpPlug(c, t);
          OutwardPlug(c, t, h);
          Rotate(m, onLeft, c.up, Up(c, t));
          d, s := Outward(c, t).0, Outward(c, t).1;
          LookUp(d, s);
          p := cells[m].parent;
        }
        Settle(p, onLeft, d, s, h);
        d := Settled(d);
      }
    }

    lemma FixReads(c: Ctx, t: Tree, h: int)
      requires Stored() && tree == Plug(c, t) && Pending(c, t, h) && c.In? && c.red
      ensures t.Node? && 0 < t.id < |cells| && cells[t.id].parent == c.id && 0 < c.id < |cells|
      ensures c.up.In? && cells[c.id].parent == c.up.id && 0 < c.up.id < |cells|
      ensures (cells[c.up.id].left == c.id) == c.up.isLeft
      ensures var u := if c.up.isLeft then cells[c.up.id].right else cells[c.up.id].left;
        u == Ref(c.up.other) && 0 <= u < |cells| && cells[u].red == Red(c.up.other)
      ensures (t.id == if c.up.isLeft then cells[c.id].right else cells[c.id].left) == (c.isLeft != c.up.isLeft)
    {
      Open(c, t);
      UpPlug(c, t);
      Open(c.up, Up(c, t));
      AcrossPlug(c.up, Up(c, t));
      Open(Across(c.up, Up(c, t)), c.up.other);
      OwnIds(c, c.other);
      OwnIds(c.up, c.up.other);
    }

    method Recolour(n: int, p: int, g: int, u: int, ghost c: Ctx, ghost t: Tree, ghost h: int)
      requires Stored() && tree == Plug(c, t) && Pending(c, t, h) && c.In? && c.red && c.up.In?
      requires p == c.id && g == c.up.id && Red(c.up.other) && u == Ref(c.up.other)
      modifies this
      ensures Stored() && tree == Plug(c.up.up, Recoloured(c, t)) && Pending(c.up.up, Recoloured(c, t), h + 1)
      ensures size == old(size) && top == old(top)
      ensures |cells| == |old(cells)| && Inorder(tree) == old(Inorder(tree)) && Ids(tree) == old(Ids(tree))
    {
      hide Plug, Inorder, Ids, Stored, Fits, RB;
      RecolourKeeps(c, t, h);
      UpPlug(c, t);
      ghost var P := Up(c, t);
      AcrossPlug(c.up, P);
      Paint(u, false, Across(c.up, P), c.up.other);
      ghost var G := c.up.(other := Black(c.up.other));
      AcrossPlug(G, P);
      Paint(p, false, G, P);
      UpPlug(G, Black(P));
      Paint(g, true, G.up, Up(G, Black(P)));
    }

    // Black parent, red grandparent, and the grandparent goes down.
    method Settle(p: int, onLeft: bool, ghost c: Ctx, ghost t: Tree, ghost h: int)
      requires Stored() && tree == Plug(c, t) && Pending(c, t, h) && c.In? && c.red && c.up.In? && p == c.id
      requires c.isLeft == c.up.isLeft == onLeft && !Red(c.up.other)
      modifies this
      ensures Stored() && tree == Plug(Settled(c), t) && Pending(Settled(c), t, h) && Depth(Settled(c)) < Depth(c)
      ensures size == old(size) && top == old(top)
      ensures |cells| == |old(cells)| && Inorder(tree) == old(Inorder(tree)) && Ids(tree) == old(Ids(tree))
    {
      hide Plug, Inorder, Ids, Stored, Fits, RB;
      SettledKeeps(c, t, h);
      UpPlug(c, t);
      ghost var P := Up(c, t);
      Paint(p, false, c.up, P);
      UpPlug(c.up, Black(P));
      ghost var Q := Up(c.up, Black(P));
      GrandParent(c, t);
      var g := cells[p].parent;
      Paint(g, true, c.up.up, Q);
      Rotate(g, !onLeft, c.up.up, Q.(red := true));
      SettledPlug(c, t);
    }

    lemma GrandParent(c: Ctx, t: Tree)
      requires Stored() && c.In? && c.up.In? && tree == Plug(c.up, Black(Up(c, t)))
      ensures 0 < c.id < |cells| && cells[c.id].parent == c.up.id
    { Open(c.up, Black(Up(c, t))); }

    ghost predicate Valid() reads this {
      Stored() && Good(tree) && Sorted(Inorder(tree)) && size == |Inorder(tree)|
    }

    constructor()
      ensures Valid() && tree == Leaf && size == 0 && |cells| == 1
    {
      cells := [Cell(0, NULL, NULL, NULL, false)];
      root, size, tree, top := 0, 0, Leaf, 0;
      assert RB(Leaf, 0);
    }

    // What one step of a descent reads.
    lemma Reads(c: Ctx, t: Tree)
      requires Stored() && tree == Plug(c, t)
      ensures Ref(t) == 0 <==> t.Leaf?
      ensures t.Node? ==> 0 < t.id < |cells| && cells[t.id].key == t.key
      ensures t.Node? ==> cells[t.id].left == Ref(t.left) && cells[t.id].right == Ref(t.right)
      ensures t.Node? ==> Plug(Down(c, t, true), t.left) == Plug(c, t) == Plug(Down(c, t, false), t.right)
    { Open(c, t); }

    // The node with this key, if there is one.
    method Search(key: int) returns (r: int)
      requires Valid()
      ensures r == NULL ==> forall e :: e in Inorder(tree) ==> e.key != key
      ensures r != NULL ==> Entry(key, r) in Inorder(tree)
    {
      hide Plug, Inorder, Stored, Pre, Post, Down, Sorted;
      var node := root;
      ghost var c, t := Top, tree;
      Start();
      while node != 0
        invariant tree == Plug(c, t) && node == Ref(t) && (node == 0 <==> t.Leaf?)
        invariant AllBelow(Pre(c), key) && AllAbove(Post(c), key)
        decreases t
      {
        Reads(c, t);
        AroundKeys(c, t);
        DownKeeps(c, t, key < cells[node].key, 0);
        if key < cells[node].key {
          c, t, node := Down(c, t, true), t.left, cells[node].left;
        } else if key > cells[node].key {
          c, t, node := Down(c, t, false), t.right, cells[node].right;
        } else {
          Present(c, t);
          return node;
        }
        Reads(c, t);
      }
      Absent(c, key);
      return NULL;
    }

    lemma Start()
      requires Stored()
      ensures tree == Plug(Top, tree) && root == Ref(tree) && Pre(Top) == [] && Post(Top) == []
      ensures root == 0 <==> tree.Leaf?
      ensures Sound(Top, Leaf, 0)
    { Reads(Top, tree); }

    lemma Present(c: Ctx, t: Tree)
      requires tree == Plug(c, t) && t.Node?
      ensures Entry(t.key, t.id) in Inorder(tree)
    {
      PlugInorder(c, t);
    }

    lemma Absent(c: Ctx, key: int)
      requires tree == Plug(c, Leaf) && AllBelow(Pre(c), key) && AllAbove(Post(c), key)
      ensures forall e :: e in Inorder(tree) ==> e.key != key
    {
      PlugInorder(c, Leaf);
    }

    // The node of the least key at or after key, else of the least key of all.
    method Lookup(key: int) returns (r: int)
      requires Valid()
      ensures tree.Leaf? <==> r == NULL
      ensures tree.Node? ==> Inorder(tree) != [] && r == Successor(Inorder(tree), key).id
    {
      hide Plug, Inorder, Stored, Pre, Post, Down, Sorted, Successor;
      Start();
      r := NULL;
      if root == 0 { return; }
      var temp := root;
      ghost var c, t := Top, tree;
      while temp != 0
        invariant tree == Plug(c, t) && temp == Ref(t) && (temp == 0 <==> t.Leaf?)
        invariant AllBelow(Pre(c), key)
        invariant r == NULL ==> Post(c) == []
        invariant r != NULL ==> r > 0 && Post(c) != [] && Post(c)[0].id == r && Post(c)[0].key >= key
        decreases t
      {
        Reads(c, t);
        AroundKeys(c, t);
        DownKeeps(c, t, key <= cells[temp].key, 0);
        if key <= cells[temp].key {
          r := temp;
          c, t, temp := Down(c, t, true), t.left, cells[temp].left;
        } else {
          c, t, temp := Down(c, t, false), t.right, cells[temp].right;
        }
        Reads(c, t);
      }
      LookupEnd(c, key);
      if r == NULL { r := Min(root, Top, tree); }
    }

    lemma LookupEnd(c: Ctx, key: int)
      requires tree == Plug(c, Leaf) && AllBelow(Pre(c), key) && tree.Node?
      ensures Inorder(tree) != []
      ensures Post(c) != [] && Post(c)[0].key >= key ==> Successor(Inorder(tree), key) == Post(c)[0]
      ensures Post(c) == [] ==> Successor(Inorder(tree), key) == Inorder(tree)[0]
    {
      PlugInorder(c, Leaf);
      assert Pre(c) + [] + Post(c) == Pre(c) + Post(c);
      if Post(c) != [] && Post(c)[0].key >= key { SuccessorAt(Pre(c), Post(c), key); }
    }

    // The leftmost node below n.
    method Min(n: int, ghost c0: Ctx, ghost t0: Tree) returns (r: int)
      requires Stored() && tree == Plug(c0, t0) && n == Ref(t0)
      ensures t0.Leaf? <==> r == NULL
      ensures t0.Node? ==> r > 0 && Inorder(t0) != [] && r == Inorder(t0)[0].id
    {
      hide Plug, Inorder, Stored, Down, Laid;
      Reads(c0, t0);
      if n == 0 { return NULL; }
      r := n;
      ghost var c, t := c0, t0;
      FirstLeft(t);
      Reads(Down(c, t, true), t.left);
      while cells[r].left != 0
        invariant tree == Plug(c, t) && t.Node? && r == t.id && 0 < r < |cells| && cells[r].left == Ref(t.left)
        invariant (Ref(t.left) == 0 <==> t.left.Leaf?)
        invariant Inorder(t) != [] && Inorder(t)[0] == Inorder(t0)[0] && Inorder(t0) != []
        invariant t.left.Leaf? ==> Inorder(t)[0].id == r
        decreases t
      {
        Reads(c, t);
        Reads(Down(c, t, true), t.left);
        FirstLeft(t);
        FirstLeft(t.left);
        r := cells[r].left;
        c, t := Down(c, t, true), t.left;
        Reads(Down(c, t, true), t.left);
      }
    }

    lemma FirstLeft(t: Tree)
      requires t.Node?
      ensures Inorder(t) != []
      ensures t.left.Node? ==> Inorder(t.left) != [] && Inorder(t)[0] == Inorder(t.left)[0]
      ensures t.left.Leaf? ==> Inorder(t)[0].id == t.id
    {}

    // A node that was never in the tree.
    ghost predicate Unused(n: int) reads this { 0 < n < |cells| && n !in Ids(tree) && n != top }

    // Hangs the new node at the end of the search path of its key, red.
    method Link(n: int) returns (ghost c: Ctx)
      requires Valid() && Unused(n)
      modifies this
      ensures Stored() && |cells| == |old(cells)| && size == old(size) &&
              top == (if old(tree).Leaf? then 0 else old(top))
      ensures c == Path(Top, old(tree), old(cells[n].key))
      ensures var t := Node(Leaf, n, old(cells[n].key), true, Leaf); tree == Plug(c, t) && Pending(c, t, 0)
      ensures Inorder(tree) == Placed(old(Inorder(tree)), Entry(old(cells[n].key), n)) &&
              Ids(tree) == old(Ids(tree)) + {n}
    {
      hide Plug, Inorder, Sorted, Good, Ids, Laid, Placed, Distinct, Pending, Sound, Pre, Post, Down, CtxDistinct,
           CtxIds, Around, RootOf;
      ghost var a, key := cells, cells[n].key;
      Start();
      if root == 0 {
        c := Top;
        LinkFacts(c, n, key);
        root := n;
        top := 0;
        cells := cells[n := cells[n].(parent := 0)];
      } else {
        var y;
        y, c := Descend(cells[n].key);
        LinkFacts(c, n, key);
        cells := cells[n := cells[n].(parent := y)];
        cells := cells[y := if cells[n].key < cells[y].key then cells[y].(left := n) else cells[y].(right := n)];
      }
      cells := cells[n := cells[n].(left := 0, right := 0, red := true)];
      LinkDone(a, cells, c, n, key, top);
      tree := Plug(c, Node(Leaf, n, key, true, Leaf));
    }

    lemma LinkFacts(c: Ctx, n: int, key: int)
      requires Stored() && Unused(n) && tree == Plug(c, Leaf) && Sound(c, Leaf, 0)
      requires AllAtMost(Pre(c), key) && AllAbove(Post(c), key)
      ensures n !in CtxIds(c) && CtxDistinct(c) && Around(cells, c, 0, top) && (c.Top? ==> Around(cells, c, 0, 0))
      ensures c.In? ==> 0 < c.id < |cells| && cells[c.id] == FrameCell(c, 0, top) && c.id != n && RootOf(c, n) == root
      ensures c.In? ==> c.id != 0 && c.id != top
      ensures c.Top? ==> RootOf(c, n) == n
      ensures Pending(c, Node(Leaf, n, key, true, Leaf), 0)
      ensures Placed(Inorder(tree), Entry(key, n)) == Pre(c) + [Entry(key, n)] + Post(c)
      ensures 0 !in Ids(tree)
    {
      hide Plug, CtxDistinct, Laid, Placed, Pre, Post;
      Open(c, Leaf);
      PlugApart(c, Leaf);
      PlugInorder(c, Leaf);
      OwnIds(c, Leaf);
      assert Pre(c) + [] + Post(c) == Pre(c) + Post(c);
      PlacedAt(Pre(c), Post(c), Entry(key, n));
    }

    // The search path of a new key: y is the last node on it.
    method Descend(key: int) returns (y: int, ghost c: Ctx)
      requires Valid() && tree.Node?
      ensures tree == Plug(c, Leaf) && c.In? && y == c.id && c.isLeft == (key < c.key) && Sound(c, Leaf, 0)
      ensures c == Path(Top, tree, key)
      ensures AllAtMost(Pre(c), key) && AllAbove(Post(c), key)
    {
      hide Plug, Inorder, Stored, Sorted, RB, Fits, Red, Pre, Post;
      Start();
      c, y := Top, 0;
      var x := root;
      ghost var t, h := tree, SoundTop(tree);
      while x != 0
        invariant tree == Plug(c, t) && x == Ref(t) && (x == 0 <==> t.Leaf?)
        invariant Sound(c, t, h) && Path(c, t, key) == Path(Top, tree, key)
        invariant AllAtMost(Pre(c), key) && AllAbove(Post(c), key)
        invariant c.Top? ==> t.Node?
        invariant c.In? ==> y == c.id && c.isLeft == (key < c.key)
        decreases t
      {
        Reads(c, t);
        AroundKeys(c, t);
        y := x;
        ghost var left := key < cells[x].key;
        DownKeeps(c, t, left, h);
        x := if key < cells[x].key then cells[x].left else cells[x].right;
        c, t, h := Down(c, t, left), Side(t, left), h - Step(t.red);
        Reads(c, t);
      }
      LeafHeight(h);
    }

    lemma LeafHeight(h: int)
      requires RB(Leaf, h)
      ensures h == 0
    {}

    method Insert(n: int) returns (tested: seq<int>)
      requires Valid() && (n != NULL && n != 0 ==> Unused(n))
      modifies this
      ensures Valid() && |cells| == |old(cells)|
      ensures n == NULL || n == 0 ==> tree == old(tree) && cells == old(cells) && top == old(top)
      ensures n > 0 ==>
                Inorder(tree) == Placed(old(Inorder(tree)), Entry(old(cells[n].key), n)) &&
                Ids(tree) == old(Ids(tree)) + {n}
      ensures n > 0 ==> top == (if old(tree).Leaf? then 0 else old(top)) && size == old(size) + 1
      ensures n > 0 ==> forall i :: i in tested ==> i in Ids(tree) || i == top
      ensures n > 0 ==> (top in tested <==> Climbs(Path(Top, old(tree), old(cells[n].key))))
      ensures n > 0 ==>
                var c := Path(Top, old(tree), old(cells[n].key));
                (c.In? ==> !c.red) ==> tree == Black(Plug(c, Node(Leaf, n, old(cells[n].key), true, Leaf)))
    {
      hide Plug, Inorder, Sorted, Good, Ids, Laid, Placed, Distinct, Pending, Sound, Climbs, Path;
      if n == NULL || n == 0 { return []; }
      ghost var before, key := Inorder(tree), cells[n].key;
      ghost var c := Link(n);
      PlacedSorted(before, Entry(key, n));
      tested := InsertFixup(n, c, Node(Leaf, n, key, true, Leaf), 0);
      size := size + 1;
    }

    // The sentinel in the hole carries the hole's parent, as a node there would.
    ghost predicate Held(c: Ctx, t: Tree)
      reads this
      requires |cells| > 0
    { c.In? && t.Leaf? ==> cells[0].parent == c.id }

    lemma SiblingReads(c: Ctx, t: Tree)
      requires Stored() && tree == Plug(c, t) && c.In? && c.other.Node? && Held(c, t)
      ensures 0 <= Ref(t) < |cells| && cells[Ref(t)].parent == c.id && 0 < c.id < |cells|
      ensures (cells[c.id].left == Ref(t)) == c.isLeft
      ensures (if c.isLeft then cells[c.id].right else cells[c.id].left) == c.other.id
      ensures 0 < c.other.id < |cells| && cells[c.other.id].red == c.other.red && cells[c.id].red == c.red
      ensures cells[c.other.id].left == Ref(c.other.left) && cells[c.other.id].right == Ref(c.other.right)
      ensures 0 <= Ref(c.other.left) < |cells| && cells[Ref(c.other.left)].red == Red(c.other.left)
      ensures 0 <= Ref(c.other.right) < |cells| && cells[Ref(c.other.right)].red == Red(c.other.right)
    {
      Open(c, t);
      AcrossPlug(c, t);
      Open(Across(c, t), c.other);
      OwnIds(c, t);
      OwnIds(c, c.other);
      DownKeeps(Across(c, t), c.other, true, 0);
      Open(Down(Across(c, t), c.other, true), c.other.left);
      DownKeeps(Across(c, t), c.other, false, 0);
      Open(Down(Across(c, t), c.other, false), c.other.right);
    }

    // A red sibling: it turns black and goes up, the parent turns red.
    method RaiseSibling(p: int, w: int, onLeft: bool, ghost c: Ctx, ghost t: Tree)
      requires Stored() && tree == Plug(c, t) && c.In? && c.other.Node? && Held(c, t)
      requires p == c.id && w == c.other.id && onLeft == c.isLeft
      modifies this
      ensures Stored() && tree == Plug(RedSibling(c), t) && Held(RedSibling(c), t)
      ensures size == old(size) && top == old(top) && Inorder(tree) == old(Inorder(tree)) && Ids(tree) == old(Ids(tree))
      ensures |cells| == |old(cells)|
    {
      hide Plug, Inorder, Ids, Laid, Distinct;
      AcrossPlug(c, t);
      Paint(w, false, Across(c, t), c.other);
      ghost var d := c.(other := Black(c.other));
      AcrossPlug(d, t);
      Paint(p, true, d.up, Up(d, t));
      RedSiblingPlug(c, t);
      Rotate(p, onLeft, c.up, Up(d.(red := true), t));
    }

    // A red near nephew: it turns black and goes up, the sibling turns red.
    method RaiseNear(w: int, onLeft: bool, ghost c: Ctx, ghost t: Tree)
      requires Stored() && tree == Plug(c, t) && c.In? && c.other.Node? && Side(c.other, c.isLeft).Node? && Held(c, t)
      requires w == c.other.id && onLeft == c.isLeft
      modifies this
      ensures Stored() && tree == Plug(c.(other := NearUp(c)), t) && Held(c, t)
      ensures size == old(size) && top == old(top) && Inorder(tree) == old(Inorder(tree)) && Ids(tree) == old(Ids(tree))
      ensures |cells| == |old(cells)|
    {
      hide Plug, Inorder, Ids, Laid, Distinct;
      SiblingReads(c, t);
      AcrossPlug(c, t);
      ghost var a, o := Across(c, t), c.other;
      DownKeeps(a, o, c.isLeft, 0);
      ghost var n := Side(o, c.isLeft);
      ghost var e := Down(a, o, c.isLeft);
      Paint(if onLeft then cells[w].left else cells[w].right, false, e, n);
      UpPlug(e, Black(n));
      Paint(w, true, a, Up(e, Black(n)));
      NearUpIs(c);
      Rotate(w, !onLeft, a, Mk(c.isLeft, Black(n), o.id, o.key, true, Side(o, !c.isLeft)));
      AcrossPlug(c.(other := NearUp(c)), t);
    }

    // A red far nephew: the sibling takes the parent's place and colour.
    method Balance(p: int, w: int, onLeft: bool, ghost c: Ctx, ghost t: Tree)
      requires Stored() && tree == Plug(c, t) && c.In? && c.other.Node? && Side(c.other, !c.isLeft).Node? && Held(c, t)
      requires p == c.id && w == c.other.id && onLeft == c.isLeft
      modifies this
      ensures Stored() && tree == Plug(c.up, Balanced(c, t))
      ensures size == old(size) && top == old(top) && Inorder(tree) == old(Inorder(tree)) && Ids(tree) == old(Ids(tree))
      ensures |cells| == |old(cells)|
    {
      hide Plug, Inorder, Ids, Laid, Distinct;
      SiblingReads(c, t);
      var far := if onLeft then cells[w].right else cells[w].left;
      AcrossPlug(c, t);
      Paint(w, cells[p].red, Across(c, t), c.other);
      ghost var o1 := c.other.(red := c.red);
      ghost var d := c.(other := o1);
      AcrossPlug(d, t);
      Paint(p, false, c.up, Up(d, t));
      ghost var e := d.(red := false);
      AcrossPlug(e, t);
      DownKeeps(Across(e, t), o1, !c.isLeft, 0);
      ghost var f := Down(Across(e, t), o1, !c.isLeft);
      Paint(far, false, f, Side(o1, !c.isLeft));
      UpPlug(f, Black(Side(o1, !c.isLeft)));
      ghost var o2 := Up(f, Black(Side(o1, !c.isLeft)));
      AcrossPlug(e.(other := o2), t);
      BalancedPlug(c, t);
      Rotate(p, onLeft, c.up, Mk(c.isLeft, t, c.id, c.key, false, o2));
    }

    // One round: the shortage moves up, ends, or meets a red node, which ends it next.
    method DeleteStep(n: int, ghost c0: Ctx, ghost t: Tree, ghost h: int)
      returns (m: int, ghost d: Ctx, ghost s: Tree, ghost k: int, ghost done: bool)
      requires Stored() && tree == Plug(c0, t) && Short(c0, t, h) && c0.In? && !Red(t) && n == Ref(t) && Held(c0, t)
      modifies this
      ensures Stored() && tree == Plug(d, s) && m == Ref(s) && s.Node?
      ensures if done then Good(tree) && d.Top? else Short(d, s, k) && (Red(s) || Depth(d) < Depth(c0))
      ensures size == old(size) && top == old(top) && Inorder(tree) == old(Inorder(tree)) && Ids(tree) == old(Ids(tree))
      ensures |cells| == |old(cells)|
    {
      hide Plug, Inorder, Ids, Laid, Distinct, Stored, Short, Good;
      ghost var c := c0;
      SiblingThere(c, t, h);
      SiblingReads(c, t);
      var p := cells[n].parent;
      var onLeft := cells[p].left == n;
      var w := if onLeft then cells[p].right else cells[p].left;
      if cells[w].red {
        RaiseSibling(p, w, onLeft, c, t);
        RedSiblingKeeps(c, t, h);
        c := RedSibling(c);
        SiblingThere(c, t, h);
        SiblingReads(c, t);
        w := if onLeft then cells[p].right else cells[p].left;
      }
      if !cells[cells[w].left].red && !cells[cells[w].right].red {
        m, d, s, k, done := PushUp(p, w, c, t, h);
      } else {
        m, d, s, k, done := Finish(p, w, onLeft, c, t, h);
      }
    }

    // Black nephews: the sibling turns red and the parent's subtree is short.
    method PushUp(p: int, w: int, ghost c: Ctx, ghost t: Tree, ghost h: int)
      returns (m: int, ghost d: Ctx, ghost s: Tree, ghost k: int, ghost done: bool)
      requires Stored() && tree == Plug(c, t) && Short(c, t, h) && c.In? && !Red(t) && Held(c, t)
      requires c.other.Node? && !c.other.red && !Red(c.other.left) && !Red(c.other.right) && p == c.id &&
               w == c.other.id
      modifies this
      ensures Stored() && tree == Plug(d, s) && m == Ref(s) && s.Node? && !done
      ensures Short(d, s, k) && d == c.up && Red(s) == c.red
      ensures size == old(size) && top == old(top) && Inorder(tree) == old(Inorder(tree)) && Ids(tree) == old(Ids(tree))
      ensures |cells| == |old(cells)|
    {
      hide Plug, Inorder, Ids, Laid, Distinct, Stored, Short;
      PushUpKeeps(c, t, h);
      SiblingReads(c, t);
      AcrossPlug(c, t);
      Paint(w, true, Across(c, t), c.other);
      ghost var e := c.(other := c.other.(red := true));
      AcrossPlug(e, t);
      m, d, s, k, done := p, c.up, Up(e, t), h + Step(c.red), false;
    }

    // A red nephew: one or two rotations end the shortage.
    method Finish(p: int, w0: int, onLeft: bool, ghost c0: Ctx, ghost t: Tree, ghost h: int)
      returns (m: int, ghost d: Ctx, ghost s: Tree, ghost k: int, ghost done: bool)
      requires Stored() && tree == Plug(c0, t) && Short(c0, t, h) && c0.In? && !Red(t) && Held(c0, t)
      requires c0.other.Node? && !c0.other.red && (Red(c0.other.left) || Red(c0.other.right))
      requires p == c0.id && w0 == c0.other.id && onLeft == c0.isLeft
      modifies this
      ensures Stored() && tree == Plug(d, s) && m == Ref(s) && s.Node? && done && Good(tree) && d.Top?
      ensures size == old(size) && top == old(top) && Inorder(tree) == old(Inorder(tree)) && Ids(tree) == old(Ids(tree))
      ensures |cells| == |old(cells)|
    {
      hide Plug, Inorder, Ids, Laid, Distinct, Stored, Short, Good;
      ghost var c := c0;
      var w := w0;
      SiblingReads(c, t);
      if !cells[if onLeft then cells[w].right else cells[w].left].red {
        NearUpKeeps(c, t, h);
        RaiseNear(w, onLeft, c, t);
        c := c.(other := NearUp(c));
        SiblingReads(c, t);
        w := if onLeft then cells[p].right else cells[p].left;
      }
      BalancedGood(c, t, h);
      Balance(p, w, onLeft, c, t);
      RootIs(c.up, Balanced(c, t));
      m, d, s, k, done := root, Top, tree, 0, true;
    }

    method DeleteFixup(n: int, ghost c0: Ctx, ghost t0: Tree, ghost h0: int)
      requires Stored() && tree == Plug(c0, t0) && Short(c0, t0, h0) && c0.In? && n == Ref(t0) && Held(c0, t0)
      modifies this
      ensures Stored() && Good(tree) && size == old(size) && top == old(top)
      ensures Inorder(tree) == old(Inorder(tree)) && Ids(tree) == old(Ids(tree)) && |cells| == |old(cells)|
    {
      hide Plug, Inorder, Ids, Laid, Distinct, Short, Good;
      var node := n;
      ghost var c, t, h, done := c0, t0, h0, false;
      AtRoot(c, t);
      while node != root && !cells[node].red
        invariant Stored() && tree == Plug(c, t) && node == Ref(t) && 0 <= node < |cells|
        invariant cells[node].red == Red(t) && (node == root <==> c.Top?)
        invariant if done then Good(tree) && c.Top? else Short(c, t, h)
        invariant t.Leaf? ==> c.In? && Held(c, t)
        invariant size == old(size) && top == old(top) && Inorder(tree) == old(Inorder(tree)) &&
                  Ids(tree) == old(Ids(tree))
        invariant |cells| == |old(cells)|
        decreases if done || Red(t) then 0 else 1 + Depth(c)
      {
        node, c, t, h, done := DeleteStep(node, c, t, h);
        AtRoot(c, t);
      }
      FixupEnd(c, t, h, done);
      Paint(node, false, c, t);
    }

    lemma AtRoot(c: Ctx, t: Tree)
      requires Stored() && tree == Plug(c, t) && (c.In? || t.Node?)
      ensures 0 <= Ref(t) < |cells| && cells[Ref(t)].red == Red(t) && (Ref(t) == root <==> c.Top?)
    {
      Open(c, t);
      PlugApart(c, t);
      OwnIds(c, t);
      RootAtTop(c, Ref(t));
    }

    lemma FixupEnd(c: Ctx, t: Tree, h: int, done: bool)
      requires t.Node? && tree == Plug(c, t)
      requires if done then Good(tree) && c.Top? else Short(c, t, h) && (c.Top? || Red(t))
      ensures Good(Plug(c, Black(t)))
    {
      if !done { ShortEnd(c, t, h); }
    }

    // Takes temp out of its place: its child subst, or the sentinel, hangs there instead.
    method Splice(temp: int, node: int, subst: int)
      requires 0 < temp < |cells| && 0 <= subst < |cells| && 0 <= cells[temp].parent < |cells|
      requires subst != cells[temp].parent && subst != temp && cells[temp].parent != temp
      modifies this`cells
      ensures var p := old(cells[temp].parent);
        |cells| == |old(cells)| &&
        cells[subst] == old(cells[subst]).(parent := if p == node then temp else p) &&
        cells[p] == (if old(cells[p]).left == temp then old(cells[p]).(left := subst)
                     else old(cells[p]).(right := subst)) &&
        forall i :: 0 <= i < |cells| && i != subst && i != p ==> cells[i] == old(cells[i])
    {
      cells := cells[subst := cells[subst].(parent := if cells[temp].parent == node then temp else cells[temp].parent)];
      var p := cells[temp].parent;
      cells := cells[p := if cells[p].left == temp then cells[p].(left := subst) else cells[p].(right := subst)];
    }

    // temp takes node's place below node's parent, or at the root.
    method TakeLink(temp: int, node: int, ghost c: Ctx)
      requires 0 < temp < |cells| && 0 < node < |cells| && temp != node
      requires (root == node <==> c.Top?) && cells[node].parent == ParentOf(c, top)
      requires c.In? ==>
                0 < c.id < |cells| && cells[c.id] == FrameCell(c, node, top) && Ref(c.other) != node &&
                c.id != temp && c.id != node
      modifies this`cells, this`root
      ensures root == (if c.Top? then temp else old(root))
      ensures cells ==
                var a := old(cells)[temp := old(cells[temp]).(parent := old(cells[node].parent))];
                if c.In? then a[c.id := FrameCell(c, temp, top)] else a
    {
      hide FrameCell;
      cells := cells[temp := cells[temp].(parent := cells[node].parent)];
      Replace(node, temp, cells[node].parent, c);
    }

    // temp takes node's children and colour.
    method TakeChildren(temp: int, node: int)
      requires 0 < temp < |cells| && 0 < node < |cells| && temp != node
      requires 0 <= cells[node].left < |cells| && 0 <= cells[node].right < |cells|
      requires cells[node].left == cells[node].right ==> cells[node].left == 0
      requires {cells[node].left, cells[node].right} !! {temp, node}
      modifies this`cells
      ensures |cells| == |old(cells)|
      ensures var l, r := old(cells[node].left), old(cells[node].right);
        cells[temp] == old(cells[temp]).(left := l, right := r, red := old(cells[node].red)) &&
        (l != 0 ==> cells[l] == old(cells[l]).(parent := temp)) &&
        (r != 0 ==> cells[r] == old(cells[r]).(parent := temp)) &&
        forall i :: 0 <= i < |cells| && i != temp && (l != 0 ==> i != l) && (r != 0 ==> i != r) ==>
          cells[i] == old(cells[i])
    {
      var l, r := cells[node].left, cells[node].right;
      cells := cells[temp := cells[temp].(right := r, left := l)];
      if l != 0 { cells := cells[l := cells[l].(parent := temp)]; }
      if r != 0 { cells := cells[r := cells[r].(parent := temp)]; }
      cells := cells[temp := cells[temp].(red := cells[node].red)];
    }

    // temp takes node's place, children and colour.
    method TakeOver(temp: int, node: int, ghost c: Ctx)
      requires 0 < temp < |cells| && 0 < node < |cells| && temp != node
      requires (root == node <==> c.Top?) && cells[node].parent == ParentOf(c, top)
      requires c.In? ==>
                0 < c.id < |cells| && cells[c.id] == FrameCell(c, node, top) && Ref(c.other) != node &&
                c.id != temp && c.id != node
      requires 0 <= cells[node].left < |cells| && 0 <= cells[node].right < |cells|
      requires cells[node].left == cells[node].right ==> cells[node].left == 0
      requires {cells[node].left, cells[node].right} !! {temp, node} &&
               (c.In? ==> c.id !in {cells[node].left, cells[node].right})
      modifies this`cells, this`root
      ensures |cells| == |old(cells)| && root == (if c.Top? then temp else old(root))
      ensures var l, r := old(cells[node].left), old(cells[node].right);
        cells[temp] == old(cells[node]).(key := old(cells[temp].key)) &&
        (c.In? ==> cells[c.id] == FrameCell(c, temp, top)) &&
        (l != 0 ==> cells[l] == old(cells[l]).(parent := temp)) &&
        (r != 0 ==> cells[r] == old(cells[r]).(parent := temp)) &&
        forall i ::
          0 <= i < |cells| && i != temp && (c.In? ==> i != c.id) && (l != 0 ==> i != l) && (r != 0 ==> i != r) ==>
          cells[i] == old(cells[i])
    {
      hide FrameCell, ParentOf;
      TakeLink(temp, node, c);
      TakeChildren(temp, node);
    }

    method Clear(n: int)
      requires 0 <= n < |cells|
      modifies this`cells
      ensures cells == old(cells)[n := old(cells[n]).(left := NULL, right := NULL, parent := NULL)]
    { cells := cells[n := cells[n].(left := NULL, right := NULL, parent := NULL)]; }

    // The root goes and its only child, painted black, is the root: its parent field keeps
    // the removed node.
    method RemoveRoot(temp: int, subst: int, ghost t: Tree, ghost x: Tree)
      requires Stored() && tree == t && t.Node? && !t.red && temp == t.id && subst == Ref(x)
      requires (t.left.Leaf? && x == t.right) || (t.right.Leaf? && x == t.left)
      modifies this
      ensures Stored() && tree == Black(x) && top == temp && size == old(size) && |cells| == |old(cells)|
    {
      hide Distinct;
      RootFacts(t, x);
      ghost var a := cells;
      root := subst;
      cells := cells[subst := cells[subst].(red := false)];
      Clear(temp);
      BlackLaid(a, cells, x, temp);
      tree := Black(x);
      top := temp;
    }

    lemma RootFacts(t: Tree, x: Tree)
      requires Stored() && tree == t && t.Node?
      requires (t.left.Leaf? && x == t.right) || (t.right.Leaf? && x == t.left)
      ensures 0 < t.id < |cells| && cells[t.id].red == t.red && 0 <= Ref(x) < |cells| && Ref(x) != t.id
      ensures Laid(cells, x, t.id) && t.id !in Ids(x) && Distinct(x) && 0 !in Ids(x)
    {
      LaidIds(cells, tree, top);
      OwnIds(Top, x);
    }

    // The node n has at most one child x, which hangs in its place.
    method RemoveOne(n: int, subst: int, ghost c: Ctx, ghost t: Tree, ghost x: Tree)
      requires Stored() && tree == Plug(c, t) && t.Node? && c.In? && n == t.id && subst == Ref(x)
      requires (t.left.Leaf? && x == t.right) || (t.right.Leaf? && x == t.left)
      modifies this
      ensures Stored() && tree == Plug(c, x) && Held(c, x) && Ids(tree) == old(Ids(tree)) - {n}
      ensures top == old(top) && size == old(size) && |cells| == |old(cells)|
    {
      hide Laid, Distinct, Plug, Around, CtxDistinct, Ids, CtxIds;
      OneFacts(c, t, x);
      ghost var a := cells;
      Splice(n, n, subst);
      Clear(n);
      SpliceDone(a, cells, c, t, x, top);
      tree := Plug(c, x);
    }

    lemma OneFacts(c: Ctx, t: Tree, x: Tree)
      requires Stored() && tree == Plug(c, t) && t.Node? && c.In?
      requires (t.left.Leaf? && x == t.right) || (t.right.Leaf? && x == t.left)
      ensures Apart(c, t) && Laid(cells, t, c.id) && Around(cells, c, t.id, top)
      ensures 0 < t.id < |cells| && cells[t.id].parent == c.id && 0 < c.id < |cells| && c.id != t.id
      ensures cells[c.id] == FrameCell(c, t.id, top) && Ref(c.other) != t.id
      ensures 0 <= Ref(x) < |cells| && Ref(x) != c.id && Ref(x) != t.id && (x.Node? ==> x.id > 0)
      ensures t.id in Ids(tree) && top != t.id && top != c.id && (x.Node? ==> top != x.id) && 0 !in Ids(tree)
    {
      Open(c, t);
      NodeFacts(cells, c, t, top);
      PlugApart(c, t);
      if c.other.Node? { OwnIds(c, c.other); }
    }

    // The next node, spliced out: the cells are those of the tree without it, up to subst's parent.
    method SpliceNext(n: int, temp: int, subst: int, ghost c: Ctx, ghost t: Tree) returns (ghost v: seq<Cell>)
      requires Stored() && tree == Plug(c, t) && t.Node? && t.right.Node? && n == t.id
      requires temp == MinNode(t.right).id && subst == Ref(MinNode(t.right).right)
      modifies this`cells
      ensures Laid(v, Plug(c, NextGone(t)), top) && Distinct(Plug(c, NextGone(t))) &&
              Ids(Plug(c, NextGone(t))) == Ids(tree) - {temp}
      ensures |cells| == |v| == |old(cells)| && 0 < temp < |v| && 0 <= subst < |v| &&
              v[temp].key == MinNode(t.right).key
      ensures forall i :: 0 <= i < |cells| && i != subst ==> cells[i] == v[i]
      ensures cells[subst] == v[subst].(parent := if t.right.left.Leaf? then temp else MinUp(t.right))
      ensures if t.right.left.Leaf? then subst == Ref(NextGone(t).right) else cells[subst] == v[subst]
      ensures v[0].red == old(cells[0].red) &&
              (top !in Ids(tree) && 0 <= top < |v| ==> v[top].red == old(cells[top].red))
      ensures temp != n && subst != temp && root == RootOf(c, n) && temp in Ids(tree) && n in Ids(tree)
    {
      hide Laid, Distinct, Plug, Around, CtxDistinct, Ids, CtxIds, MinCtx, MinUp, MinRest, MinNode, RootOf;
      ghost var d, m := NextCtx(c, t), MinNode(t.right);
      SplicedFacts(cells, c, t, top);
      NextPlug(c, t);
      NextIds(c, t);
      v := Spliced(cells, d, m.right, top);
      Splice(temp, n, subst);
    }

    // The spliced-out node takes the place of n; n is cleared.
    method TakePlace(n: int, temp: int, subst: int, ghost c: Ctx, ghost u: Tree, ghost v: seq<Cell>)
      requires u.Node? && n == u.id && Laid(v, Plug(c, u), top) && Distinct(Plug(c, u)) && root == RootOf(c, n)
      requires |cells| == |v| && 0 < temp < |v| && temp !in Ids(Plug(c, u)) && 0 <= top && 0 <= subst < |v| &&
               subst != n && subst != temp
      requires c.In? ==> subst != c.id
      requires forall i :: 0 <= i < |v| && i != subst ==> cells[i] == v[i]
      requires cells[subst] == v[subst] || (subst == Ref(u.right) && cells[subst] == v[subst].(parent := temp))
      modifies this`cells, this`root
      ensures SwapWrites(v, cells, c, u, temp, v[temp].key, top) && root == RootOf(c, temp)
      ensures cells[0] == old(cells[0])
      ensures forall i :: 0 <= i < |v| && i != temp && i !in Ids(Plug(c, u)) ==> cells[i] == old(cells[i])
    {
      hide Laid, Distinct, Plug, Around, CtxDistinct, Ids, CtxIds, RootOf, FrameCell, SwapWrites;
      TakeOverFacts(v, c, u, temp, top);
      TopRoot(c, temp);
      NotSentinel(v, c, u);
      TakeOver(temp, n, c);
      Clear(n);
      PlaceTaken(old(cells), cells, v, temp, subst, c, u);
    }

    // What the cells are once temp has all of node's links; node's own cell does not matter any more.
    lemma PlaceTaken(a: seq<Cell>, b: seq<Cell>, v: seq<Cell>, temp: int, subst: int, c: Ctx, u: Tree)
      requires u.Node? && |a| == |b| == |v| && 0 < temp < |v| && 0 <= subst < |v| && subst != temp
      requires 0 < u.id < |v| && v[u.id] == Cell(u.key, ParentOf(c, top), Ref(u.right), Ref(u.left), u.red)
      requires forall i :: 0 <= i < |v| && i != subst ==> a[i] == v[i]
      requires a[subst] == v[subst] || (subst == Ref(u.right) && a[subst] == v[subst].(parent := temp))
      requires 0 <= Ref(u.left) < |v| && 0 <= Ref(u.right) < |v| && subst != u.id
      requires (u.left.Node? ==> u.left.id > 0) && (u.right.Node? ==> u.right.id > 0)
      requires b[temp] == v[u.id].(key := v[temp].key)
      requires c.In? ==> 0 < c.id < |v| && b[c.id] == FrameCell(c, temp, top)
      requires u.left.Node? ==> b[u.left.id] == a[u.left.id].(parent := temp)
      requires u.right.Node? ==> b[u.right.id] == a[u.right.id].(parent := temp)
      requires u.left.Node? && u.right.Node? ==> u.left.id != u.right.id
      requires forall i ::
                 0 <= i < |v| && i !in {temp, u.id, Ref(u.left), Ref(u.right)} && (c.In? ==> i != c.id) ==>
                 b[i] == a[i]
      ensures SwapWrites(v, b, c, u, temp, v[temp].key, top)
    {
      hide FrameCell;
    }

    lemma NotSentinel(v: seq<Cell>, c: Ctx, u: Tree)
      requires u.Node? && Laid(v, Plug(c, u), top)
      ensures 0 !in Ids(Plug(c, u)) && u.id in Ids(Plug(c, u))
    {
      LaidIds(v, Plug(c, u), top);
      PlugApart(c, u);
    }

    // n has two children: the next node temp, spliced out of its own place, replaces n.
    method RemoveTwo(n: int, temp: int, subst: int, ghost c: Ctx, ghost t: Tree)
      requires Stored() && tree == Plug(c, t) && t.Node? && t.left.Node? && t.right.Node? && n == t.id
      requires temp == MinNode(t.right).id && subst == Ref(MinNode(t.right).right)
      modifies this
      ensures Stored() && Ids(tree) == old(Ids(tree)) - {n}
      ensures tree == Plug(c, NextInstead(t))
      ensures subst == 0 ==> cells[0].parent == if t.right.left.Leaf? then temp else MinUp(t.right)
      ensures top == old(top) && size == old(size) && |cells| == |old(cells)|
    {
      hide Laid, Distinct, Plug, Around, CtxDistinct, Ids, CtxIds, MinCtx, MinUp, MinRest, MinNode, RootOf,
           FrameCell, SwapWrites;
      ghost var u := NextGone(t);
      NextIds(c, t);
      ghost var v := SpliceNext(n, temp, subst, c, t);
      TakePlace(n, temp, subst, c, u, v);
      TakeOverFacts(v, c, u, temp, top);
      SwapDone(v, cells, c, u, temp, MinNode(t.right).key, top);
      SwapSize(v, cells, c, u, temp, MinNode(t.right).key);
      tree := Plug(c, NextInstead(t));
    }

    lemma SwapSize(v: seq<Cell>, b: seq<Cell>, c: Ctx, u: Tree, m: int, km: int)
      requires u.Node? && SwapWrites(v, b, c, u, m, km, top)
      ensures |v| == |b|
    {}

    lemma TopRoot(c: Ctx, h: int)
      ensures c.Top? ==> RootOf(c, h) == h
    {}

    lemma NextIds(c: Ctx, t: Tree)
      requires Stored() && tree == Plug(c, t) && t.Node? && t.right.Node?
      ensures t.id in Ids(tree) && MinNode(t.right).id in Ids(tree) && 0 !in Ids(tree) && MinNode(t.right).id != t.id
      ensures NextCtx(c, t).In? ==> NextCtx(c, t).id in Ids(tree)
      ensures var x := MinNode(t.right).right; x.Node? ==> x.id in Ids(tree) && x.id != t.id && (c.In? ==> x.id != c.id)
      ensures root == RootOf(c, t.id) && (c.In? ==> c.id > 0)
      ensures t.right.left.Node? ==> MinUp(t.right) != t.id
    {
      hide MinCtx, MinNode, Laid, Around;
      MinParent(t.right, Down(c, t, false));
      Open(c, t);
      PlugApart(c, t);
      MinIds(t.right);
      NextPlug(c, t);
      PlugApart(NextCtx(c, t), MinNode(t.right));
      OwnIds(c, MinNode(t.right).right);
    }

    // The node n has at most one child x; a removed black node leaves a shortage to repair.
    method DeleteOne(n: int, subst: int, ghost c: Ctx, ghost t: Tree, ghost x: Tree, ghost h: int)
      requires Stored() && tree == Plug(c, t) && t.Node? && n == t.id && subst == Ref(x) && Sound(c, t, h)
      requires (t.left.Leaf? && x == t.right) || (t.right.Leaf? && x == t.left)
      modifies this
      ensures Stored() && Good(tree) && Inorder(tree) == Inorder(Plug(c, x)) && Ids(tree) == old(Ids(tree)) - {n}
      ensures top == (if old(root) == n then n else old(top)) && (old(root) == n ==> tree == Black(x))
      ensures size == old(size) && |cells| == |old(cells)|
    {
      hide Laid, Distinct, Plug, Inorder, Good, Short, RB, Fits;
      SpliceBalance(c, t, x, h);
      AtRoot(c, t);
      if n == root {
        RootGone(c, t, x);
        RemoveRoot(n, subst, t, x);
        return;
      }
      var isblack := !cells[n].red;
      RemoveOne(n, subst, c, t, x);
      if isblack { DeleteFixup(subst, c, x, h - 1); }
    }

    lemma RootGone(c: Ctx, t: Tree, x: Tree)
      requires Stored() && tree == Plug(c, t) && t.Node? && c.Top?
      requires (t.left.Leaf? && x == t.right) || (t.right.Leaf? && x == t.left)
      ensures tree == t && Inorder(Plug(c, x)) == Inorder(Black(x)) && Ids(Black(x)) == Ids(t) - {t.id}
    {}

    method DeleteTwo(n: int, temp: int, subst: int, ghost c: Ctx, ghost t: Tree, ghost h: int)
      requires Stored() && tree == Plug(c, t) && t.Node? && t.left.Node? && t.right.Node? && n == t.id && Sound(c, t, h)
      requires temp == MinNode(t.right).id && subst == Ref(MinNode(t.right).right)
      modifies this
      ensures Stored() && Good(tree) && Inorder(tree) == Inorder(Plug(c, NextInstead(t))) &&
              Ids(tree) == old(Ids(tree)) - {n}
      ensures top == old(top) && size == old(size) && |cells| == |old(cells)|
    {
      hide Laid, Distinct, Plug, Inorder, Good, Short, RB, Fits, MinCtx, MinNode, MinUp, Sound, Ids;
      var d, m, k := NextBalance(c, t, h);
      NextReads(c, t);
      var isblack := !cells[temp].red;
      RemoveTwo(n, temp, subst, c, t);
      if isblack { DeleteFixup(subst, d, m.right, k - 1); }
    }

    // Where the shortage is once the next node has gone: below the frame that bears its name.
    lemma NextBalance(c: Ctx, t: Tree, h: int) returns (d: Ctx, m: Tree, k: int)
      requires t.Node? && t.right.Node? && Sound(c, t, h)
      ensures m == MinNode(t.right) && m.left.Leaf? && d.In? && Plug(d, m.right) == Plug(c, NextInstead(t))
      ensures d.id == if t.right.left.Leaf? then m.id else MinUp(t.right)
      ensures m.red ==> Good(Plug(c, NextInstead(t)))
      ensures !m.red ==> Short(d, m.right, k - 1)
    {
      hide Plug, Good, RB, Fits, MinCtx;
      m := MinNode(t.right);
      var base := In(false, m.id, m.key, t.red, t.left, c);
      d := MinCtx(t.right, base);
      DownKeeps(c, t, false, h);
      RenamedFits(Down(c, t, false), m.id, m.key, h - Step(t.red));
      MinSound(t.right, base, h - Step(t.red));
      k := MinHeight(t.right, h - Step(t.red));
      MinPlug(t.right, base);
      MinParent(t.right, base);
      UpPlug(base, MinRest(t.right));
      SpliceBalance(d, m, m.right, k);
    }

    lemma RenamedFits(c: Ctx, id: int, key: int, h: int)
      requires c.In?
      ensures Fits(c.(id := id, key := key), h) == Fits(c, h)
    {}

    lemma NextReads(c: Ctx, t: Tree)
      requires Stored() && tree == Plug(c, t) && t.Node? && t.right.Node?
      ensures 0 < MinNode(t.right).id < |cells| && cells[MinNode(t.right).id].red == MinNode(t.right).red
      ensures cells[MinNode(t.right).id].left == 0 && cells[MinNode(t.right).id].right == Ref(MinNode(t.right).right)
      ensures MinNode(t.right).id != root
    {
      hide Plug, MinCtx;
      NextPlug(c, t);
      Open(NextCtx(c, t), MinNode(t.right));
      RootAtTop(NextCtx(c, t), MinNode(t.right).id);
    }

    // n is the root and has at most one child: the case that leaves n as the root's parent.
    predicate Lone(n: int)
      reads this
      requires 0 < n < |cells|
    { root == n && (cells[n].left == 0 || cells[n].right == 0) }

    method Delete(n: int)
      requires Valid() && (n != NULL && n != 0 ==> n in Ids(tree))
      modifies this
      ensures Valid() && |cells| == |old(cells)|
      ensures n == NULL || n == 0 ==> tree == old(tree) && top == old(top)
      ensures n > 0 ==>
                Inorder(tree) == Without(old(Inorder(tree)), n) && Ids(tree) == old(Ids(tree)) - {n}
      ensures n > 0 ==> size == old(size) - 1
      ensures n > 0 ==> old(0 < n < |cells|) && top == if old(Lone(n)) then n else old(top)
      ensures n > 0 && old(Lone(n)) ==>
                old(tree).Node? && tree == Black(if old(tree).left.Leaf? then old(tree).right else old(tree).left)
    {
      hide Laid, Distinct, Plug, Inorder, Good, Sorted, Without, MinNode, MinRest, Sound, Ids;
      if n == NULL || n == 0 { return; }
      ghost var c, t := PathTo(Top, tree, n).0, PathTo(Top, tree, n).1;
      Start();
      ghost var h := PathSound(Top, tree, n, SoundTop(tree));
      Reads(c, t);
      Reads(Down(c, t, true), t.left);
      Reads(Down(c, t, false), t.right);
      Open(c, t);
      size := size - 1;
      if cells[n].left == 0 {
        GoneInorder(c, t, t.right);
        DeleteOne(n, cells[n].right, c, t, t.right, h);
      } else if cells[n].right == 0 {
        GoneInorder(c, t, t.left);
        DeleteOne(n, cells[n].left, c, t, t.left, h);
      } else {
        NextInorder(c, t);
        NextReads(c, t);
        var temp := Min(cells[n].right, Down(c, t, false), t.right);
        var next := cells[temp];
        var subst := if next.left != 0 then next.left else next.right;
        DeleteTwo(n, temp, subst, c, t, h);
      }
    }

    lemma GoneInorder(c: Ctx, t: Tree, x: Tree)
      requires tree == Plug(c, t) && t.Node? && Apart(c, t) && Sorted(Inorder(tree))
      requires (t.left.Leaf? && x == t.right) || (t.right.Leaf? && x == t.left)
      ensures Inorder(Plug(c, x)) == Without(Inorder(tree), t.id) && Sorted(Inorder(Plug(c, x)))
      ensures |Inorder(Plug(c, x))| == |Inorder(tree)| - 1
    {
      hide Plug, Sorted, Without, Ids, Distinct, CtxDistinct, CtxIds;
      assert Inorder(x) == Inorder(t.left) + Inorder(t.right);
      RemovedNode(c, t, x);
    }

    lemma NextInorder(c: Ctx, t: Tree)
      requires tree == Plug(c, t) && t.Node? && t.right.Node? && Apart(c, t) && Sorted(Inorder(tree))
      ensures Inorder(Plug(c, NextInstead(t))) == Without(Inorder(tree), t.id) &&
              Sorted(Inorder(Plug(c, NextInstead(t))))
      ensures |Inorder(Plug(c, NextInstead(t)))| == |Inorder(tree)| - 1
      ensures Inorder(t.right) != [] && Inorder(t.right)[0].id == MinNode(t.right).id
    {
      hide Plug, Sorted, Without;
      MinInorder(t.right);
      var u := NextInstead(t);
      assert Inorder(u) == Inorder(t.left) + Inorder(t.right);
      RemovedNode(c, t, u);
    }

    // A new node object with this key, not yet in the tree.
    method Alloc(key: int) returns (n: int)
      requires Valid()
      modifies this`cells
      ensures Valid() && Unused(n) && cells[n].key == key && n == |old(cells)| && |cells| == n + 1
      ensures forall i :: 0 <= i < n ==> cells[i] == old(cells[i])
    {
      hide Laid, Distinct, Inorder, Good, Sorted;
      n := |cells|;
      ghost var a := cells;
      cells := cells + [Cell(key, NULL, NULL, NULL, false)];
      Grown(a, cells);
    }

    lemma Grown(a: seq<Cell>, b: seq<Cell>)
      requires Laid(a, tree, top) && |a| <= |b| && forall i :: 0 <= i < |a| ==> b[i] == a[i]
      ensures Laid(b, tree, top) && |a| !in Ids(tree)
    {
      LaidKept(a, b, tree, top);
      LaidIds(a, tree, top);
    }
  }

  // A run: new nodes go in, numbered from 1, and nodes go out by number.
  datatype Op = Put(key: int) | Take(id: int)

  function Puts(ops: seq<Op>): nat {
    if ops == [] then 0 else Puts(ops[..|ops| - 1]) + (if ops[|ops| - 1].Put? then 1 else 0)
  }

  // The in-order sequence that a run calls for.
  function Model(ops: seq<Op>): seq<Entry> {
    if ops == [] then []
    else
      var pre, op := ops[..|ops| - 1], ops[|ops| - 1];
      match op
      case Put(key) => Placed(Model(pre), Entry(key, Puts(pre) + 1))
      case Take(id) => Without(Model(pre), id)
  }

  // After every run the tree is a red-black tree of exactly the entries the run calls for.
  method Run(ops: seq<Op>) returns (t: RbTree)
    ensures fresh(t) && t.Valid() && Inorder(t.tree) == Model(ops)
  {
    hide RbTree.Valid, Inorder, Placed, Without, Ids;
    t := new RbTree();
    StartRun(t);
    var live: set<int> := {};
    var n := 0;
    while n < |ops|
      invariant 0 <= n <= |ops| && t.Valid() && fresh(t) && Inorder(t.tree) == Model(ops[..n])
      invariant |t.cells| == Puts(ops[..n]) + 1 && Ids(t.tree) == live
    {
      assert ops[..n + 1][..n] == ops[..n];
      match ops[n] {
        case Put(key) =>
          var node := t.Alloc(key);
          var _ := t.Insert(node);
          live := live + {node};
        case Take(id) =>
          if id in live {
            Member(t, id);
            t.Delete(id);
            live := live - {id};
          } else {
            NotThere(t.tree, id);
          }
      }
      n := n + 1;
    }
    assert ops[..n] == ops;
  }

  // Two nodes go in, the first, which is the root, goes out, and three more go in: the last one's
  // insertion looks at the node that was removed.
  method StaleRead() returns (t: RbTree, removed: int, tested: seq<int>)
    ensures fresh(t) && t.Valid() && t.top == removed > 0 && removed !in Ids(t.tree) && removed in tested
  {
    hide RbTree.Valid, Inorder, Placed, Without, Ids, Climbs, Path, Plug, RbTree.Lone, Good;
    t := new RbTree();
    removed := t.Alloc(10);
    Grows(removed);
    tested := t.Insert(removed);
    var n := t.Alloc(20);
    GrowsRight(removed, 10, Leaf, n, 20);
    tested := t.Insert(n);
    LoneRoot(t);
    t.Delete(removed);
    var l := t.Alloc(5);
    GrowsLeft(n, 20, l, 5);
    tested := t.Insert(l);
    var r := t.Alloc(30);
    GrowsRight(n, 20, Fresh(l, 5), r, 30);
    tested := t.Insert(r);
    var last := t.Alloc(40);
    AllTheWay(n, 20, Fresh(l, 5), r, 30, 40);
    tested := t.Insert(last);
    TopApart(t);
  }

  function Fresh(n: int, key: int): Tree { Node(Leaf, n, key, true, Leaf) }

  lemma Grows(n: int)
    ensures forall key :: Path(Top, Leaf, key) == Top && Black(Plug(Top, Fresh(n, key))) == Black(Fresh(n, key))
  {}

  lemma GrowsRight(n: int, k: int, left: Tree, m: int, key: int)
    requires key >= k
    ensures var c := Path(Top, Node(left, n, k, false, Leaf), key);
      c.In? && !c.red && Black(Plug(c, Fresh(m, key))) == Node(left, n, k, false, Fresh(m, key))
  {
    var c := Down(Top, Node(left, n, k, false, Leaf), false);
    assert Path(c, Leaf, key) == c;
  }

  lemma GrowsLeft(n: int, k: int, m: int, key: int)
    requires key < k
    ensures var c := Path(Top, Node(Leaf, n, k, false, Leaf), key);
      c.In? && !c.red && Black(Plug(c, Fresh(m, key))) == Node(Fresh(m, key), n, k, false, Leaf)
  {
    var c := Down(Top, Node(Leaf, n, k, false, Leaf), true);
    assert Path(c, Leaf, key) == c;
  }

  lemma AllTheWay(n: int, k: int, left: Tree, m: int, key: int, next: int)
    requires next >= k && next >= key && Red(left)
    ensures Climbs(Path(Top, Node(left, n, k, false, Fresh(m, key)), next))
  {
    var c := Down(Top, Node(left, n, k, false, Fresh(m, key)), false);
    var d := Down(c, Fresh(m, key), false);
    assert Path(c, Fresh(m, key), next) == Path(d, Leaf, next) == d;
    assert Climbs(Top);
  }

  lemma LoneRoot(t: RbTree)
    requires t.Valid() && t.tree.Node? && t.tree.left.Leaf?
    ensures 0 < t.tree.id < |t.cells| && t.Lone(t.tree.id) && t.tree.id in Ids(t.tree)
  {
    t.Open(Top, t.tree);
  }

  lemma TopApart(t: RbTree)
    requires t.Valid()
    ensures t.top !in Ids(t.tree)
  {}

  lemma StartRun(t: RbTree)
    requires t.tree == Leaf
    ensures Ids(t.tree) == {} && Inorder(t.tree) == []
  {}

  lemma Member(t: RbTree, id: int)
    requires t.Valid() && id in Ids(t.tree)
    ensures id > 0
  { LaidIds(t.cells, t.tree, t.top); }

  lemma NotThere(t: Tree, id: int)
    requires id !in Ids(t)
    ensures Without(Inorder(t), id) == Inorder(t)
  {
    forall e | e in Inorder(t) ensures e.id != id { InorderIds(t, e); }
    WithoutNone(Inorder(t), id);
  }
}
