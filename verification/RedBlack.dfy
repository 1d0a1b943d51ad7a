/**
 * Red-black trees as values, opened at a node: a context (the path up to the
 * root) and the subtree in its hole.  The two mirrored halves of the fixups are
 * one case with a direction.
 */
module RedBlack {
  datatype Tree = Leaf | Node(left: Tree, id: int, key: int, red: bool, right: Tree)

  // The hole is the left (or right) child of id; other is the child on the other side.
  datatype Ctx = Top | In(isLeft: bool, id: int, key: int, red: bool, other: Tree, up: Ctx)

  datatype Entry = Entry(key: int, id: int)

  function Mk(isLeft: bool, t: Tree, id: int, key: int, red: bool, o: Tree): Tree {
    if isLeft then Node(t, id, key, red, o) else Node(o, id, key, red, t)
  }

  function Plug(c: Ctx, t: Tree): Tree {
    match c
    case Top => t
    case In(isLeft, id, key, red, o, up) => Plug(up, Mk(isLeft, t, id, key, red, o))
  }

  function Inorder(t: Tree): seq<Entry> {
    match t
    case Leaf => []
    case Node(l, id, key, _, r) => Inorder(l) + [Entry(key, id)] + Inorder(r)
  }

  // What comes before and after the hole.
  function Pre(c: Ctx): seq<Entry> {
    match c
    case Top => []
    case In(isLeft, id, key, _, o, up) => if isLeft then Pre(up) else Pre(up) + Inorder(o) + [Entry(key, id)]
  }

  function Post(c: Ctx): seq<Entry> {
    match c
    case Top => []
    case In(isLeft, id, key, _, o, up) => if isLeft then [Entry(key, id)] + Inorder(o) + Post(up) else Post(up)
  }

  lemma {:induction false} PlugInorder(c: Ctx, t: Tree)
    ensures Inorder(Plug(c, t)) == Pre(c) + Inorder(t) + Post(c)
  {
    match c
    case Top =>
    case In(isLeft, id, key, red, o, up) =>
      PlugInorder(up, Mk(isLeft, t, id, key, red, o));
      Regroup(Pre(up), Inorder(t), [Entry(key, id)], Inorder(o), Post(up));
  }

  lemma Regroup(a: seq<Entry>, b: seq<Entry>, m: seq<Entry>, d: seq<Entry>, e: seq<Entry>)
    ensures a + (b + m + d) + e == a + b + (m + d + e)
    ensures a + (d + m + b) + e == (a + d + m) + b + e
  {}

  function Ids(t: Tree): set<int> {
    match t
    case Leaf => {}
    case Node(l, id, _, _, r) => Ids(l) + {id} + Ids(r)
  }

  function CtxIds(c: Ctx): set<int> {
    match c
    case Top => {}
    case In(_, id, _, _, o, up) => {id} + Ids(o) + CtxIds(up)
  }

  ghost predicate Distinct(t: Tree) {
    match t
    case Leaf => true
    case Node(l, id, _, _, r) => Distinct(l) && Distinct(r) && id !in Ids(l) && id !in Ids(r) && Ids(l) !! Ids(r)
  }

  ghost predicate CtxDistinct(c: Ctx) {
    match c
    case Top => true
    case In(_, id, _, _, o, up) =>
      Distinct(o) && CtxDistinct(up) && id !in Ids(o) && id !in CtxIds(up) && Ids(o) !! CtxIds(up)
  }

  // All nodes of the context and of the subtree are different.
  ghost predicate Apart(c: Ctx, t: Tree) {
    Distinct(t) && CtxDistinct(c) && Ids(t) !! CtxIds(c)
  }

  lemma {:induction false} PlugApart(c: Ctx, t: Tree)
    ensures Distinct(Plug(c, t)) <==> Apart(c, t)
    ensures Ids(Plug(c, t)) == Ids(t) + CtxIds(c)
  {
    match c
    case Top =>
    case In(isLeft, id, key, red, o, up) => PlugApart(up, Mk(isLeft, t, id, key, red, o));
  }

  predicate Red(t: Tree) { t.Node? && t.red }

  function Step(red: bool): int { if red then 0 else 1 }

  // Black height h on every path and no red node with a red child.
  predicate RB(t: Tree, h: int) {
    match t
    case Leaf => h == 0
    case Node(l, _, _, red, r) =>
      h >= Step(red) && RB(l, h - Step(red)) && RB(r, h - Step(red)) && (red ==> !Red(l) && !Red(r))
  }

  // The same, but a red root may have red children.
  predicate Weak(t: Tree, h: int) {
    match t
    case Leaf => h == 0
    case Node(l, _, _, red, r) => h >= Step(red) && RB(l, h - Step(red)) && RB(r, h - Step(red))
  }

  function Black(t: Tree): Tree { if t.Leaf? then t else t.(red := false) }

  lemma {:induction false} Height(t: Tree, h: int)
    requires RB(t, h)
    ensures h >= 0
  {}

  // The context is sound around a hole of black height h.
  predicate Fits(c: Ctx, h: int) {
    match c
    case Top => h >= 0
    case In(_, _, _, red, o, up) =>
      RB(o, h) && (red ==> !Red(o) && up.In? && !up.red) && Fits(up, h + Step(red))
  }

  ghost predicate Good(t: Tree) { !Red(t) && exists h :: RB(t, h) }

  // Closing the context over a sound subtree gives a sound tree with a black root.
  lemma {:induction false} PlugGood(c: Ctx, t: Tree, h: int)
    requires RB(t, h) && Fits(c, h)
    requires Red(t) ==> c.In? && !c.red
    ensures Good(Plug(c, t))
  {
    match c
    case Top =>
    case In(isLeft, id, key, red, o, up) => PlugGood(up, Mk(isLeft, t, id, key, red, o), h + Step(red));
  }

  function Side(t: Tree, isLeft: bool): Tree
    requires t.Node?
  { if isLeft then t.left else t.right }

  // The context one step further down.
  function Down(c: Ctx, t: Tree, isLeft: bool): Ctx
    requires t.Node?
  { In(isLeft, t.id, t.key, t.red, Side(t, !isLeft), c) }

  // A sound subtree in a sound context.
  predicate Sound(c: Ctx, t: Tree, h: int) { RB(t, h) && Fits(c, h) && (Red(t) ==> c.In? && !c.red) }

  lemma DownKeeps(c: Ctx, t: Tree, isLeft: bool, h: int)
    requires t.Node?
    ensures Plug(Down(c, t, isLeft), Side(t, isLeft)) == Plug(c, t)
    ensures Sound(c, t, h) ==> Sound(Down(c, t, isLeft), Side(t, isLeft), h - Step(t.red))
    ensures isLeft ==>
              Pre(Down(c, t, true)) == Pre(c) &&
              Post(Down(c, t, true)) == [Entry(t.key, t.id)] + Inorder(t.right) + Post(c)
    ensures !isLeft ==>
              Pre(Down(c, t, false)) == Pre(c) + Inorder(t.left) + [Entry(t.key, t.id)] &&
              Post(Down(c, t, false)) == Post(c)
  {}

  function Depth(c: Ctx): nat { if c.Top? then 0 else 1 + Depth(c.up) }

  // The subtree that hangs below c.up, given t in the hole of c.
  function Up(c: Ctx, t: Tree): Tree
    requires c.In?
  { Mk(c.isLeft, t, c.id, c.key, c.red, c.other) }

  // The same tree seen from the other child.
  function Across(c: Ctx, t: Tree): Ctx
    requires c.In?
  { In(!c.isLeft, c.id, c.key, c.red, t, c.up) }

  lemma AcrossPlug(c: Ctx, t: Tree)
    requires c.In?
    ensures Plug(Across(c, t), c.other) == Plug(c, t) == Plug(c.up, Up(c, t))
  {}

  // A red node t whose subtree and surroundings are sound, except that its parent may be red too.
  predicate Pending(c: Ctx, t: Tree, h: int) { Red(t) && RB(t, h) && Fits(c, h) }

  // Red parent and red uncle: both turn black, the grandparent red.
  function Recoloured(c: Ctx, t: Tree): Tree
    requires c.In? && c.up.In?
  { Mk(c.up.isLeft, Black(Up(c, t)), c.up.id, c.up.key, true, Black(c.up.other)) }

  // Red parents with red uncles all the way: recolouring does not stop before the root.
  predicate Climbs(c: Ctx) {
    c.Top? || (c.red && c.up.In? && Red(c.up.other) && Climbs(c.up.up))
  }

  // Where a new key hangs: on the right of its equals.
  function Path(c: Ctx, t: Tree, key: int): Ctx
    decreases t
  {
    if t.Leaf? then c else Path(Down(c, t, key < t.key), Side(t, key < t.key), key)
  }

  lemma RecolourKeeps(c: Ctx, t: Tree, h: int)
    requires Pending(c, t, h) && c.In? && c.red && Red(c.up.other)
    ensures Pending(c.up.up, Recoloured(c, t), h + 1)
    ensures Inorder(Recoloured(c, t)) == Inorder(Up(c.up, Up(c, t)))
  {
    hide Inorder;
    assert Fits(c.up, h) && Fits(c.up.up, h + 1);
    assert RB(Black(Up(c, t)), h + 1);
    assert RB(Black(c.up.other), h + 1);
    RecolourInorder(c, t);
  }

  lemma RecolourInorder(c: Ctx, t: Tree)
    requires c.In? && c.up.In?
    ensures Inorder(Recoloured(c, t)) == Inorder(Up(c.up, Up(c, t)))
  {
    hide Inorder;
    BlackInorder(Up(c, t));
    BlackInorder(c.up.other);
    MkInorder(c.up.isLeft, Black(Up(c, t)), Up(c, t), c.up.id, c.up.key, c.up.red, Black(c.up.other), c.up.other);
  }

  lemma BlackInorder(t: Tree)
    ensures Inorder(Black(t)) == Inorder(t)
    ensures Ids(Black(t)) == Ids(t)
  {}

  lemma MkInorder(isLeft: bool, t: Tree, t': Tree, id: int, key: int, red: bool, o: Tree, o': Tree)
    requires Inorder(t) == Inorder(t') && Inorder(o) == Inorder(o')
    ensures forall r :: Inorder(Mk(isLeft, t, id, key, r, o)) == Inorder(Mk(isLeft, t', id, key, red, o'))
  {}

  // An inner red grandchild is rotated out: the former parent is the new red node.
  function Outward(c: Ctx, t: Tree): (d: (Ctx, Tree))
    requires c.In? && c.up.In? && t.Node?
  {
    var gl := c.up.isLeft;
    (In(gl, t.id, t.key, t.red, if gl then t.right else t.left, c.up),
     Mk(gl, c.other, c.id, c.key, c.red, if gl then t.left else t.right))
  }

  lemma OutwardKeeps(c: Ctx, t: Tree, h: int)
    requires Pending(c, t, h) && c.In? && c.red && c.isLeft != c.up.isLeft
    ensures var (d, u) := Outward(c, t);
            Pending(d, u, h) && d.red && d.isLeft == d.up.isLeft && u.id == c.id && d.id == t.id
  {}

  // Parent and grandparent change places: the red node keeps a black parent.
  function Settled(c: Ctx): Ctx
    requires c.In? && c.up.In?
  { In(c.up.isLeft, c.id, c.key, false, Mk(c.up.isLeft, c.other, c.up.id, c.up.key, true, c.up.other), c.up.up) }

  lemma SettledKeeps(c: Ctx, t: Tree, h: int)
    requires Pending(c, t, h) && c.In? && c.red && c.isLeft == c.up.isLeft && !Red(c.up.other)
    ensures Pending(Settled(c), t, h) && !Settled(c).red && Depth(Settled(c)) == Depth(c) - 1
  {
    assert Fits(c.up, h) && Fits(c.up.up, h + 1);
    assert RB(Mk(c.up.isLeft, c.other, c.up.id, c.up.key, true, c.up.other), h);
  }

  lemma UpPlug(c: Ctx, t: Tree)
    requires c.In?
    ensures Plug(c, t) == Plug(c.up, Up(c, t))
  {}

  lemma {:induction false} PlugNode(c: Ctx, t: Tree)
    requires t.Node?
    ensures Plug(c, t).Node?
  {
    if c.In? { PlugNode(c.up, Up(c, t)); }
  }

  // No red parent left: painting the root black finishes an insertion.
  lemma InsertEnd(c: Ctx, t: Tree, h: int)
    requires Pending(c, t, h) && (c.In? ==> !c.red)
    ensures Good(Black(Plug(c, t)))
  {
    if c.Top? {
      assert RB(Black(t), h + 1);
    } else {
      PlugGood(c, t, h);
      PlugNode(c, t);
    }
  }

  ghost function SoundTop(t: Tree): (h: int)
    requires Good(t)
    ensures Sound(Top, t, h)
  {
    var h :| RB(t, h);
    Height(t, h);
    h
  }

  // After a deletion: the subtree in the hole is one black node short.
  predicate Short(c: Ctx, t: Tree, h: int) { Weak(t, h) && Fits(c, h + 1) }

  lemma ShortEnd(c: Ctx, t: Tree, h: int)
    requires Short(c, t, h) && (c.Top? || Red(t))
    ensures Good(Plug(c, Black(t)))
  {
    if Red(t) { PlugGood(c, Black(t), h + 1); } else { PlugGood(c, t, h); }
  }

  lemma SiblingThere(c: Ctx, t: Tree, h: int)
    requires Short(c, t, h) && c.In? && !Red(t)
    ensures c.other.Node? && RB(t, h) && h >= 0
  { Height(t, h); }

  // A red sibling goes up: the hole gets a red parent and a black sibling.
  function RedSibling(c: Ctx): Ctx
    requires c.In? && c.other.Node?
  {
    var w := c.other;
    In(c.isLeft, c.id, c.key, true, Side(w, c.isLeft), In(c.isLeft, w.id, w.key, false, Side(w, !c.isLeft), c.up))
  }

  lemma RedSiblingKeeps(c: Ctx, t: Tree, h: int)
    requires Short(c, t, h) && c.In? && !Red(t) && Red(c.other)
    ensures Short(RedSibling(c), t, h) && !c.red && !Red(RedSibling(c).other)
  {
    assert Fits(RedSibling(c).up, h + 1);
  }

  // A black sibling with black children turns red: the parent's subtree is now short.
  lemma PushUpKeeps(c: Ctx, t: Tree, h: int)
    requires Short(c, t, h) && c.In? && !Red(t) && c.other.Node? && !c.other.red
    requires !Red(c.other.left) && !Red(c.other.right)
    ensures Short(c.up, Up(c.(other := c.other.(red := true)), t), h + Step(c.red))
  {
    assert RB(c.other.(red := true), h);
  }

  // A red near nephew goes up between the hole's parent and the sibling.
  function NearUp(c: Ctx): Tree
    requires c.In? && c.other.Node? && Side(c.other, c.isLeft).Node?
  {
    var w := c.other;
    var n := Side(w, c.isLeft);
    Mk(c.isLeft, Side(n, c.isLeft), n.id, n.key, false,
       Mk(c.isLeft, Side(n, !c.isLeft), w.id, w.key, true, Side(w, !c.isLeft)))
  }

  lemma NearUpKeeps(c: Ctx, t: Tree, h: int)
    requires Short(c, t, h) && c.In? && !Red(t) && c.other.Node? && !c.other.red
    requires Red(Side(c.other, c.isLeft)) && !Red(Side(c.other, !c.isLeft))
    ensures Short(c.(other := NearUp(c)), t, h) && NearUp(c).Node? && !NearUp(c).red && Red(Side(NearUp(c), !c.isLeft))
  {
    var n := Side(c.other, c.isLeft);
    assert RB(n, h);
    var w' := Side(NearUp(c), !c.isLeft);
    assert RB(w', h);
    assert RB(NearUp(c), h + 1);
  }

  // A red far nephew: the sibling takes the parent's place and colour, and all heights agree.
  function Balanced(c: Ctx, t: Tree): Tree
    requires c.In? && c.other.Node?
  {
    var w := c.other;
    Mk(c.isLeft, Mk(c.isLeft, t, c.id, c.key, false, Side(w, c.isLeft)), w.id, w.key, c.red, Black(Side(w, !c.isLeft)))
  }

  lemma BalancedGood(c: Ctx, t: Tree, h: int)
    requires Short(c, t, h) && c.In? && !Red(t) && c.other.Node? && !c.other.red && Red(Side(c.other, !c.isLeft))
    ensures Good(Plug(c.up, Balanced(c, t)))
  {
    SiblingThere(c, t, h);
    var w := c.other;
    assert RB(Mk(c.isLeft, t, c.id, c.key, false, Side(w, c.isLeft)), h + 1);
    assert RB(Side(w, !c.isLeft), h);
    assert RB(Black(Side(w, !c.isLeft)), h + 1);
    PlugGood(c.up, Balanced(c, t), h + 1 + Step(c.red));
  }

  // The leftmost node of a tree, with its subtree; the path to it; the tree without it.
  function MinNode(t: Tree): (m: Tree)
    requires t.Node?
    ensures m.Node? && m.left.Leaf?
  { if t.left.Leaf? then t else MinNode(t.left) }

  function MinCtx(t: Tree, base: Ctx): Ctx
    requires t.Node?
  { if t.left.Leaf? then base else MinCtx(t.left, Down(base, t, true)) }

  function MinRest(t: Tree): Tree
    requires t.Node?
  { if t.left.Leaf? then t.right else Node(MinRest(t.left), t.id, t.key, t.red, t.right) }

  function MinUp(t: Tree): int
    requires t.Node? && t.left.Node?
  { if t.left.left.Leaf? then t.id else MinUp(t.left) }

  function MinHeight(t: Tree, h: int): int
    requires t.Node?
  { if t.left.Leaf? then h else MinHeight(t.left, h - Step(t.red)) }

  lemma {:induction false} MinPlug(t: Tree, base: Ctx)
    requires t.Node?
    ensures Plug(MinCtx(t, base), MinNode(t)) == Plug(base, t)
    ensures Plug(MinCtx(t, base), MinNode(t).right) == Plug(base, MinRest(t))
  {
    if t.left.Node? { MinPlug(t.left, Down(base, t, true)); }
  }

  lemma {:induction false} MinSound(t: Tree, base: Ctx, h: int)
    requires t.Node? && Sound(base, t, h)
    ensures Sound(MinCtx(t, base), MinNode(t), MinHeight(t, h))
  {
    if t.left.Node? {
      DownKeeps(base, t, true, h);
      MinSound(t.left, Down(base, t, true), h - Step(t.red));
    }
  }

  lemma {:induction false} MinInorder(t: Tree)
    requires t.Node?
    ensures Inorder(t) == [Entry(MinNode(t).key, MinNode(t).id)] + Inorder(MinRest(t))
  {
    var e := [Entry(t.key, t.id)];
    if t.left.Node? {
      MinInorder(t.left);
      var m, r := [Entry(MinNode(t).key, MinNode(t).id)], Inorder(MinRest(t.left));
      assert (m + r) + e + Inorder(t.right) == m + (r + e + Inorder(t.right));
    } else {
      assert [] + e + Inorder(t.right) == e + Inorder(t.right);
    }
  }

  lemma {:induction false} MinIds(t: Tree)
    requires t.Node? && Distinct(t)
    ensures MinNode(t).id in Ids(t) && Ids(MinNode(t)) <= Ids(t)
    ensures Ids(MinRest(t)) == Ids(t) - {MinNode(t).id} && Distinct(MinRest(t))
  {
    if t.left.Node? { MinIds(t.left); }
  }

  // Where the path ends: at the base itself, or inside t.
  lemma {:induction false} MinParent(t: Tree, base: Ctx)
    requires t.Node?
    ensures t.left.Leaf? ==> MinCtx(t, base) == base && MinNode(t) == t
    ensures t.left.Node? ==>
              MinCtx(t, base).In? && MinCtx(t, base).isLeft && MinCtx(t, base).id == MinUp(t) && MinUp(t) in Ids(t)
  {
    if t.left.Node? { MinParent(t.left, Down(base, t, true)); }
  }

  // Taking out a node that has at most one child.
  lemma SpliceBalance(c: Ctx, t: Tree, x: Tree, h: int)
    requires t.Node? && Sound(c, t, h)
    requires (t.left.Leaf? && x == t.right) || (t.right.Leaf? && x == t.left)
    ensures t.red ==> Good(Plug(c, x))
    ensures !t.red ==> Short(c, x, h - 1)
    ensures c.Top? ==> Good(Black(x))
  {
    assert RB(x, h - Step(t.red));
    Height(x, h - Step(t.red));
    if t.red { PlugGood(c, x, h); }
    if Red(x) { assert RB(Black(x), h); }
  }

  // The context of the node with this reference.
  ghost function PathTo(c: Ctx, t: Tree, id: int): (p: (Ctx, Tree))
    requires id in Ids(t)
    ensures p.1.Node? && p.1.id == id && Plug(p.0, p.1) == Plug(c, t)
    decreases t
  {
    if t.id == id then (c, t)
    else if id in Ids(t.left) then PathTo(Down(c, t, true), t.left, id)
    else PathTo(Down(c, t, false), t.right, id)
  }

  lemma {:induction false} PathSound(c: Ctx, t: Tree, id: int, h: int) returns (k: int)
    requires id in Ids(t) && Sound(c, t, h)
    ensures Sound(PathTo(c, t, id).0, PathTo(c, t, id).1, k)
    decreases t
  {
    if t.id == id {
      k := h;
    } else {
      var left := id in Ids(t.left);
      DownKeeps(c, t, left, h);
      k := PathSound(Down(c, t, left), Side(t, left), id, h - Step(t.red));
    }
  }

  lemma {:induction false} InorderIds(t: Tree, e: Entry)
    requires e in Inorder(t)
    ensures e.id in Ids(t)
  {
    if e in Inorder(t.left) { InorderIds(t.left, e); }
    else if e in Inorder(t.right) { InorderIds(t.right, e); }
  }

  lemma {:induction false} CtxInorderIds(c: Ctx, e: Entry)
    requires e in Pre(c) || e in Post(c)
    ensures e.id in CtxIds(c)
  {
    if e in Inorder(c.other) { InorderIds(c.other, e); }
    else if e in Pre(c.up) || e in Post(c.up) { CtxInorderIds(c.up, e); }
  }
}
