/**
 The links of a red-black tree seen as a value.

 A snapshot `Links<P>` maps every node reference to its colour and its three links.  A subtree hanging in
 memory is described by a functional `Tree`, and everything outside it by a `Path` of frames leading up to
 the root (a zipper).  A left and a right case of the same step differ only in the flag `d` ("on the left").
 */
module RedBlackShape {

  datatype Color = Red | Black

  datatype Cell<P> = Cell(color: Color, p: P, left: P, right: P)

  type Links<P> = map<P, Cell<P>>

  datatype Tree<P> = Leaf | Node(color: Color, left: Tree<P>, root: P, right: Tree<P>)

  // `Frame(d, c, n, sibling, up)`: the hole is the left (d) or right (!d) child of node n, whose other
  // subtree is `sibling`.
  datatype Path<P> = Top | Frame(d: bool, color: Color, node: P, sibling: Tree<P>, up: Path<P>)

  // ---------------------------------------------------------------- trees and paths

  ghost function Mk<P>(d: bool, color: Color, near: Tree<P>, n: P, far: Tree<P>): Tree<P> {
    if d then Node(color, near, n, far) else Node(color, far, n, near)
  }

  ghost function Plug<P>(k: Path<P>, t: Tree<P>): Tree<P>
    decreases k
  {
    match k
    case Top => t
    case Frame(d, c, n, s, up) => Plug(up, Mk(d, c, t, n, s))
  }

  ghost function Nodes<P>(t: Tree<P>): set<P> {
    match t
    case Leaf => {}
    case Node(_, l, n, r) => Nodes(l) + {n} + Nodes(r)
  }

  ghost function PathNodes<P>(k: Path<P>): set<P> {
    match k
    case Top => {}
    case Frame(_, _, n, s, up) => {n} + Nodes(s) + PathNodes(up)
  }

  ghost function InOrder<P>(t: Tree<P>): seq<P> {
    match t
    case Leaf => []
    case Node(_, l, n, r) => InOrder(l) + [n] + InOrder(r)
  }

  // What comes before and after the hole of a path in key order.
  ghost function Before<P>(k: Path<P>): seq<P> {
    match k
    case Top => []
    case Frame(d, _, n, s, up) => if d then Before(up) else Before(up) + InOrder(s) + [n]
  }

  ghost function After<P>(k: Path<P>): seq<P> {
    match k
    case Top => []
    case Frame(d, _, n, s, up) => if d then [n] + InOrder(s) + After(up) else After(up)
  }

  ghost function RootOf<P>(t: Tree<P>, nil: P): P {
    if t.Leaf? then nil else t.root
  }

  ghost function ParentOf<P>(k: Path<P>, pp: P): P {
    if k.Top? then pp else k.node
  }

  ghost function Depth<P>(k: Path<P>): nat {
    match k
    case Top => 0
    case Frame(_, _, _, _, up) => 1 + Depth(up)
  }

  // No node occurs twice.
  ghost predicate Distinct<P>(t: Tree<P>) {
    match t
    case Leaf => true
    case Node(_, l, n, r) => n !in Nodes(l) && n !in Nodes(r) && Nodes(l) !! Nodes(r) && Distinct(l) && Distinct(r)
  }

  ghost predicate PathDistinct<P>(k: Path<P>) {
    match k
    case Top => true
    case Frame(_, _, n, s, up) =>
      n !in Nodes(s) && n !in PathNodes(up) && Nodes(s) !! PathNodes(up) && Distinct(s) && PathDistinct(up)
  }

  // ---------------------------------------------------------------- trees in memory

  ghost function Child<P>(c: Cell<P>, d: bool): P {
    if d then c.left else c.right
  }

  ghost function WithChild<P>(c: Cell<P>, d: bool, x: P): Cell<P> {
    if d then c.(left := x) else c.(right := x)
  }

  // The subtree at x, child of p, is t.
  ghost predicate Shape<P>(m: Links<P>, nil: P, t: Tree<P>, x: P, p: P)
    decreases t
  {
    match t
    case Leaf => x == nil
    case Node(c, l, n, r) =>
      x == n && n != nil && n in m && m[n].color == c && m[n].p == p &&
      Shape(m, nil, l, m[n].left, n) && Shape(m, nil, r, m[n].right, n)
  }

  // Going up from x, the frames of k are met, and the topmost node is `top`, child of pp.
  ghost predicate Segment<P>(m: Links<P>, nil: P, k: Path<P>, x: P, top: P, pp: P)
    decreases k
  {
    match k
    case Top => x == top
    case Frame(d, c, n, s, up) =>
      n != nil && n in m && m[n].color == c && m[n].p == ParentOf(up, pp) &&
      Child(m[n], d) == x && Shape(m, nil, s, Child(m[n], !d), n) && Segment(m, nil, up, n, top, pp)
  }

  // Memory holds t at x inside the path k below `root`.
  ghost predicate Zip<P>(m: Links<P>, nil: P, root: P, k: Path<P>, t: Tree<P>, x: P) {
    && Shape(m, nil, t, x, ParentOf(k, nil)) && Segment(m, nil, k, x, root, nil)
    && Distinct(t) && PathDistinct(k) && Nodes(t) !! PathNodes(k)
  }

  lemma {:induction false} ShapeFrame<P>(m: Links<P>, m': Links<P>, nil: P, t: Tree<P>, x: P, p: P)
    requires Shape(m, nil, t, x, p)
    requires forall n :: n in Nodes(t) && n in m ==> n in m' && m'[n] == m[n]
    ensures Shape(m', nil, t, x, p)
    decreases t
  {
    if t.Node? {
      ShapeFrame(m, m', nil, t.left, m[x].left, x);
      ShapeFrame(m, m', nil, t.right, m[x].right, x);
    }
  }

  lemma {:induction false} ShapeNodes<P>(m: Links<P>, nil: P, t: Tree<P>, x: P, p: P)
    requires Shape(m, nil, t, x, p)
    ensures Nodes(t) <= m.Keys && nil !in Nodes(t) && x == RootOf(t, nil)
    ensures t.Node? ==> x in Nodes(t)
    decreases t
  {
    if t.Node? {
      ShapeNodes(m, nil, t.left, m[x].left, x);
      ShapeNodes(m, nil, t.right, m[x].right, x);
    }
  }

  lemma {:induction false} SegmentNodes<P>(m: Links<P>, nil: P, k: Path<P>, x: P, top: P, pp: P)
    requires Segment(m, nil, k, x, top, pp)
    ensures PathNodes(k) <= m.Keys && nil !in PathNodes(k)
    ensures k.Frame? ==> top in PathNodes(k)
    decreases k
  {
    if k.Frame? {
      ShapeNodes(m, nil, k.sibling, Child(m[k.node], !k.d), k.node);
      SegmentNodes(m, nil, k.up, k.node, top, pp);
    }
  }

  // The hole of a path is given another occupant x', by changing only the parent's link (or the top).
  lemma {:induction false} SegmentRelink<P>(m: Links<P>, m': Links<P>, nil: P, k: Path<P>, x: P, x': P, top: P,
                                            top': P, pp: P)
    requires Segment(m, nil, k, x, top, pp) && PathDistinct(k)
    requires forall n :: n in PathNodes(k) && n in m && n != ParentOf(k, pp) ==> n in m' && m'[n] == m[n]
    requires k.Frame? ==> k.node in m' && m'[k.node] == WithChild(m[k.node], k.d, x')
    requires top' == if k.Top? then x' else top
    ensures Segment(m', nil, k, x', top', pp)
    decreases k
  {
    if k.Frame? {
      ShapeFrame(m, m', nil, k.sibling, Child(m[k.node], !k.d), k.node);
      SegmentFrame(m, m', nil, k.up, k.node, top, pp);
    }
  }

  lemma {:induction false} SegmentFrame<P>(m: Links<P>, m': Links<P>, nil: P, k: Path<P>, x: P, top: P, pp: P)
    requires Segment(m, nil, k, x, top, pp)
    requires forall n :: n in PathNodes(k) && n in m ==> n in m' && m'[n] == m[n]
    ensures Segment(m', nil, k, x, top, pp)
    decreases k
  {
    if k.Frame? {
      ShapeFrame(m, m', nil, k.sibling, Child(m[k.node], !k.d), k.node);
      SegmentFrame(m, m', nil, k.up, k.node, top, pp);
    }
  }

  lemma {:induction false} ZipUp<P>(m: Links<P>, nil: P, root: P, k: Path<P>, t: Tree<P>, x: P)
    requires k.Frame? && Zip(m, nil, root, k, t, x)
    ensures Zip(m, nil, root, k.up, Mk(k.d, k.color, t, k.node, k.sibling), k.node)
    ensures Nodes(Mk(k.d, k.color, t, k.node, k.sibling)) == Nodes(t) + {k.node} + Nodes(k.sibling)
  {
  }

  lemma {:induction false} ZipDown<P>(m: Links<P>, nil: P, root: P, k: Path<P>, t: Tree<P>, x: P, d: bool)
    requires t.Node? && Zip(m, nil, root, k, t, x)
    ensures var near, far := if d then t.left else t.right, if d then t.right else t.left;
            Zip(m, nil, root, Frame(d, t.color, x, far, k), near, Child(m[x], d))
  {
  }

  lemma {:induction false} ZipWhole<P>(m: Links<P>, nil: P, root: P, k: Path<P>, t: Tree<P>, x: P)
    requires Zip(m, nil, root, k, t, x)
    ensures Zip(m, nil, root, Top, Plug(k, t), root)
    ensures Nodes(Plug(k, t)) == Nodes(t) + PathNodes(k)
    decreases k
  {
    if k.Frame? {
      ZipUp(m, nil, root, k, t, x);
      ZipWhole(m, nil, root, k.up, Mk(k.d, k.color, t, k.node, k.sibling), k.node);
    }
  }

  lemma {:induction false} PlugInOrder<P>(k: Path<P>, t: Tree<P>)
    ensures InOrder(Plug(k, t)) == Before(k) + InOrder(t) + After(k)
    decreases k
  {
    if k.Frame? {
      PlugInOrder(k.up, Mk(k.d, k.color, t, k.node, k.sibling));
    }
  }

  // Finds the node n, in the tree t hanging under k.
  ghost function Locate<P>(k: Path<P>, t: Tree<P>, n: P): (r: (Path<P>, Tree<P>))
    requires n in Nodes(t)
    ensures r.1.Node? && r.1.root == n && Plug(r.0, r.1) == Plug(k, t)
    decreases t
  {
    if n == t.root then (k, t)
    else if n in Nodes(t.left) then Locate(Frame(true, t.color, t.root, t.right, k), t.left, n)
    else Locate(Frame(false, t.color, t.root, t.left, k), t.right, n)
  }

  lemma {:induction false} LocateZip<P>(m: Links<P>, nil: P, root: P, k: Path<P>, t: Tree<P>, x: P, n: P)
    requires Zip(m, nil, root, k, t, x) && n in Nodes(t)
    ensures var r := Locate(k, t, n); Zip(m, nil, root, r.0, r.1, n)
    decreases t
  {
    if n == t.root {
    } else if n in Nodes(t.left) {
      ZipDown(m, nil, root, k, t, x, true);
      LocateZip(m, nil, root, Frame(true, t.color, x, t.right, k), t.left, m[x].left, n);
    } else {
      ZipDown(m, nil, root, k, t, x, false);
      LocateZip(m, nil, root, Frame(false, t.color, x, t.left, k), t.right, m[x].right, n);
    }
  }

  // ---------------------------------------------------------------- the red-black discipline

  ghost function Col<P>(t: Tree<P>): Color {
    if t.Leaf? then Black else t.color
  }

  ghost function PathCol<P>(k: Path<P>): Color {
    if k.Top? then Black else k.color
  }

  ghost function BlackHeight<P>(t: Tree<P>): nat {
    match t
    case Leaf => 0
    case Node(c, l, _, _) => BlackHeight(l) + if c.Black? then 1 else 0
  }

  // Equal black height on all ways down, no red node with a red child.
  ghost predicate RedBlack<P>(t: Tree<P>) {
    match t
    case Leaf => true
    case Node(c, l, _, r) =>
      RedBlack(l) && RedBlack(r) && BlackHeight(l) == BlackHeight(r) && (c.Red? ==> Col(l).Black? && Col(r).Black?)
  }

  // The path is red-black around a hole that takes a black tree of black height h; its top node is black.
  ghost predicate PathOK<P>(k: Path<P>, h: nat) {
    match k
    case Top => true
    case Frame(_, c, _, s, up) =>
      && RedBlack(s) && BlackHeight(s) == h
      && (c.Red? ==> Col(s).Black? && PathCol(up).Black?)
      && (up.Top? ==> c.Black?)
      && PathOK(up, h + if c.Black? then 1 else 0)
  }

  lemma {:induction false} PlugRedBlack<P>(k: Path<P>, t: Tree<P>)
    requires RedBlack(t) && PathOK(k, BlackHeight(t)) && (Col(t).Red? ==> PathCol(k).Black?)
    ensures RedBlack(Plug(k, t)) && (k.Frame? ==> Col(Plug(k, t)).Black?)
    decreases k
  {
    if k.Frame? {
      PlugRedBlack(k.up, Mk(k.d, k.color, t, k.node, k.sibling));
    }
  }

  lemma {:induction false} LocateOK<P>(k: Path<P>, t: Tree<P>, n: P)
    requires n in Nodes(t)
    requires RedBlack(t) && PathOK(k, BlackHeight(t)) && (Col(t).Red? ==> PathCol(k).Black? && k.Frame?)
    ensures var r := Locate(k, t, n);
            RedBlack(r.1) && PathOK(r.0, BlackHeight(r.1)) && (Col(r.1).Red? ==> PathCol(r.0).Black? && r.0.Frame?)
    decreases t
  {
    if n == t.root {
    } else if n in Nodes(t.left) {
      LocateOK(Frame(true, t.color, t.root, t.right, k), t.left, n);
    } else {
      LocateOK(Frame(false, t.color, t.root, t.left, k), t.right, n);
    }
  }

  // ---------------------------------------------------------------- local surgery

  ghost predicate SameExcept<P>(m: Links<P>, m': Links<P>, changed: set<P>) {
    m'.Keys == m.Keys && forall n :: n in m && n !in changed ==> m'[n] == m[n]
  }

  // Another subtree t' is put in place of t.
  lemma {:induction false} ZipReplace<P>(m: Links<P>, m': Links<P>, nil: P, root: P, root': P, k: Path<P>, t: Tree<P>,
                                         x: P, t': Tree<P>, x': P)
    requires Zip(m, nil, root, k, t, x)
    requires Shape(m', nil, t', x', ParentOf(k, nil)) && Distinct(t') && Nodes(t') !! PathNodes(k)
    requires forall n :: n in PathNodes(k) && n in m && n != ParentOf(k, nil) ==> n in m' && m'[n] == m[n]
    requires k.Frame? ==> k.node in m' && m'[k.node] == WithChild(m[k.node], k.d, x')
    requires root' == if k.Top? then x' else root
    ensures Zip(m', nil, root', k, t', x')
  {
    SegmentRelink(m, m', nil, k, x, x', root, root', nil);
  }

  lemma {:induction false} ZipPaint<P>(m: Links<P>, m': Links<P>, nil: P, root: P, k: Path<P>, t: Tree<P>, x: P,
                                       c: Color)
    requires t.Node? && Zip(m, nil, root, k, t, x)
    requires SameExcept(m, m', {x}) && m'[x] == m[x].(color := c)
    ensures Zip(m', nil, root, k, t.(color := c), x)
  {
    ShapeFrame(m, m', nil, t.left, m[x].left, x);
    ShapeFrame(m, m', nil, t.right, m[x].right, x);
    SegmentFrame(m, m', nil, k, x, root, nil);
  }

  // Only the root's parent link of a subtree changes.
  lemma {:induction false} ShapeReparent<P>(m: Links<P>, m': Links<P>, nil: P, t: Tree<P>, x: P, p: P, p': P)
    requires Shape(m, nil, t, x, p) && Distinct(t)
    requires t.Node? ==> x in m' && m'[x] == m[x].(p := p')
    requires forall n :: n in Nodes(t) && n in m && n != x ==> n in m' && m'[n] == m[n]
    ensures Shape(m', nil, t, x, p')
  {
    if t.Node? {
      ShapeFrame(m, m', nil, t.left, m[x].left, x);
      ShapeFrame(m, m', nil, t.right, m[x].right, x);
    }
  }

  // The left rotation (d) and the right rotation (!d) of a tree.
  ghost predicate CanRotate<P>(d: bool, t: Tree<P>) {
    t.Node? && (if d then t.right else t.left).Node?
  }

  ghost function Rotate<P>(d: bool, t: Tree<P>): Tree<P>
    requires CanRotate(d, t)
  {
    if d then
      Node(t.right.color, Node(t.color, t.left, t.root, t.right.left), t.right.root, t.right.right)
    else
      Node(t.left.color, t.left.left, t.left.root, Node(t.color, t.left.right, t.root, t.right))
  }

  lemma {:induction false} RotateKeeps<P>(d: bool, t: Tree<P>)
    requires CanRotate(d, t)
    ensures Nodes(Rotate(d, t)) == Nodes(t) && InOrder(Rotate(d, t)) == InOrder(t)
    ensures Distinct(t) ==> Distinct(Rotate(d, t))
  {
    var y := if d then t.right else t.left;
    assert Nodes(y) == Nodes(y.left) + {y.root} + Nodes(y.right);
    assert InOrder(y) == InOrder(y.left) + [y.root] + InOrder(y.right);
    assert Distinct(t) ==> Distinct(y);
  }

  // What a rotation at x, in the hole of k, finds around it.
  ghost predicate RotateReady<P>(d: bool, m: Links<P>, nil: P, k: Path<P>, x: P) {
    && nil in m && x in m && x != nil && Child(m[x], !d) in m && Child(m[Child(m[x], !d)], d) in m
    && var y := Child(m[x], !d); var b := Child(m[y], d);
    && x != nil && y != nil && y != x && b != x && b != y && m[x].p == ParentOf(k, nil)
    && (k.Frame? ==>
      k.node in m && k.node !in {nil, x, y, b} && Child(m[k.node], k.d) == x &&
      Child(m[k.node], !k.d) != x)
  }

  // The links after y has been put into the hole of k.
  ghost function Relinked<P>(m: Links<P>, k: Path<P>, y: P): Links<P>
    requires k.Frame? ==> k.node in m
  {
    if k.Frame? then m[k.node := WithChild(m[k.node], k.d, y)] else m
  }

  // The links half-way through a rotation at x: y has given its inner child to x and has x's parent.
  ghost function HalfRotated<P>(d: bool, m: Links<P>, nil: P, x: P, y: P): Links<P>
    requires x in m && y in m && Child(m[y], d) in m
  {
    var b := Child(m[y], d);
    var m1 := m[x := WithChild(m[x], !d, b)];
    var m2 := if b != nil then m1[b := m1[b].(p := x)] else m1;
    m2[y := m2[y].(p := m2[x].p)]
  }

  // The links after a rotation at x, in the hole of k.
  ghost function RotatedLinks<P>(d: bool, m: Links<P>, nil: P, k: Path<P>, x: P): Links<P>
    requires RotateReady(d, m, nil, k, x)
  {
    var y := Child(m[x], !d);
    var m' := Relinked(HalfRotated(d, m, nil, x, y), k, y);
    Crowned(d, m', x, y)
  }

  ghost function Crowned<P>(d: bool, m: Links<P>, x: P, y: P): Links<P>
    requires x in m && y in m
  {
    var m' := m[y := WithChild(m[y], d, x)];
    m'[x := m'[x].(p := y)]
  }

  lemma {:induction false} RotatedFacts<P>(d: bool, m: Links<P>, m': Links<P>, nil: P, k: Path<P>, x: P)
    requires RotateReady(d, m, nil, k, x) && m' == RotatedLinks(d, m, nil, k, x)
    ensures var y := Child(m[x], !d);
            var b := Child(m[y], d);
            && SameExcept(m, m', {x, y} + (if b != nil then {b} else {}) + (if k.Frame? then {k.node} else {}))
            && m'[x] == WithChild(m[x], !d, b).(p := y)
            && m'[y] == WithChild(m[y], d, x).(p := m[x].p)
            && (b != nil ==> m'[b] == m[b].(p := x))
            && (k.Frame? ==> m'[k.node] == WithChild(m[k.node], k.d, y))
            && m'[nil] == m[nil]
  {
  }

  lemma {:induction false} RotateShape<P>(d: bool, m: Links<P>, m': Links<P>, nil: P, t: Tree<P>, x: P, y: P, p: P,
                       a: Tree<P>, b: Tree<P>, e: Tree<P>)
    requires CanRotate(d, t) && Distinct(t) && Shape(m, nil, t, x, p) && m.Keys == m'.Keys
    requires t.root == x && a == (if d then t.left else t.right)
    requires var yt := if d then t.right else t.left;
             yt.root == y && b == (if d then yt.left else yt.right) && e == (if d then yt.right else yt.left)
    requires Nodes(t) <= m.Keys
    requires m'[x] == WithChild(m[x], !d, Child(m[y], d)).(p := y)
    requires m'[y] == WithChild(m[y], d, x).(p := p)
    requires b.Node? ==> b.root in m && m'[b.root] == m[b.root].(p := x)
    requires forall n :: n in Nodes(t) && n != x && n != y && (b.Node? ==> n != b.root) ==> m'[n] == m[n]
    ensures Shape(m', nil, Rotate(d, t), y, p)
  {
    var yt := if d then t.right else t.left;
    assert Shape(m, nil, a, Child(m[x], d), x) && Shape(m, nil, yt, y, x) && Distinct(a) && Distinct(yt);
    assert Shape(m, nil, b, Child(m[y], d), y) && Shape(m, nil, e, Child(m[y], !d), y) && Distinct(b) && Distinct(e);
    assert Nodes(yt) == Nodes(b) + {y} + Nodes(e);
    assert Nodes(t) == Nodes(a) + {x} + Nodes(yt);
    ShapeNodes(m, nil, b, Child(m[y], d), y);
    ShapeFrame(m, m', nil, a, Child(m[x], d), x);
    ShapeFrame(m, m', nil, e, Child(m[y], !d), y);
    ShapeReparent(m, m', nil, b, Child(m[y], d), y, x);
  }

  lemma {:induction false} ZipRotate<P>(d: bool, m: Links<P>, m': Links<P>, nil: P, root: P, root': P, k: Path<P>,
                                        t: Tree<P>, x: P)
    requires Zip(m, nil, root, k, t, x) && CanRotate(d, t)
    requires RotateReady(d, m, nil, k, x) && m' == RotatedLinks(d, m, nil, k, x)
    requires root' == if k.Top? then Child(m[x], !d) else root
    ensures Zip(m', nil, root', k, Rotate(d, t), Rotate(d, t).root)
  {
    RotateKeeps(d, t);
    RotatedFacts(d, m, m', nil, k, x);
    var yt := if d then t.right else t.left;
    var a := if d then t.left else t.right;
    var b := if d then yt.left else yt.right;
    var e := if d then yt.right else yt.left;
    var y := yt.root;
    assert Shape(m, nil, yt, Child(m[x], !d), x);
    assert Shape(m, nil, b, Child(m[y], d), y);
    ShapeNodes(m, nil, t, x, ParentOf(k, nil));
    ShapeNodes(m, nil, yt, y, x);
    ShapeNodes(m, nil, b, Child(m[y], d), y);
    SegmentNodes(m, nil, k, x, root, nil);
    assert b.Node? ==> b.root in Nodes(t);
    RotateShape(d, m, m', nil, t, x, y, ParentOf(k, nil), a, b, e);
    ZipReplace(m, m', nil, root, root', k, t, x, Rotate(d, t), y);
  }

  lemma {:induction false} OpenRotate<P>(d: bool, m: Links<P>, nil: P, root: P, k: Path<P>, t: Tree<P>, x: P)
    requires nil in m && Zip(m, nil, root, k, t, x) && CanRotate(d, t)
    ensures RotateReady(d, m, nil, k, x)
  {
    var y := Child(m[x], !d);
    var yt := if d then t.right else t.left;
    var bt := if d then yt.left else yt.right;
    assert Shape(m, nil, yt, y, x) && Distinct(yt);
    var b := Child(m[y], d);
    assert Shape(m, nil, bt, b, y);
    ShapeNodes(m, nil, t, x, ParentOf(k, nil));
    ShapeNodes(m, nil, yt, y, x);
    ShapeNodes(m, nil, bt, b, y);
    SegmentNodes(m, nil, k, x, root, nil);
    if k.Frame? {
      ShapeNodes(m, nil, k.sibling, Child(m[k.node], !k.d), k.node);
      assert k.node in PathNodes(k);
    }
  }

  // ---------------------------------------------------------------- taking a node out

  // The path j, whose top hangs where `base` has its hole.
  ghost function Compose<P>(j: Path<P>, base: Path<P>): Path<P> {
    match j
    case Top => base
    case Frame(d, c, n, s, up) => Frame(d, c, n, s, Compose(up, base))
  }

  // A path that leads to the leftmost node of its tree.
  ghost predicate AllLeft<P>(j: Path<P>) {
    j.Frame? ==> j.d && AllLeft(j.up)
  }

  lemma {:induction false} ComposePlug<P>(j: Path<P>, base: Path<P>, t: Tree<P>)
    ensures Plug(Compose(j, base), t) == Plug(base, Plug(j, t))
    decreases j
  {
    if j.Frame? {
      ComposePlug(j.up, base, Mk(j.d, j.color, t, j.node, j.sibling));
    }
  }

  lemma {:induction false} ComposeSegment<P>(m: Links<P>, nil: P, j: Path<P>, base: Path<P>, x: P, mid: P, top: P,
                                             pp: P)
    requires Segment(m, nil, j, x, mid, ParentOf(base, pp)) && Segment(m, nil, base, mid, top, pp)
    ensures Segment(m, nil, Compose(j, base), x, top, pp)
    ensures ParentOf(Compose(j, base), pp) == ParentOf(j, ParentOf(base, pp))
    decreases j
  {
    if j.Frame? {
      ComposeSegment(m, nil, j.up, base, j.node, mid, top, pp);
    }
  }

  lemma {:induction false} ComposeNodes<P>(j: Path<P>, base: Path<P>)
    requires PathDistinct(j) && PathDistinct(base) && PathNodes(j) !! PathNodes(base)
    ensures PathNodes(Compose(j, base)) == PathNodes(j) + PathNodes(base) && PathDistinct(Compose(j, base))
    decreases j
  {
    if j.Frame? {
      ComposeNodes(j.up, base);
    }
  }

  lemma {:induction false} PlugDistinct<P>(j: Path<P>, t: Tree<P>)
    ensures Nodes(Plug(j, t)) == Nodes(t) + PathNodes(j)
    ensures Distinct(Plug(j, t)) ==> Distinct(t) && PathDistinct(j) && Nodes(t) !! PathNodes(j)
    decreases j
  {
    if j.Frame? {
      PlugDistinct(j.up, Mk(j.d, j.color, t, j.node, j.sibling));
    }
  }

  // A path does not look at the names of the nodes further up when it comes to colours and heights.
  lemma {:induction false} ComposeOK<P>(j: Path<P>, b: Path<P>, b': Path<P>, h: nat)
    requires b.Frame? && b'.Frame? && b' == b.(node := b'.node) && PathOK(Compose(j, b), h)
    ensures PathOK(Compose(j, b'), h) && PathCol(Compose(j, b')) == PathCol(Compose(j, b)) && Compose(j, b').Frame?
    decreases j
  {
    if j.Frame? {
      ComposeOK(j.up, b, b', h + if j.color.Black? then 1 else 0);
    }
  }

  // Opens a subtree of a memory-resident tree along a path.
  lemma {:induction false} OpenShape<P>(m: Links<P>, nil: P, j: Path<P>, t: Tree<P>, top: P, pp: P)
    requires Shape(m, nil, Plug(j, t), top, pp)
    ensures Shape(m, nil, t, RootOf(t, nil), ParentOf(j, pp)) && Segment(m, nil, j, RootOf(t, nil), top, pp)
    decreases j
  {
    if j.Frame? {
      var t' := Mk(j.d, j.color, t, j.node, j.sibling);
      OpenShape(m, nil, j.up, t', top, pp);
      assert Shape(m, nil, t', j.node, ParentOf(j.up, pp));
      ShapeNodes(m, nil, t, Child(m[j.node], j.d), j.node);
    } else {
      ShapeNodes(m, nil, t, top, pp);
    }
  }

  // Only the parent link of the topmost node of a path changes.
  lemma {:induction false} SegmentReparent<P>(m: Links<P>, m': Links<P>, nil: P, j: Path<P>, x: P, top: P, pp: P,
                                              pp': P)
    requires j.Frame? && Segment(m, nil, j, x, top, pp) && PathDistinct(j) && top in m && top in m'
    requires m'[top] == m[top].(p := pp')
    requires forall n :: n in PathNodes(j) && n in m && n != top ==> n in m' && m'[n] == m[n]
    ensures Segment(m', nil, j, x, top, pp')
    decreases j
  {
    SegmentNodes(m, nil, j, x, top, pp);
    if j.up.Frame? {
      SegmentNodes(m, nil, j.up, j.node, top, pp);
      assert top in PathNodes(j.up);
      ShapeFrame(m, m', nil, j.sibling, Child(m[j.node], !j.d), j.node);
      SegmentReparent(m, m', nil, j.up, j.node, top, pp, pp');
    } else {
      ShapeFrame(m, m', nil, j.sibling, Child(m[j.node], !j.d), j.node);
    }
  }
}
