/**
 The cases of the two fix-up loops, one lemma a case, for both sides at once.
 */
module RedBlackFixup {
  import opened RedBlackShape

  // The whole in-order sequence and the whole node set, seen from a focus.
  ghost function Line<P>(k: Path<P>, t: Tree<P>): seq<P> {
    Before(k) + InOrder(t) + After(k)
  }

  ghost function All<P>(k: Path<P>, t: Tree<P>): set<P> {
    Nodes(t) + PathNodes(k)
  }

  ghost predicate BlackNil<P>(m: Links<P>, nil: P) {
    nil in m && m[nil].color.Black?
  }

  lemma {:induction false} LineUp<P>(k: Path<P>, t: Tree<P>)
    requires k.Frame?
    ensures Line(k.up, Mk(k.d, k.color, t, k.node, k.sibling)) == Line(k, t)
    ensures All(k.up, Mk(k.d, k.color, t, k.node, k.sibling)) == All(k, t)
  {
  }

  // ---------------------------------------------------------------- insertion

  // Everything is red-black, except that the red node z may have a red parent.
  ghost predicate InsertInv<P>(m: Links<P>, nil: P, root: P, k: Path<P>, t: Tree<P>, z: P) {
    Zip(m, nil, root, k, t, z) && RedBlack(t) && Col(t).Red? && PathOK(k, BlackHeight(t))
  }

  // The colour the loop looks at.
  lemma {:induction false} ParentColor<P>(m: Links<P>, nil: P, root: P, k: Path<P>, t: Tree<P>, z: P)
    requires InsertInv(m, nil, root, k, t, z) && nil in m && m[nil].color.Black?
    ensures z in m && m[z].p in m && m[m[z].p].color == PathCol(k)
  {
  }

  lemma {:induction false} ZipRoot<P>(m: Links<P>, nil: P, root: P, k: Path<P>, t: Tree<P>, x: P)
    requires Zip(m, nil, root, k, t, x) && t.Node?
    ensures root in m && root != nil
  {
    SegmentNodes(m, nil, k, x, root, nil);
    ShapeNodes(m, nil, t, x, ParentOf(k, nil));
  }

  // z's parent is red, so there is a black grandparent.
  lemma {:induction false} RedParent<P>(m: Links<P>, nil: P, root: P, k: Path<P>, t: Tree<P>, z: P)
    requires InsertInv(m, nil, root, k, t, z) && PathCol(k).Red?
    ensures k.Frame? && k.up.Frame? && k.up.color.Black? && Col(k.sibling).Black?
    ensures k.node in m && k.up.node in m && m[z].p == k.node && m[k.node].p == k.up.node && z in m
    ensures Child(m[k.up.node], k.up.d) == k.node && Child(m[k.node], k.d) == z
    ensures Child(m[k.up.node], !k.up.d) == RootOf(k.up.sibling, nil)
    ensures Child(m[k.up.node], !k.up.d) != k.node && Child(m[k.node], !k.d) != z
    ensures k.node != nil && k.up.node != nil && z != nil
    ensures z != k.node && k.node != k.up.node && z != k.up.node
    ensures k.up.sibling.Node? ==>
      k.up.sibling.root in m && k.up.sibling.color == m[k.up.sibling.root].color &&
        k.up.sibling.root !in {nil, z, k.node, k.up.node}
  {
    var g := k.up;
    assert PathOK(g, BlackHeight(t) + 0);
    assert Segment(m, nil, g, k.node, root, nil);
    ShapeNodes(m, nil, t, z, k.node);
    ShapeNodes(m, nil, g.sibling, Child(m[g.node], !g.d), g.node);
    ShapeNodes(m, nil, k.sibling, Child(m[k.node], !k.d), k.node);
    assert PathNodes(k) == {k.node} + Nodes(k.sibling) + PathNodes(g);
    assert PathNodes(g) == {g.node} + Nodes(g.sibling) + PathNodes(g.up);
    assert z in Nodes(t) && PathDistinct(g);
    if g.sibling.Node? {
      assert g.sibling.root in Nodes(g.sibling);
    }
  }

  lemma {:induction false} RecolorOK<P>(k: Path<P>, t: Tree<P>, P': Tree<P>, U: Tree<P>)
    requires RedBlack(t) && Col(t).Red? && PathOK(k, BlackHeight(t)) && PathCol(k).Red? && k.up.Frame?
    requires Col(k.up.sibling).Red? && U == k.up.sibling.(color := Black) && P' == Mk(k.d, Black, t, k.node, k.sibling)
    ensures var G := Mk(k.up.d, Red, P', k.up.node, U);
            RedBlack(G) && PathOK(k.up.up, BlackHeight(G)) && Line(k.up.up, G) == Line(k, t) &&
              All(k.up.up, G) == All(k, t)
  {
    assert PathOK(k.up, BlackHeight(t));
    var P := Mk(k.d, Red, t, k.node, k.sibling);
    LineUp(k, t);
    LineUp(k.up, P);
    assert InOrder(P') == InOrder(P) && Nodes(P') == Nodes(P) && InOrder(U) == InOrder(k.up.sibling) &&
      Nodes(U) == Nodes(k.up.sibling);
    assert RedBlack(P') && RedBlack(U) && BlackHeight(U) == BlackHeight(k.up.sibling) + 1 == BlackHeight(P');
  }

  lemma {:induction false} InsertRecolor<P>(m: Links<P>, m': Links<P>, nil: P, root: P, k: Path<P>, t: Tree<P>, z: P)
    requires InsertInv(m, nil, root, k, t, z) && PathCol(k).Red? && k.Frame? && k.up.Frame? && Col(k.up.sibling).Red?
    requires var p, g, u := k.node, k.up.node, k.up.sibling.root;
             p in m && g in m && u in m && SameExcept(m, m', {p, g, u}) &&
             m'[p] == m[p].(color := Black) && m'[u] == m[u].(color := Black) && m'[g] == m[g].(color := Red)
    ensures var G := Mk(k.up.d, Red, Mk(k.d, Black, t, k.node, k.sibling), k.up.node, k.up.sibling.(color := Black));
            InsertInv(m', nil, root, k.up.up, G, k.up.node) && Line(k.up.up, G) == Line(k, t) &&
              All(k.up.up, G) == All(k, t)
  {
    RedParent(m, nil, root, k, t, z);
    var p, g, u, up := k.node, k.up.node, k.up.sibling.root, k.up.up;
    var m1 := m[p := m[p].(color := Black)];
    var m2 := m1[u := m1[u].(color := Black)];
    assert m' == m2[g := m2[g].(color := Red)];
    var P, P' := Mk(k.d, Red, t, p, k.sibling), Mk(k.d, Black, t, p, k.sibling);
    ZipUp(m, nil, root, k, t, z);
    ZipPaint(m, m1, nil, root, k.up, P, p, Black);
    ZipUp(m1, nil, root, k.up, P', p);
    var G1 := Mk(k.up.d, Black, P', g, k.up.sibling);
    ZipDown(m1, nil, root, up, G1, g, !k.up.d);
    var ku := Frame(!k.up.d, Black, g, P', up);
    ZipPaint(m1, m2, nil, root, ku, k.up.sibling, u, Black);
    ZipUp(m2, nil, root, ku, k.up.sibling.(color := Black), u);
    var G2 := Mk(k.up.d, Black, P', g, k.up.sibling.(color := Black));
    ZipPaint(m2, m', nil, root, up, G2, g, Red);
    RecolorOK(k, t, P', k.up.sibling.(color := Black));
  }

  // After turning p and z, p is the lower of two reds on the outer side.
  lemma {:induction false} InsertTurn<P>(m: Links<P>, m': Links<P>, nil: P, root: P, root': P, k: Path<P>, t: Tree<P>,
                                         z: P)
    requires InsertInv(m, nil, root, k, t, z) && PathCol(k).Red? && k.Frame? && k.up.Frame? && k.d == !k.up.d
    requires var d, P := k.up.d, Mk(k.d, Red, t, k.node, k.sibling);
             CanRotate(d, P) && Zip(m', nil, root', k.up, Rotate(d, P), z)
    ensures t.Node?
    ensures var d := k.up.d;
            var near, far := if d then t.left else t.right, if d then t.right else t.left;
            var k', t' := Frame(d, Red, z, far, k.up), Mk(d, Red, k.sibling, k.node, near);
            InsertInv(m', nil, root', k', t', k.node) && Line(k', t') == Line(k, t) && All(k', t') == All(k, t)
  {
    var d, P := k.up.d, Mk(k.d, Red, t, k.node, k.sibling);
    ZipDown(m', nil, root', k.up, Rotate(d, P), z, d);
    RedParent(m, nil, root, k, t, z);
    RotateKeeps(d, P);
    LineUp(k, t);
    var near, far := if d then t.left else t.right, if d then t.right else t.left;
    LineUp(Frame(d, Red, z, far, k.up), Mk(d, Red, k.sibling, k.node, near));
  }

  // The two colours before the last rotation.
  lemma {:induction false} InsertPaint<P>(m: Links<P>, m': Links<P>, nil: P, root: P, k: Path<P>, t: Tree<P>, z: P)
    requires InsertInv(m, nil, root, k, t, z) && PathCol(k).Red? && k.Frame? && k.up.Frame? && k.d == k.up.d
    requires var p, g := k.node, k.up.node;
             p in m && g in m && SameExcept(m, m', {p, g}) &&
             m'[p] == m[p].(color := Black) && m'[g] == m[g].(color := Red)
    ensures var G := Mk(k.d, Red, Mk(k.d, Black, t, k.node, k.sibling), k.up.node, k.up.sibling);
            Zip(m', nil, root, k.up.up, G, k.up.node) && CanRotate(!k.d, G)
  {
    RedParent(m, nil, root, k, t, z);
    var p, g := k.node, k.up.node;
    var m1 := m[p := m[p].(color := Black)];
    assert m' == m1[g := m1[g].(color := Red)];
    var P, P' := Mk(k.d, Red, t, p, k.sibling), Mk(k.d, Black, t, p, k.sibling);
    ZipUp(m, nil, root, k, t, z);
    ZipPaint(m, m1, nil, root, k.up, P, p, Black);
    ZipUp(m1, nil, root, k.up, P', p);
    ZipPaint(m1, m', nil, root, k.up.up, Mk(k.d, Black, P', g, k.up.sibling), g, Red);
  }

  lemma {:induction false} DoneOK<P>(k: Path<P>, t: Tree<P>, G: Tree<P>)
    requires RedBlack(t) && Col(t).Red? && PathOK(k, BlackHeight(t)) && PathCol(k).Red? && k.up.Frame?
    requires Col(k.up.sibling).Black? && G == Mk(k.d, Red, k.sibling, k.up.node, k.up.sibling) && k.d == k.up.d
    ensures var k' := Frame(k.d, Black, k.node, G, k.up.up);
            PathOK(k', BlackHeight(t)) && Line(k', t) == Line(k, t) && All(k', t) == All(k, t)
  {
    assert PathOK(k.up, BlackHeight(t));
    assert RedBlack(G) && BlackHeight(G) == BlackHeight(t);
    var k' := Frame(k.d, Black, k.node, G, k.up.up);
    var P, P' := Mk(k.d, Red, t, k.node, k.sibling), Mk(k.d, Black, t, k.node, k.sibling);
    var W := Mk(k.d, Red, P', k.up.node, k.up.sibling);
    LineUp(k, t);
    LineUp(k.up, P);
    LineUp(k', t);
    RotateKeeps(!k.d, W);
    assert Rotate(!k.d, W) == Mk(k.d, Black, t, k.node, G);
    assert InOrder(P') == InOrder(P) && Nodes(P') == Nodes(P);
  }

  lemma {:induction false} InsertDone<P>(m: Links<P>, m': Links<P>, nil: P, root: P, root': P, k: Path<P>, t: Tree<P>,
                                         z: P)
    requires InsertInv(m, nil, root, k, t, z) && PathCol(k).Red? && k.Frame? && k.up.Frame? && k.d == k.up.d
    requires Col(k.up.sibling).Black?
    requires var G := Mk(k.d, Red, Mk(k.d, Black, t, k.node, k.sibling), k.up.node, k.up.sibling);
             CanRotate(!k.d, G) && Zip(m', nil, root', k.up.up, Rotate(!k.d, G), k.node)
    ensures var k' := Frame(k.d, Black, k.node, Mk(k.d, Red, k.sibling, k.up.node, k.up.sibling), k.up.up);
            InsertInv(m', nil, root', k', t, z) && Line(k', t) == Line(k, t) && All(k', t) == All(k, t)
  {
    RedParent(m, nil, root, k, t, z);
    var P' := Mk(k.d, Black, t, k.node, k.sibling);
    var G := Mk(k.d, Red, P', k.up.node, k.up.sibling);
    ZipDown(m', nil, root', k.up.up, Rotate(!k.d, G), k.node, k.d);
    DoneOK(k, t, Mk(k.d, Red, k.sibling, k.up.node, k.up.sibling));
  }

  // The loop's exit: once the root is painted black the tree is red-black again.
  lemma {:induction false} InsertExit<P>(m: Links<P>, m': Links<P>, nil: P, root: P, k: Path<P>, t: Tree<P>, z: P)
    requires InsertInv(m, nil, root, k, t, z) && PathCol(k).Black?
    requires root in m && SameExcept(m, m', {root}) && m'[root] == m[root].(color := Black)
    ensures Plug(k, t).Node?
    ensures var w := Plug(k, t).(color := Black);
            Zip(m', nil, root, Top, w, root) && RedBlack(w) && InOrder(w) == Line(k, t) && Nodes(w) == All(k, t)
  {
    ZipWhole(m, nil, root, k, t, z);
    PlugRedBlack(k, t);
    PlugInOrder(k, t);
    assert z in Nodes(t);
    ZipPaint(m, m', nil, root, Top, Plug(k, t), root, Black);
  }

  // ---------------------------------------------------------------- deletion

  ghost function Blacken<P>(t: Tree<P>): Tree<P> {
    if t.Leaf? then t else t.(color := Black)
  }

  // Everything is red-black, except that the subtree at x is one black node short (and may be red above a
  // red child).  x may be nil, and then the sentinel's parent link tells where it hangs.
  ghost predicate DeleteInv<P>(m: Links<P>, nil: P, root: P, k: Path<P>, t: Tree<P>, x: P) {
    && Zip(m, nil, root, k, t, x) && RedBlack(Blacken(t)) && PathOK(k, BlackHeight(t) + 1)
    && nil in m && m[nil].color.Black? && x in m && (k.Frame? ==> m[x].p == k.node)
  }

  // The sibling of a black x is a real node, whose children exist when it is red.
  lemma {:induction false} SiblingOf<P>(m: Links<P>, nil: P, root: P, k: Path<P>, t: Tree<P>, x: P)
    requires DeleteInv(m, nil, root, k, t, x) && k.Frame? && Col(t).Black?
    ensures k.node in m && m[x].p == k.node && Child(m[k.node], k.d) == x && k.sibling.Node?
    ensures var w := k.sibling;
            && Child(m[k.node], !k.d) == w.root && w.root in m && w.root !in {x, nil, k.node} && k.node !in {x, nil}
            && m[w.root].color == w.color && m[k.node].color == k.color && m[w.root].p == k.node
            && m[w.root].left == RootOf(w.left, nil) && m[w.root].right == RootOf(w.right, nil)
            && m[w.root].left in m && m[w.root].right in m
            && m[m[w.root].left].color == Col(w.left) && m[m[w.root].right].color == Col(w.right)
            && (w.color.Red? ==>
              w.left.Node? && w.right.Node? && Col(w.left).Black? && Col(w.right).Black? &&
              k.color.Black?)
            && (w.left.Node? ==> w.left.root !in {x, nil, k.node, w.root} && w.left.root !in PathNodes(k.up))
            && (w.right.Node? ==> w.right.root !in {x, nil, k.node, w.root} && w.right.root !in PathNodes(k.up))
            && (w.left.Node? && w.right.Node? ==> w.left.root != w.right.root)
  {
    var w := k.sibling;
    ShapeNodes(m, nil, t, x, k.node);
    ShapeNodes(m, nil, w, Child(m[k.node], !k.d), k.node);
    assert PathNodes(k) == {k.node} + Nodes(w) + PathNodes(k.up);
    if t.Node? { assert x in Nodes(t); }
    SiblingChildren(m, nil, w, Child(m[k.node], !k.d), k.node);
  }

  lemma {:induction false} FocusColor<P>(m: Links<P>, nil: P, root: P, k: Path<P>, t: Tree<P>, x: P)
    requires DeleteInv(m, nil, root, k, t, x)
    ensures x in m && m[x].color == Col(t) && (x == root <==> k.Top?)
  {
    SegmentNodes(m, nil, k, x, root, nil);
    ShapeNodes(m, nil, t, x, ParentOf(k, nil));
  }

  lemma {:induction false} SiblingChildren<P>(m: Links<P>, nil: P, w: Tree<P>, x: P, p: P)
    requires w.Node? && Shape(m, nil, w, x, p) && Distinct(w) && nil in m && m[nil].color.Black? && RedBlack(w)
    ensures x in m && x == w.root && m[x].left == RootOf(w.left, nil) && m[x].right == RootOf(w.right, nil)
    ensures m[x].left in m && m[x].right in m
    ensures m[m[x].left].color == Col(w.left) && m[m[x].right].color == Col(w.right)
    ensures w.left.Node? ==> w.left.root in Nodes(w) && w.left.root !in {nil, x}
    ensures w.right.Node? ==> w.right.root in Nodes(w) && w.right.root !in {nil, x}
    ensures w.left.Node? && w.right.Node? ==> w.left.root != w.right.root
  {
    ShapeNodes(m, nil, w.left, m[x].left, x);
    ShapeNodes(m, nil, w.right, m[x].right, x);
  }

  lemma {:induction false} DeleteRedPaint<P>(m: Links<P>, m': Links<P>, nil: P, root: P, k: Path<P>, t: Tree<P>, x: P)
    requires DeleteInv(m, nil, root, k, t, x) && k.Frame? && Col(t).Black? && Col(k.sibling).Red?
    requires var p, w := k.node, k.sibling.root;
             p in m && w in m && SameExcept(m, m', {p, w}) &&
             m'[w] == m[w].(color := Black) && m'[p] == m[p].(color := Red)
    ensures var P := Mk(k.d, Red, t, k.node, k.sibling.(color := Black));
            Zip(m', nil, root, k.up, P, k.node) && CanRotate(k.d, P)
  {
    SiblingOf(m, nil, root, k, t, x);
    var p, w := k.node, k.sibling.root;
    var m1 := m[w := m[w].(color := Black)];
    assert m' == m1[p := m1[p].(color := Red)];
    var kw := Frame(!k.d, k.color, p, t, k.up);
    ZipUp(m, nil, root, k, t, x);
    ZipDown(m, nil, root, k.up, Mk(k.d, k.color, t, p, k.sibling), p, !k.d);
    ZipPaint(m, m1, nil, root, kw, k.sibling, w, Black);
    ZipUp(m1, nil, root, kw, k.sibling.(color := Black), w);
    ZipPaint(m1, m', nil, root, k.up, Mk(k.d, k.color, t, p, k.sibling.(color := Black)), p, Red);
  }

  lemma {:induction false} RedBalance<P>(k: Path<P>, t: Tree<P>, wn: Tree<P>, wf: Tree<P>)
    requires k.Frame? && RedBlack(t) && PathOK(k, BlackHeight(t) + 1) && Col(k.sibling).Red?
    requires wn == (if k.d then k.sibling.left else k.sibling.right) &&
             wf == (if k.d then k.sibling.right else k.sibling.left)
    ensures PathOK(Frame(k.d, Red, k.node, wn, Frame(k.d, Black, k.sibling.root, wf, k.up)), BlackHeight(t) + 1)
  {
    assert RedBlack(wn) && RedBlack(wf) && BlackHeight(wn) == BlackHeight(wf) == BlackHeight(t) + 1;
  }

  lemma {:induction false} DeleteRedDone<P>(m: Links<P>, m': Links<P>, nil: P, root: P, root': P, k: Path<P>,
                                            t: Tree<P>, x: P, wn: Tree<P>, wf: Tree<P>)
    requires DeleteInv(m, nil, root, k, t, x) && k.Frame? && Col(t).Black? && Col(k.sibling).Red?
    requires wn == (if k.d then k.sibling.left else k.sibling.right) &&
             wf == (if k.d then k.sibling.right else k.sibling.left)
    requires var P := Mk(k.d, Red, t, k.node, k.sibling.(color := Black));
             CanRotate(k.d, P) && Zip(m', nil, root', k.up, Rotate(k.d, P), k.sibling.root)
    requires nil in m' && m'[nil] == m[nil]
    ensures var k' := Frame(k.d, Red, k.node, wn, Frame(k.d, Black, k.sibling.root, wf, k.up));
            DeleteInv(m', nil, root', k', t, x) && Line(k', t) == Line(k, t) && All(k', t) == All(k, t)
  {
    SiblingOf(m, nil, root, k, t, x);
    var W := k.sibling.(color := Black);
    var P := Mk(k.d, Red, t, k.node, W);
    RotateKeeps(k.d, P);
    var k1 := Frame(k.d, Black, k.sibling.root, wf, k.up);
    var k' := Frame(k.d, Red, k.node, wn, k1);
    ZipDown(m', nil, root', k.up, Rotate(k.d, P), k.sibling.root, k.d);
    ZipDown(m', nil, root', k1, Mk(k.d, Red, t, k.node, wn), k.node, k.d);
    RedLine(k, t, wn, wf);
    RedBalance(k, t, wn, wf);
  }

  lemma {:induction false} RedLine<P>(k: Path<P>, t: Tree<P>, wn: Tree<P>, wf: Tree<P>)
    requires k.Frame? && k.sibling.Node?
    requires wn == (if k.d then k.sibling.left else k.sibling.right) &&
             wf == (if k.d then k.sibling.right else k.sibling.left)
    ensures var k' := Frame(k.d, Red, k.node, wn, Frame(k.d, Black, k.sibling.root, wf, k.up));
            Line(k', t) == Line(k, t) && All(k', t) == All(k, t)
  {
    var W := k.sibling.(color := Black);
    var P := Mk(k.d, Red, t, k.node, W);
    RotateKeeps(k.d, P);
    var k1 := Frame(k.d, Black, k.sibling.root, wf, k.up);
    LineUp(k, t);
    LineUp(Frame(k.d, Red, k.node, wn, k1), t);
    LineUp(k1, Mk(k.d, Red, t, k.node, wn));
    assert InOrder(W) == InOrder(k.sibling) && Nodes(W) == Nodes(k.sibling);
  }

  lemma {:induction false} ShortBalance<P>(k: Path<P>, t: Tree<P>, W: Tree<P>)
    requires k.Frame? && RedBlack(t) && PathOK(k, BlackHeight(t) + 1) && k.sibling.Node? && k.sibling.color.Black?
    requires Col(k.sibling.left).Black? && Col(k.sibling.right).Black? && W == k.sibling.(color := Red)
    requires Col(t).Black?
    ensures var P := Mk(k.d, k.color, t, k.node, W); RedBlack(Blacken(P)) && PathOK(k.up, BlackHeight(P) + 1)
  {
    assert RedBlack(W) && BlackHeight(W) == BlackHeight(t);
  }

  lemma {:induction false} DeleteRecolor<P>(m: Links<P>, m': Links<P>, nil: P, root: P, k: Path<P>, t: Tree<P>, x: P)
    requires DeleteInv(m, nil, root, k, t, x) && k.Frame? && Col(t).Black? && k.sibling.Node? && k.sibling.color.Black?
    requires Col(k.sibling.left).Black? && Col(k.sibling.right).Black?
    requires var w := k.sibling.root; w in m && SameExcept(m, m', {w}) && m'[w] == m[w].(color := Red)
    ensures var P := Mk(k.d, k.color, t, k.node, k.sibling.(color := Red));
            DeleteInv(m', nil, root, k.up, P, k.node) && Line(k.up, P) == Line(k, t) && All(k.up, P) == All(k, t)
  {
    SiblingOf(m, nil, root, k, t, x);
    var p, w := k.node, k.sibling.root;
    var kw := Frame(!k.d, k.color, p, t, k.up);
    var W := k.sibling.(color := Red);
    ZipUp(m, nil, root, k, t, x);
    ZipDown(m, nil, root, k.up, Mk(k.d, k.color, t, p, k.sibling), p, !k.d);
    ZipPaint(m, m', nil, root, kw, k.sibling, w, Red);
    ZipUp(m', nil, root, kw, W, w);
    LineUp(k, t);
    ShortBalance(k, t, W);
    assert InOrder(W) == InOrder(k.sibling) && Nodes(W) == Nodes(k.sibling);
  }

  lemma {:induction false} DeleteTurnPaint<P>(m: Links<P>, m': Links<P>, nil: P, root: P, k: Path<P>, t: Tree<P>,
                                              x: P, wn: Tree<P>, wf: Tree<P>)
    requires DeleteInv(m, nil, root, k, t, x) && k.Frame? && Col(t).Black? && k.sibling.Node? && k.sibling.color.Black?
    requires wn == (if k.d then k.sibling.left else k.sibling.right) &&
             wf == (if k.d then k.sibling.right else k.sibling.left)
    requires Col(wn).Red?
    requires var w, n := k.sibling.root, wn.root;
             w in m && n in m && SameExcept(m, m', {w, n}) &&
             m'[n] == m[n].(color := Black) && m'[w] == m[w].(color := Red)
    ensures var W := Mk(k.d, Red, wn.(color := Black), k.sibling.root, wf);
            Zip(m', nil, root, Frame(!k.d, k.color, k.node, t, k.up), W, k.sibling.root) && CanRotate(!k.d, W)
  {
    SiblingOf(m, nil, root, k, t, x);
    var p, w, n := k.node, k.sibling.root, wn.root;
    var m1 := m[n := m[n].(color := Black)];
    assert m' == m1[w := m1[w].(color := Red)];
    var kw := Frame(!k.d, k.color, p, t, k.up);
    var kn := Frame(k.d, Black, w, wf, kw);
    ZipUp(m, nil, root, k, t, x);
    ZipDown(m, nil, root, k.up, Mk(k.d, k.color, t, p, k.sibling), p, !k.d);
    ZipDown(m, nil, root, kw, k.sibling, w, k.d);
    ZipPaint(m, m1, nil, root, kn, wn, n, Black);
    ZipUp(m1, nil, root, kn, wn.(color := Black), n);
    ZipPaint(m1, m', nil, root, kw, Mk(k.d, Black, wn.(color := Black), w, wf), w, Red);
  }

  lemma {:induction false} TurnBalance<P>(k: Path<P>, t: Tree<P>, wn: Tree<P>, wf: Tree<P>, W': Tree<P>)
    requires k.Frame? && RedBlack(t) && PathOK(k, BlackHeight(t) + 1) && k.sibling.Node? && k.sibling.color.Black?
    requires wn == (if k.d then k.sibling.left else k.sibling.right) &&
             wf == (if k.d then k.sibling.right else k.sibling.left)
    requires Col(wn).Red? && Col(wf).Black?
    requires W' == if k.d then Node(Black, wn.left, wn.root, Node(Red, wn.right, k.sibling.root, wf))
                   else Node(Black, Node(Red, wf, k.sibling.root, wn.left), wn.root, wn.right)
    ensures PathOK(k.(sibling := W'), BlackHeight(t) + 1)
  {
    assert RedBlack(wn) && RedBlack(wf) && BlackHeight(wn) == BlackHeight(wf) == BlackHeight(t);
    var V := if k.d then W'.right else W'.left;
    assert RedBlack(V) && BlackHeight(V) == BlackHeight(t);
    assert RedBlack(W') && BlackHeight(W') == BlackHeight(t) + 1;
  }

  lemma {:induction false} DeleteTurnDone<P>(m: Links<P>, m': Links<P>, nil: P, root: P, root': P, k: Path<P>,
                                             t: Tree<P>, x: P, wn: Tree<P>, wf: Tree<P>)
    requires DeleteInv(m, nil, root, k, t, x) && k.Frame? && Col(t).Black? && k.sibling.Node? && k.sibling.color.Black?
    requires wn == (if k.d then k.sibling.left else k.sibling.right) &&
             wf == (if k.d then k.sibling.right else k.sibling.left)
    requires Col(wn).Red? && Col(wf).Black?
    requires var W := Mk(k.d, Red, wn.(color := Black), k.sibling.root, wf);
             Zip(m', nil, root', Frame(!k.d, k.color, k.node, t, k.up), Rotate(!k.d, W), wn.root)
    requires nil in m' && m'[nil] == m[nil]
    ensures var W := Mk(k.d, Red, wn.(color := Black), k.sibling.root, wf);
            var k' := k.(sibling := Rotate(!k.d, W));
            && DeleteInv(m', nil, root', k', t, x) && Line(k', t) == Line(k, t) && All(k', t) == All(k, t)
            && k'.sibling.color.Black? && Col(if k.d then k'.sibling.right else k'.sibling.left).Red?
  {
    SiblingOf(m, nil, root, k, t, x);
    var W := Mk(k.d, Red, wn.(color := Black), k.sibling.root, wf);
    RotateKeeps(!k.d, W);
    var W' := Rotate(!k.d, W);
    var kw := Frame(!k.d, k.color, k.node, t, k.up);
    var k' := k.(sibling := W');
    ZipUp(m', nil, root', kw, W', wn.root);
    ZipDown(m', nil, root', k.up, Mk(k.d, k.color, t, k.node, W'), k.node, k.d);
    TurnBalance(k, t, wn, wf, W');
    assert InOrder(W') == InOrder(k.sibling) && Nodes(W') == Nodes(k.sibling);
  }

  lemma {:induction false} DeleteLastPaint<P>(m: Links<P>, m': Links<P>, nil: P, root: P, k: Path<P>, t: Tree<P>,
                                              x: P, wn: Tree<P>, wf: Tree<P>)
    requires DeleteInv(m, nil, root, k, t, x) && k.Frame? && Col(t).Black? && k.sibling.Node? && k.sibling.color.Black?
    requires wn == (if k.d then k.sibling.left else k.sibling.right) &&
             wf == (if k.d then k.sibling.right else k.sibling.left)
    requires Col(wf).Red?
    requires var p, w, f := k.node, k.sibling.root, wf.root;
             p in m && w in m && f in m && SameExcept(m, m', {p, w, f}) &&
             m'[p] == m[p].(color := Black) && m'[w] == m[w].(color := k.color) && m'[f] == m[f].(color := Black)
    ensures var P := Mk(k.d, Black, t, k.node, Mk(k.d, k.color, wn, k.sibling.root, wf.(color := Black)));
            Zip(m', nil, root, k.up, P, k.node) && CanRotate(k.d, P)
  {
    SiblingOf(m, nil, root, k, t, x);
    var p, w, f := k.node, k.sibling.root, wf.root;
    var m1 := m[f := m[f].(color := Black)];
    var m2 := m1[w := m1[w].(color := k.color)];
    assert m' == m2[p := m2[p].(color := Black)];
    var kw := Frame(!k.d, k.color, p, t, k.up);
    var kf := Frame(!k.d, Black, w, wn, kw);
    ZipUp(m, nil, root, k, t, x);
    ZipDown(m, nil, root, k.up, Mk(k.d, k.color, t, p, k.sibling), p, !k.d);
    ZipDown(m, nil, root, kw, k.sibling, w, !k.d);
    ZipPaint(m, m1, nil, root, kf, wf, f, Black);
    ZipUp(m1, nil, root, kf, wf.(color := Black), f);
    ZipPaint(m1, m2, nil, root, kw, Mk(k.d, Black, wn, w, wf.(color := Black)), w, k.color);
    ZipUp(m2, nil, root, kw, Mk(k.d, k.color, wn, w, wf.(color := Black)), w);
    ZipPaint(m2, m', nil, root, k.up, Mk(k.d, k.color, t, p, Mk(k.d, k.color, wn, w, wf.(color := Black))), p, Black);
  }

  lemma {:induction false} LastLine<P>(k: Path<P>, t: Tree<P>, wn: Tree<P>, wf: Tree<P>, P': Tree<P>)
    requires k.Frame? && k.sibling.Node?
    requires wn == (if k.d then k.sibling.left else k.sibling.right) &&
             wf == (if k.d then k.sibling.right else k.sibling.left)
    requires wf.Node? && P' == Mk(k.d, k.color, Mk(k.d, Black, t, k.node, wn), k.sibling.root, wf.(color := Black))
    ensures Line(k.up, P') == Line(k, t) && All(k.up, P') == All(k, t)
  {
    var W := Mk(k.d, k.color, wn, k.sibling.root, wf.(color := Black));
    var P := Mk(k.d, Black, t, k.node, W);
    RotateKeeps(k.d, P);
    LineUp(k, t);
    assert P' == Rotate(k.d, P);
    assert InOrder(W) == InOrder(k.sibling) && Nodes(W) == Nodes(k.sibling);
  }

  lemma {:induction false} DeleteLastDone<P>(m: Links<P>, m': Links<P>, nil: P, root: P, root': P, k: Path<P>,
                                             t: Tree<P>, x: P, wn: Tree<P>, wf: Tree<P>)
    requires DeleteInv(m, nil, root, k, t, x) && k.Frame? && Col(t).Black? && k.sibling.Node? && k.sibling.color.Black?
    requires wn == (if k.d then k.sibling.left else k.sibling.right) &&
             wf == (if k.d then k.sibling.right else k.sibling.left)
    requires Col(wf).Red?
    requires var P := Mk(k.d, Black, t, k.node, Mk(k.d, k.color, wn, k.sibling.root, wf.(color := Black)));
             Zip(m', nil, root', k.up, Rotate(k.d, P), k.sibling.root)
    requires nil in m' && m'[nil] == m[nil] && root' in m'
    ensures var P := Mk(k.d, Black, t, k.node, Mk(k.d, k.color, wn, k.sibling.root, wf.(color := Black)));
            var w := Plug(k.up, Rotate(k.d, P));
            DeleteInv(m', nil, root', Top, w, root') && Line(Top, w) == Line(k, t) && All(Top, w) == All(k, t)
  {
    var P := Mk(k.d, Black, t, k.node, Mk(k.d, k.color, wn, k.sibling.root, wf.(color := Black)));
    LastLine(k, t, wn, wf, Rotate(k.d, P));
    LastBalance(k, t, wn, wf, Rotate(k.d, P));
    RestartAtRoot(m', nil, root', k.up, Rotate(k.d, P), k.sibling.root);
  }

  lemma {:induction false} RestartAtRoot<P>(m: Links<P>, nil: P, root: P, k: Path<P>, t: Tree<P>, x: P)
    requires Zip(m, nil, root, k, t, x) && RedBlack(t) && PathOK(k, BlackHeight(t)) &&
             (Col(t).Red? ==> PathCol(k).Black?)
    requires nil in m && m[nil].color.Black? && root in m
    ensures var w := Plug(k, t);
            DeleteInv(m, nil, root, Top, w, root) && Line(Top, w) == Line(k, t) &&
            All(Top, w) == All(k, t)
  {
    PlugRedBlack(k, t);
    PlugInOrder(k, t);
    ZipWhole(m, nil, root, k, t, x);
    BlackenRedBlack(Plug(k, t));
  }

  lemma {:induction false} BlackenRedBlack<P>(t: Tree<P>)
    requires RedBlack(t)
    ensures RedBlack(Blacken(t))
  {
  }

  lemma {:induction false} LastBalance<P>(k: Path<P>, t: Tree<P>, wn: Tree<P>, wf: Tree<P>, P': Tree<P>)
    requires k.Frame? && RedBlack(t) && PathOK(k, BlackHeight(t) + 1) && k.sibling.Node? && k.sibling.color.Black?
    requires wn == (if k.d then k.sibling.left else k.sibling.right) &&
             wf == (if k.d then k.sibling.right else k.sibling.left)
    requires Col(wf).Red?
    requires P' == Mk(k.d, k.color, Mk(k.d, Black, t, k.node, wn), k.sibling.root, wf.(color := Black))
    ensures RedBlack(P') && PathOK(k.up, BlackHeight(P')) && (Col(P').Red? ==> PathCol(k.up).Black?)
  {
    var F, T := wf.(color := Black), Mk(k.d, Black, t, k.node, wn);
    assert RedBlack(wf) && RedBlack(wn) && BlackHeight(wf) == BlackHeight(wn) == BlackHeight(t);
    assert RedBlack(F) && BlackHeight(F) == BlackHeight(t) + 1;
    assert RedBlack(T) && BlackHeight(T) == BlackHeight(t) + 1;
  }

  // The loop's exit: x is the root or red, and is painted black.
  lemma {:induction false} DeleteExit<P>(m: Links<P>, m': Links<P>, nil: P, root: P, k: Path<P>, t: Tree<P>, x: P)
    requires DeleteInv(m, nil, root, k, t, x) && (x == root || Col(t).Red?)
    requires x in m && SameExcept(m, m', {x}) && m'[x] == m[x].(color := Black)
    ensures var w := Plug(k, Blacken(t));
            Zip(m', nil, root, Top, w, root) && RedBlack(w) && Col(w).Black? && InOrder(w) == Line(k, t) &&
              Nodes(w) == All(k, t)
            && m'[nil].color.Black?
  {
    var t' := Blacken(t);
    ShapeNodes(m, nil, t, x, ParentOf(k, nil));
    SegmentNodes(m, nil, k, x, root, nil);
    if t.Leaf? {
      assert k.Top?;
      SegmentFrame(m, m', nil, k, x, root, nil);
    } else {
      ZipPaint(m, m', nil, root, k, t, x, Black);
    }
    ZipWhole(m', nil, root, k, t', x);
    PlugInOrder(k, t');
    if k.Frame? {
      assert t.Node? && x in Nodes(t) && Col(t).Red?;
      PlugRedBlack(k, t');
    }
  }

  // ---------------------------------------------------------------- taking a node out

  // A focus with a sound discipline all around it.
  ghost predicate Balanced<P>(k: Path<P>, t: Tree<P>) {
    RedBlack(t) && PathOK(k, BlackHeight(t)) && (Col(t).Red? ==> PathCol(k).Black? && k.Frame?)
  }

  lemma {:induction false} BalancedCompose<P>(j: Path<P>, base: Path<P>, t: Tree<P>)
    requires base.Frame? && Balanced(base, Plug(j, t))
    ensures Balanced(Compose(j, base), t)
    decreases j
  {
    if j.Frame? {
      BalancedCompose(j.up, base, Mk(j.d, j.color, t, j.node, j.sibling));
    }
  }

  lemma {:induction false} ComposeLine<P>(j: Path<P>, b: Path<P>)
    ensures Before(Compose(j, b)) == Before(b) + Before(j) && After(Compose(j, b)) == After(j) + After(b)
    decreases j
  {
    if j.Frame? {
      ComposeLine(j.up, b);
    }
  }

  lemma {:induction false} AllLeftBefore<P>(j: Path<P>)
    requires AllLeft(j)
    ensures Before(j) == []
    decreases j
  {
    if j.Frame? {
      AllLeftBefore(j.up);
    }
  }

  // z has at most one child, t, which takes z's place.
  lemma {:induction false} EraseOne<P>(m: Links<P>, m': Links<P>, nil: P, root: P, root': P, k: Path<P>, zt: Tree<P>,
                                       z: P, t: Tree<P>, x: P)
    requires Zip(m, nil, root, k, zt, z) && zt.Node? && nil in m
    requires (zt.left.Leaf? && t == zt.right && x == m[z].right) || (zt.right.Leaf? && t == zt.left && x == m[z].left)
    requires x in m && m'.Keys == m.Keys && m'[x] == m[x].(p := ParentOf(k, nil))
    requires k.Frame? ==> k.node in m && m'[k.node] == WithChild(m[k.node], k.d, x)
    requires forall n :: n in m && n != x && (k.Frame? ==> n != k.node) ==> m'[n] == m[n]
    requires root' == if k.Top? then x else root
    ensures Zip(m', nil, root', k, t, x) && m'[nil].color == m[nil].color
    ensures Nodes(zt) == Nodes(t) + {z} && z !in Nodes(t)
    ensures InOrder(zt) == (if zt.left.Leaf? then [z] + InOrder(t) else InOrder(t) + [z])
  {
    assert Shape(m, nil, t, x, z) && Distinct(t);
    ShapeNodes(m, nil, t, x, z);
    SegmentNodes(m, nil, k, z, root, nil);
    ShapeReparent(m, m', nil, t, x, z, ParentOf(k, nil));
    ZipReplace(m, m', nil, root, root', k, zt, z, t, x);
  }

  lemma {:induction false} EraseOneBalance<P>(k: Path<P>, zt: Tree<P>, t: Tree<P>)
    requires Balanced(k, zt) && zt.Node?
    requires (zt.left.Leaf? && t == zt.right) || (zt.right.Leaf? && t == zt.left)
    ensures zt.color.Black? ==> RedBlack(Blacken(t)) && PathOK(k, BlackHeight(t) + 1)
    ensures zt.color.Red? ==> Balanced(k, t) && k.Frame?
  {
    BlackenRedBlack(t);
  }

  // z's successor y, at the end of the all-left path j below z's right child, has left its place to x.
  lemma {:induction false} DetachSuccessor<P>(m: Links<P>, m1: Links<P>, nil: P, z: P, j: Path<P>, yt: Tree<P>, y: P,
                                              x: P)
    requires z in m && Shape(m, nil, Plug(j, yt), m[z].right, z) && Distinct(Plug(j, yt)) && z !in Nodes(Plug(j, yt))
    requires j.Frame? && AllLeft(j) && yt.Node? && yt.root == y && y in m && x == m[y].right && x in m && nil in m
    requires SameExcept(m, m1, {x, m[y].p}) && m1[x] == m[x].(p := m[y].p)
    requires j.node in m && m1[j.node] == m[j.node].(left := x)
    ensures m[y].p == j.node && m[z].right != y && x != j.node && y != j.node && z != j.node && j.node != nil && x != y
    ensures Segment(m1, nil, j, x, m[z].right, z) && Shape(m1, nil, yt.right, x, j.node)
    ensures PathDistinct(j) && m[z].right in PathNodes(j) && PathNodes(j) <= m.Keys
  {
    PlugDistinct(j, yt);
    OpenShape(m, nil, j, yt, m[z].right, z);
    SegmentNodes(m, nil, j, y, m[z].right, z);
    ShapeNodes(m, nil, yt, y, j.node);
    assert Shape(m, nil, yt.right, x, y);
    ShapeNodes(m, nil, yt.right, x, y);
    assert j.node in PathNodes(j);
    SegmentRelink(m, m1, nil, j, y, x, m[z].right, m[z].right, z);
    ShapeReparent(m, m1, nil, yt.right, x, y, j.node);
  }

  // y in z's place, with z's colour, both subtrees and the place below k: the new focus is x.
  lemma {:induction false} EraseTwo<P>(m: Links<P>, nil: P, root: P, k: Path<P>, zt: Tree<P>, z: P, j: Path<P>,
                                       yt: Tree<P>, y: P, x: P)
    requires zt.Node? && zt.root == z && yt.Node? && yt.root == y && yt.left.Leaf? && zt.right == Plug(j, yt)
    requires Distinct(zt) && PathDistinct(k) && Nodes(zt) !! PathNodes(k)
    requires y != nil && y in m && m[y].color == zt.color && m[y].p == ParentOf(k, nil)
    requires Shape(m, nil, zt.left, m[y].left, y) && Segment(m, nil, k, y, root, nil)
    requires Segment(m, nil, j, x, m[y].right, y) && Shape(m, nil, yt.right, x, ParentOf(j, y))
    ensures var K := Compose(j, Frame(false, zt.color, y, zt.left, k));
            Zip(m, nil, root, K, yt.right, x) && ParentOf(K, nil) == ParentOf(j, y) && K.Frame?
            && All(K, yt.right) == All(k, zt) - {z} && z in All(k, zt)
  {
    var base := Frame(false, zt.color, y, zt.left, k);
    PlugDistinct(j, yt);
    assert Nodes(zt) == Nodes(zt.left) + {z} + Nodes(zt.right);
    assert Nodes(yt) == {y} + Nodes(yt.right);
    assert Segment(m, nil, base, m[y].right, root, nil);
    ComposeSegment(m, nil, j, base, x, m[y].right, root, nil);
    ComposeNodes(j, base);
  }

  lemma {:induction false} EraseTwoBalance<P>(k: Path<P>, zt: Tree<P>, j: Path<P>, yt: Tree<P>)
    requires zt.Node? && yt.Node? && yt.left.Leaf? && zt.right == Plug(j, yt) && Balanced(k, zt)
    ensures var K := Compose(j, Frame(false, zt.color, yt.root, zt.left, k));
            && (yt.color.Black? ==> RedBlack(Blacken(yt.right)) && PathOK(K, BlackHeight(yt.right) + 1))
            && (yt.color.Red? ==> Balanced(K, yt.right) && K.Frame?)
  {
    var b := Frame(false, zt.color, zt.root, zt.left, k);
    assert k.Top? ==> zt.color.Black?;
    BalancedCompose(j, b, yt);
    ComposeOK(j, b, b.(node := yt.root), BlackHeight(yt));
    BlackenRedBlack(yt.right);
  }

  lemma {:induction false} EraseTwoLine<P>(k: Path<P>, zt: Tree<P>, j: Path<P>, yt: Tree<P>)
    requires zt.Node? && yt.Node? && yt.left.Leaf? && zt.right == Plug(j, yt) && AllLeft(j)
    ensures var K := Compose(j, Frame(false, zt.color, yt.root, zt.left, k));
            var i := |Before(k) + InOrder(zt.left)|;
            i < |Line(k, zt)| && Line(k, zt)[i] == zt.root && Line(K, yt.right) == Line(k, zt)[..i] + Line(k, zt)[i+1..]
  {
    var b := Frame(false, zt.color, yt.root, zt.left, k);
    var K := Compose(j, b);
    ComposeLine(j, b);
    AllLeftBefore(j);
    PlugInOrder(j, yt);
    CutLine(Before(k), InOrder(zt.left), zt.root, [yt.root], InOrder(yt.right), After(j), After(k));
    assert InOrder(zt.right) == [yt.root] + InOrder(yt.right) + After(j);
    assert Before(K) == Before(k) + InOrder(zt.left) + [yt.root];
  }

  lemma {:induction false} CutLine<P>(a: seq<P>, l: seq<P>, z: P, y: seq<P>, r: seq<P>, b: seq<P>, c: seq<P>)
    ensures var s := a + (l + [z] + (y + r + b)) + c;
            var i := |a + l|;
            s[i] == z && (a + l + y) + r + (b + c) == s[..i] + s[i+1..]
  {
    var s := a + (l + [z] + (y + r + b)) + c;
    assert s == (a + l) + [z] + (y + r + b + c);
  }
}
