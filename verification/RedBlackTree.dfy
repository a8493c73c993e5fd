/**
 util/red_black_tree.h: nodes with parent links, one sentinel shared by all leaves, and a stock of erased
 nodes that are handed out again.
 */
module RedBlackTree {
  import opened Sequences
  import opened RedBlackShape
  import opened RedBlackFixup
  import opened RedBlackOrder

  const MAX_ERASED_NODES := 1024

  // An address.  The memory behind the addresses is kept in the tree object: `links` holds the colour and the
  // three pointers of every node that is allocated, `data` its payload.  Assigning to a pointer field is
  // assigning to `links`.
  type Ptr = nat

  class RedBlackTree<T(0)> {
    const cmp: Compare<T>
    const nil: Ptr := 0
    var links: Links<Ptr>
    var data: map<Ptr, T>
    var root: Ptr
    var used: nat
    var erased: seq<Ptr>            // the stock of erased nodes, at most MAX_ERASED_NODES of them
    ghost var tree: Tree<Ptr>       // the shape of the tree

    // The live nodes, in key order.  An iterator holds a node's address.
    ghost function Handles(): seq<Ptr>
      reads this`tree
    {
      InOrder(tree)
    }

    ghost predicate Valid()
      reads this
    {
      WellFormed(links, data, nil, root, tree, used, erased) && |erased| <= MAX_ERASED_NODES
    }

    // The keys are in order; kept apart from Valid, because it depends on the comparison being an order.
    ghost predicate Sorted()
      reads this
    {
      Ordered(cmp, InOrder(tree), data)
    }

    constructor (cmp: Compare<T>, zero: T)
      ensures Valid() && Handles() == [] && Sorted() && erased == [] && this.cmp == cmp && links.Keys == {nil}
    {
      this.cmp := cmp;
      links := map[0 := Cell(Black, 0, 0, 0)];
      data := map[0 := zero];
      root, used, erased, tree := 0, 0, [], Leaf;
    }

    lemma {:induction false} HandlesDistinct()
      requires Valid()
      ensures NoDup(Handles())
    {
      InOrderDistinct(tree);
    }

    // Reading and writing through a pointer.

    function Color(n: Ptr): Color
      requires n in links
      reads this`links
    {
      links[n].color
    }

    function Parent(n: Ptr): Ptr
      requires n in links
      reads this`links
    {
      links[n].p
    }

    function Left(n: Ptr): Ptr
      requires n in links
      reads this`links
    {
      links[n].left
    }

    function Right(n: Ptr): Ptr
      requires n in links
      reads this`links
    {
      links[n].right
    }

    method SetColor(n: Ptr, c: Color)
      requires n in links
      modifies this`links
      ensures links == old(links)[n := old(links)[n].(color := c)]
    {
      links := links[n := links[n].(color := c)];
    }

    method SetParent(n: Ptr, p: Ptr)
      requires n in links
      modifies this`links
      ensures links == old(links)[n := old(links)[n].(p := p)]
    {
      links := links[n := links[n].(p := p)];
    }

    method SetLeft(n: Ptr, x: Ptr)
      requires n in links
      modifies this`links
      ensures links == old(links)[n := old(links)[n].(left := x)]
    {
      links := links[n := links[n].(left := x)];
    }

    method SetRight(n: Ptr, x: Ptr)
      requires n in links
      modifies this`links
      ensures links == old(links)[n := old(links)[n].(right := x)]
    {
      links := links[n := links[n].(right := x)];
    }

    // Hangs y where x hangs: the end of both rotations and of transplant.
    method ReplaceChild(x: Ptr, y: Ptr, ghost k: Path<Ptr>)
      requires x in links && Parent(x) == ParentOf(k, nil)
      requires k.Frame? ==> k.node in links && k.node != nil && (x == Child(links[k.node], true) <==> k.d)
      modifies this`root, this`links
      ensures links == Relinked(old(links), k, y) && links.Keys == old(links.Keys)
      ensures root == if k.Top? then y else old(root)
    {
      if Parent(x) == nil {
        root := y;
      } else if x == Left(Parent(x)) {
        SetLeft(Parent(x), y);
      } else {
        SetRight(Parent(x), y);
      }
    }

    method LeftRotate(x: Ptr, ghost k: Path<Ptr>)
      requires RotateReady(true, links, nil, k, x)
      modifies this`root, this`links
      ensures links == RotatedLinks(true, old(links), nil, k, x) && links.Keys == old(links.Keys)
      ensures root == if k.Top? then old(links[x].right) else old(root)
    {
      var y := Right(x);
      SetRight(x, Left(y));
      if Left(y) != nil {
        SetParent(Left(y), x);
      }
      SetParent(y, Parent(x));
      ReplaceChild(x, y, k);
      ghost var m := links;
      SetLeft(y, x);
      SetParent(x, y);
      assert links == Crowned(true, m, x, y);
    }

    method RightRotate(y: Ptr, ghost k: Path<Ptr>)
      requires RotateReady(false, links, nil, k, y)
      modifies this`root, this`links
      ensures links == RotatedLinks(false, old(links), nil, k, y) && links.Keys == old(links.Keys)
      ensures root == if k.Top? then old(links[y].left) else old(root)
    {
      var x := Left(y);
      SetLeft(y, Right(x));
      if Right(x) != nil {
        SetParent(Right(x), y);
      }
      SetParent(x, Parent(y));
      ReplaceChild(y, x, k);
      ghost var m := links;
      SetRight(x, y);
      SetParent(y, x);
      assert links == Crowned(false, m, y, x);
    }

    // One round of insert_fixup when z's parent is a left child.
    method InsertRoundLeft(z: Ptr, ghost k: Path<Ptr>, ghost t: Tree<Ptr>)
      returns (z': Ptr, ghost k': Path<Ptr>, ghost t': Tree<Ptr>)
      requires BlackNil(links, nil) && InsertInv(links, nil, root, k, t, z)
      requires PathCol(k).Red? && k.up.Frame? && k.up.d == true
      modifies this`root, this`links
      ensures BlackNil(links, nil) && links.Keys == old(links.Keys)
      ensures InsertInv(links, nil, root, k', t', z') && Line(k', t') == Line(k, t) && All(k', t') == All(k, t)
      ensures Depth(k') < Depth(k)
    {
      RedParent(links, nil, root, k, t, z);
      ghost var m := links;
      var g := Parent(Parent(z));
      var y := Right(Parent(Parent(z)));
      if Color(y) == Red {
        SetColor(Parent(z), Black);
        SetColor(y, Black);
        SetColor(Parent(Parent(z)), Red);
        InsertRecolor(m, links, nil, root, k, t, z);
        z', k' := g, k.up.up;
        t' := Mk(k.up.d, Red, Mk(k.d, Black, t, k.node, k.sibling), k.up.node, k.up.sibling.(color := Black));
      } else {
        z', k', t' := z, k, t;
        if z == Right(Parent(z)) {
          z', k', t' := TurnLeft(z, k, t);
        }
        k' := LiftLeft(z', k', t');
      }
    }

    // z and its parent change places, so that the parent is the lower one on the outer side.
    method TurnLeft(z: Ptr, ghost k: Path<Ptr>, ghost t: Tree<Ptr>)
      returns (z': Ptr, ghost k': Path<Ptr>, ghost t': Tree<Ptr>)
      requires BlackNil(links, nil) && InsertInv(links, nil, root, k, t, z)
      requires PathCol(k).Red? && k.up.Frame? && k.up.d == true && k.d == false
      modifies this`root, this`links
      ensures BlackNil(links, nil) && links.Keys == old(links.Keys)
      ensures InsertInv(links, nil, root, k', t', z') && Line(k', t') == Line(k, t) && All(k', t') == All(k, t)
      ensures k'.Frame? && k'.color.Red? && k'.d == true && k'.up == k.up
    {
      RedParent(links, nil, root, k, t, z);
      ghost var m, r := links, root;
      ghost var P := Mk(k.d, Red, t, k.node, k.sibling);
      z' := Parent(z);
      ZipUp(m, nil, r, k, t, z);
      OpenRotate(true, m, nil, r, k.up, P, z');
      LeftRotate(z', k.up);
      ZipRotate(true, m, links, nil, r, root, k.up, P, z');
      RotatedFacts(true, m, links, nil, k.up, z');
      InsertTurn(m, links, nil, r, root, k, t, z);
      k', t' := Frame(true, Red, z, t.right, k.up), Mk(true, Red, k.sibling, k.node, t.left);
    }

    // The parent takes the grandparent's place.
    method LiftLeft(z: Ptr, ghost k: Path<Ptr>, ghost t: Tree<Ptr>) returns (ghost k': Path<Ptr>)
      requires BlackNil(links, nil) && InsertInv(links, nil, root, k, t, z)
      requires PathCol(k).Red? && k.up.Frame? && k.up.d == k.d == true && Col(k.up.sibling).Black?
      modifies this`root, this`links
      ensures BlackNil(links, nil) && links.Keys == old(links.Keys)
      ensures InsertInv(links, nil, root, k', t, z) && Line(k', t) == Line(k, t) && All(k', t) == All(k, t)
      ensures Depth(k') == Depth(k) - 1
    {
      RedParent(links, nil, root, k, t, z);
      ghost var m, r := links, root;
      SetColor(Parent(z), Black);
      SetColor(Parent(Parent(z)), Red);
      ghost var G := Mk(true, Red, Mk(true, Black, t, k.node, k.sibling), k.up.node, k.up.sibling);
      ghost var m1 := links;
      InsertPaint(m, m1, nil, r, k, t, z);
      OpenRotate(false, m1, nil, r, k.up.up, G, k.up.node);
      RightRotate(Parent(Parent(z)), k.up.up);
      ZipRotate(false, m1, links, nil, r, root, k.up.up, G, k.up.node);
      RotatedFacts(false, m1, links, nil, k.up.up, k.up.node);
      InsertDone(m, links, nil, r, root, k, t, z);
      k' := Frame(true, Black, k.node, Mk(true, Red, k.sibling, k.up.node, k.up.sibling), k.up.up);
    }

    // One round of insert_fixup when z's parent is a right child.
    method InsertRoundRight(z: Ptr, ghost k: Path<Ptr>, ghost t: Tree<Ptr>)
      returns (z': Ptr, ghost k': Path<Ptr>, ghost t': Tree<Ptr>)
      requires BlackNil(links, nil) && InsertInv(links, nil, root, k, t, z)
      requires PathCol(k).Red? && k.up.Frame? && k.up.d == false
      modifies this`root, this`links
      ensures BlackNil(links, nil) && links.Keys == old(links.Keys)
      ensures InsertInv(links, nil, root, k', t', z') && Line(k', t') == Line(k, t) && All(k', t') == All(k, t)
      ensures Depth(k') < Depth(k)
    {
      RedParent(links, nil, root, k, t, z);
      ghost var m := links;
      var g := Parent(Parent(z));
      var y := Left(Parent(Parent(z)));
      if Color(y) == Red {
        SetColor(Parent(z), Black);
        SetColor(y, Black);
        SetColor(Parent(Parent(z)), Red);
        InsertRecolor(m, links, nil, root, k, t, z);
        z', k' := g, k.up.up;
        t' := Mk(k.up.d, Red, Mk(k.d, Black, t, k.node, k.sibling), k.up.node, k.up.sibling.(color := Black));
      } else {
        z', k', t' := z, k, t;
        if z == Left(Parent(z)) {
          z', k', t' := TurnRight(z, k, t);
        }
        k' := LiftRight(z', k', t');
      }
    }

    // z and its parent change places, so that the parent is the lower one on the outer side.
    method TurnRight(z: Ptr, ghost k: Path<Ptr>, ghost t: Tree<Ptr>)
      returns (z': Ptr, ghost k': Path<Ptr>, ghost t': Tree<Ptr>)
      requires BlackNil(links, nil) && InsertInv(links, nil, root, k, t, z)
      requires PathCol(k).Red? && k.up.Frame? && k.up.d == false && k.d == true
      modifies this`root, this`links
      ensures BlackNil(links, nil) && links.Keys == old(links.Keys)
      ensures InsertInv(links, nil, root, k', t', z') && Line(k', t') == Line(k, t) && All(k', t') == All(k, t)
      ensures k'.Frame? && k'.color.Red? && k'.d == false && k'.up == k.up
    {
      RedParent(links, nil, root, k, t, z);
      ghost var m, r := links, root;
      ghost var P := Mk(k.d, Red, t, k.node, k.sibling);
      z' := Parent(z);
      ZipUp(m, nil, r, k, t, z);
      OpenRotate(false, m, nil, r, k.up, P, z');
      RightRotate(z', k.up);
      ZipRotate(false, m, links, nil, r, root, k.up, P, z');
      RotatedFacts(false, m, links, nil, k.up, z');
      InsertTurn(m, links, nil, r, root, k, t, z);
      k', t' := Frame(false, Red, z, t.left, k.up), Mk(false, Red, k.sibling, k.node, t.right);
    }

    // The parent takes the grandparent's place.
    method LiftRight(z: Ptr, ghost k: Path<Ptr>, ghost t: Tree<Ptr>) returns (ghost k': Path<Ptr>)
      requires BlackNil(links, nil) && InsertInv(links, nil, root, k, t, z)
      requires PathCol(k).Red? && k.up.Frame? && k.up.d == k.d == false && Col(k.up.sibling).Black?
      modifies this`root, this`links
      ensures BlackNil(links, nil) && links.Keys == old(links.Keys)
      ensures InsertInv(links, nil, root, k', t, z) && Line(k', t) == Line(k, t) && All(k', t) == All(k, t)
      ensures Depth(k') == Depth(k) - 1
    {
      RedParent(links, nil, root, k, t, z);
      ghost var m, r := links, root;
      SetColor(Parent(z), Black);
      SetColor(Parent(Parent(z)), Red);
      ghost var G := Mk(false, Red, Mk(false, Black, t, k.node, k.sibling), k.up.node, k.up.sibling);
      ghost var m1 := links;
      InsertPaint(m, m1, nil, r, k, t, z);
      OpenRotate(true, m1, nil, r, k.up.up, G, k.up.node);
      LeftRotate(Parent(Parent(z)), k.up.up);
      ZipRotate(true, m1, links, nil, r, root, k.up.up, G, k.up.node);
      RotatedFacts(true, m1, links, nil, k.up.up, k.up.node);
      InsertDone(m, links, nil, r, root, k, t, z);
      k' := Frame(false, Black, k.node, Mk(false, Red, k.sibling, k.up.node, k.up.sibling), k.up.up);
    }

    method InsertFixup(z: Ptr, ghost k: Path<Ptr>, ghost t: Tree<Ptr>)
      requires BlackNil(links, nil) && InsertInv(links, nil, root, k, t, z)
      modifies this`root, this`links, this`tree
      ensures BlackNil(links, nil) && links.Keys == old(links.Keys)
      ensures Zip(links, nil, root, Top, tree, root) && RedBlack(tree) && Col(tree).Black?
      ensures InOrder(tree) == Line(k, t) && Nodes(tree) == All(k, t)
    {
      var z := z;
      ghost var k, t, line, all := k, t, Line(k, t), All(k, t);
      while Color(Parent(z)) == Red
        invariant BlackNil(links, nil) && links.Keys == old(links.Keys)
        invariant InsertInv(links, nil, root, k, t, z) && Line(k, t) == line && All(k, t) == all
        decreases Depth(k)
      {
        ParentColor(links, nil, root, k, t, z);
        RedParent(links, nil, root, k, t, z);
        if Parent(z) == Left(Parent(Parent(z))) {
          z, k, t := InsertRoundLeft(z, k, t);
        } else {
          z, k, t := InsertRoundRight(z, k, t);
        }
      }
      ParentColor(links, nil, root, k, t, z);
      PaintRoot(z, k, t);
    }

    method PaintRoot(ghost z: Ptr, ghost k: Path<Ptr>, ghost t: Tree<Ptr>)
      requires BlackNil(links, nil) && InsertInv(links, nil, root, k, t, z) && PathCol(k).Black?
      modifies this`links, this`tree
      ensures BlackNil(links, nil) && links.Keys == old(links.Keys)
      ensures Zip(links, nil, root, Top, tree, root) && RedBlack(tree) && Col(tree).Black?
      ensures InOrder(tree) == Line(k, t) && Nodes(tree) == All(k, t)
    {
      ZipRoot(links, nil, root, k, t, z);
      ghost var m := links;
      SetColor(root, Black);
      InsertExit(m, links, nil, root, k, t, z);
      tree := Plug(k, t).(color := Black);
    }

    // One round of delete_fixup when x is a left child.
    method DeleteRoundLeft(x: Ptr, ghost k: Path<Ptr>, ghost t: Tree<Ptr>)
      returns (x': Ptr, ghost k': Path<Ptr>, ghost t': Tree<Ptr>)
      requires DeleteInv(links, nil, root, k, t, x) && k.Frame? && Col(t).Black? && k.d == true
      modifies this`root, this`links
      ensures links.Keys == old(links.Keys)
      ensures DeleteInv(links, nil, root, k', t', x') && Line(k', t') == Line(k, t) && All(k', t') == All(k, t)
      ensures Depth(k') < Depth(k) || (Depth(k') == Depth(k) && Col(t').Red?)
    {
      SiblingOf(links, nil, root, k, t, x);
      var w := Right(Parent(x));
      k' := k;
      if Color(w) == Red {
        w, k' := RedSiblingLeft(x, w, k, t);
      }
      SiblingOf(links, nil, root, k', t, x);
      if Color(Left(w)) == Black && Color(Right(w)) == Black {
        ghost var m := links;
        SetColor(w, Red);
        DeleteRecolor(m, links, nil, root, k', t, x);
        x', t', k' := Parent(x), Mk(k'.d, k'.color, t, k'.node, k'.sibling.(color := Red)), k'.up;
      } else {
        if Color(Right(w)) == Black {
          w, k' := NearRedLeft(x, w, k', t);
        }
        t' := FarRedLeft(x, w, k', t);
        x', k' := root, Top;
      }
    }

    // A red sibling w goes above x's parent; the new sibling is black.
    method RedSiblingLeft(x: Ptr, w: Ptr, ghost k: Path<Ptr>, ghost t: Tree<Ptr>)
      returns (w': Ptr, ghost k': Path<Ptr>)
      requires DeleteInv(links, nil, root, k, t, x) && k.Frame? && Col(t).Black? && k.d == true
      requires k.sibling.Node? && w == k.sibling.root && k.sibling.color.Red?
      modifies this`root, this`links
      ensures links.Keys == old(links.Keys)
      ensures DeleteInv(links, nil, root, k', t, x) && Line(k', t) == Line(k, t) && All(k', t) == All(k, t)
      ensures k'.Frame? && k'.d == true && k'.color.Red? && Depth(k'.up) == Depth(k)
      ensures k'.sibling.Node? && w' == k'.sibling.root && k'.sibling.color.Black?
    {
      SiblingOf(links, nil, root, k, t, x);
      ghost var m, r := links, root;
      SetColor(w, Black);
      SetColor(Parent(x), Red);
      ghost var m1 := links;
      ghost var P := Mk(true, Red, t, k.node, k.sibling.(color := Black));
      DeleteRedPaint(m, m1, nil, r, k, t, x);
      OpenRotate(true, m1, nil, r, k.up, P, k.node);
      LeftRotate(Parent(x), k.up);
      ZipRotate(true, m1, links, nil, r, root, k.up, P, k.node);
      RotatedFacts(true, m1, links, nil, k.up, k.node);
      DeleteRedDone(m, links, nil, r, root, k, t, x, k.sibling.left, k.sibling.right);
      k' := Frame(true, Red, k.node, k.sibling.left, Frame(true, Black, k.sibling.root, k.sibling.right, k.up));
      SiblingOf(links, nil, root, k', t, x);
      w' := Right(Parent(x));
    }

    // The sibling's red inner child takes the sibling's place.
    method NearRedLeft(x: Ptr, w: Ptr, ghost k: Path<Ptr>, ghost t: Tree<Ptr>)
      returns (w': Ptr, ghost k': Path<Ptr>)
      requires DeleteInv(links, nil, root, k, t, x) && k.Frame? && Col(t).Black? && k.d == true
      requires k.sibling.Node? && w == k.sibling.root && k.sibling.color.Black?
      requires Col(k.sibling.left).Red? && Col(k.sibling.right).Black?
      modifies this`root, this`links
      ensures links.Keys == old(links.Keys)
      ensures DeleteInv(links, nil, root, k', t, x) && Line(k', t) == Line(k, t) && All(k', t) == All(k, t)
      ensures k'.Frame? && k'.d == true && k'.sibling.Node? && w' == k'.sibling.root && k'.sibling.color.Black?
      ensures Col(k'.sibling.right).Red? && Depth(k') == Depth(k)
    {
      SiblingOf(links, nil, root, k, t, x);
      ghost var m, r := links, root;
      SetColor(Left(w), Black);
      SetColor(w, Red);
      ghost var m1 := links;
      ghost var kw := Frame(false, k.color, k.node, t, k.up);
      ghost var wn, wf := k.sibling.left, k.sibling.right;
      ghost var W := Mk(true, Red, wn.(color := Black), w, wf);
      DeleteTurnPaint(m, m1, nil, r, k, t, x, wn, wf);
      OpenRotate(false, m1, nil, r, kw, W, w);
      RightRotate(w, kw);
      ZipRotate(false, m1, links, nil, r, root, kw, W, w);
      RotatedFacts(false, m1, links, nil, kw, w);
      DeleteTurnDone(m, links, nil, r, root, k, t, x, wn, wf);
      k' := k.(sibling := Rotate(false, W));
      SiblingOf(links, nil, root, k', t, x);
      w' := Right(Parent(x));
    }

    // The sibling's red outer child pays for the missing black node.
    method FarRedLeft(x: Ptr, w: Ptr, ghost k: Path<Ptr>, ghost t: Tree<Ptr>) returns (ghost t': Tree<Ptr>)
      requires DeleteInv(links, nil, root, k, t, x) && k.Frame? && Col(t).Black? && k.d == true
      requires k.sibling.Node? && w == k.sibling.root && k.sibling.color.Black? && Col(k.sibling.right).Red?
      modifies this`root, this`links
      ensures links.Keys == old(links.Keys)
      ensures DeleteInv(links, nil, root, Top, t', root) && Line(Top, t') == Line(k, t) && All(Top, t') == All(k, t)
    {
      SiblingOf(links, nil, root, k, t, x);
      ghost var m, r := links, root;
      SetColor(w, Color(Parent(x)));
      SetColor(Parent(x), Black);
      SetColor(Right(w), Black);
      ghost var m1 := links;
      ghost var wn, wf := k.sibling.left, k.sibling.right;
      ghost var P := Mk(true, Black, t, k.node, Mk(true, k.color, wn, w, wf.(color := Black)));
      DeleteLastPaint(m, m1, nil, r, k, t, x, wn, wf);
      OpenRotate(true, m1, nil, r, k.up, P, k.node);
      LeftRotate(Parent(x), k.up);
      ZipRotate(true, m1, links, nil, r, root, k.up, P, k.node);
      RotatedFacts(true, m1, links, nil, k.up, k.node);
      ZipRoot(links, nil, root, k.up, Rotate(true, P), w);
      DeleteLastDone(m, links, nil, r, root, k, t, x, wn, wf);
      t' := Plug(k.up, Rotate(true, P));
    }

    // One round of delete_fixup when x is a right child.
    method DeleteRoundRight(x: Ptr, ghost k: Path<Ptr>, ghost t: Tree<Ptr>)
      returns (x': Ptr, ghost k': Path<Ptr>, ghost t': Tree<Ptr>)
      requires DeleteInv(links, nil, root, k, t, x) && k.Frame? && Col(t).Black? && k.d == false
      modifies this`root, this`links
      ensures links.Keys == old(links.Keys)
      ensures DeleteInv(links, nil, root, k', t', x') && Line(k', t') == Line(k, t) && All(k', t') == All(k, t)
      ensures Depth(k') < Depth(k) || (Depth(k') == Depth(k) && Col(t').Red?)
    {
      SiblingOf(links, nil, root, k, t, x);
      var w := Left(Parent(x));
      k' := k;
      if Color(w) == Red {
        w, k' := RedSiblingRight(x, w, k, t);
      }
      SiblingOf(links, nil, root, k', t, x);
      if Color(Right(w)) == Black && Color(Left(w)) == Black {
        ghost var m := links;
        SetColor(w, Red);
        DeleteRecolor(m, links, nil, root, k', t, x);
        x', t', k' := Parent(x), Mk(k'.d, k'.color, t, k'.node, k'.sibling.(color := Red)), k'.up;
      } else {
        if Color(Left(w)) == Black {
          w, k' := NearRedRight(x, w, k', t);
        }
        t' := FarRedRight(x, w, k', t);
        x', k' := root, Top;
      }
    }

    // A red sibling w goes above x's parent; the new sibling is black.
    method RedSiblingRight(x: Ptr, w: Ptr, ghost k: Path<Ptr>, ghost t: Tree<Ptr>)
      returns (w': Ptr, ghost k': Path<Ptr>)
      requires DeleteInv(links, nil, root, k, t, x) && k.Frame? && Col(t).Black? && k.d == false
      requires k.sibling.Node? && w == k.sibling.root && k.sibling.color.Red?
      modifies this`root, this`links
      ensures links.Keys == old(links.Keys)
      ensures DeleteInv(links, nil, root, k', t, x) && Line(k', t) == Line(k, t) && All(k', t) == All(k, t)
      ensures k'.Frame? && k'.d == false && k'.color.Red? && Depth(k'.up) == Depth(k)
      ensures k'.sibling.Node? && w' == k'.sibling.root && k'.sibling.color.Black?
    {
      SiblingOf(links, nil, root, k, t, x);
      ghost var m, r := links, root;
      SetColor(w, Black);
      SetColor(Parent(x), Red);
      ghost var m1 := links;
      ghost var P := Mk(false, Red, t, k.node, k.sibling.(color := Black));
      DeleteRedPaint(m, m1, nil, r, k, t, x);
      OpenRotate(false, m1, nil, r, k.up, P, k.node);
      RightRotate(Parent(x), k.up);
      ZipRotate(false, m1, links, nil, r, root, k.up, P, k.node);
      RotatedFacts(false, m1, links, nil, k.up, k.node);
      DeleteRedDone(m, links, nil, r, root, k, t, x, k.sibling.right, k.sibling.left);
      k' := Frame(false, Red, k.node, k.sibling.right, Frame(false, Black, k.sibling.root, k.sibling.left, k.up));
      SiblingOf(links, nil, root, k', t, x);
      w' := Left(Parent(x));
    }

    // The sibling's red inner child takes the sibling's place.
    method NearRedRight(x: Ptr, w: Ptr, ghost k: Path<Ptr>, ghost t: Tree<Ptr>)
      returns (w': Ptr, ghost k': Path<Ptr>)
      requires DeleteInv(links, nil, root, k, t, x) && k.Frame? && Col(t).Black? && k.d == false
      requires k.sibling.Node? && w == k.sibling.root && k.sibling.color.Black?
      requires Col(k.sibling.right).Red? && Col(k.sibling.left).Black?
      modifies this`root, this`links
      ensures links.Keys == old(links.Keys)
      ensures DeleteInv(links, nil, root, k', t, x) && Line(k', t) == Line(k, t) && All(k', t) == All(k, t)
      ensures k'.Frame? && k'.d == false && k'.sibling.Node? && w' == k'.sibling.root && k'.sibling.color.Black?
      ensures Col(k'.sibling.left).Red? && Depth(k') == Depth(k)
    {
      SiblingOf(links, nil, root, k, t, x);
      ghost var m, r := links, root;
      SetColor(Right(w), Black);
      SetColor(w, Red);
      ghost var m1 := links;
      ghost var kw := Frame(true, k.color, k.node, t, k.up);
      ghost var wn, wf := k.sibling.right, k.sibling.left;
      ghost var W := Mk(false, Red, wn.(color := Black), w, wf);
      DeleteTurnPaint(m, m1, nil, r, k, t, x, wn, wf);
      OpenRotate(true, m1, nil, r, kw, W, w);
      LeftRotate(w, kw);
      ZipRotate(true, m1, links, nil, r, root, kw, W, w);
      RotatedFacts(true, m1, links, nil, kw, w);
      DeleteTurnDone(m, links, nil, r, root, k, t, x, wn, wf);
      k' := k.(sibling := Rotate(true, W));
      SiblingOf(links, nil, root, k', t, x);
      w' := Left(Parent(x));
    }

    // The sibling's red outer child pays for the missing black node.
    method FarRedRight(x: Ptr, w: Ptr, ghost k: Path<Ptr>, ghost t: Tree<Ptr>) returns (ghost t': Tree<Ptr>)
      requires DeleteInv(links, nil, root, k, t, x) && k.Frame? && Col(t).Black? && k.d == false
      requires k.sibling.Node? && w == k.sibling.root && k.sibling.color.Black? && Col(k.sibling.left).Red?
      modifies this`root, this`links
      ensures links.Keys == old(links.Keys)
      ensures DeleteInv(links, nil, root, Top, t', root) && Line(Top, t') == Line(k, t) && All(Top, t') == All(k, t)
    {
      SiblingOf(links, nil, root, k, t, x);
      ghost var m, r := links, root;
      SetColor(w, Color(Parent(x)));
      SetColor(Parent(x), Black);
      SetColor(Left(w), Black);
      ghost var m1 := links;
      ghost var wn, wf := k.sibling.right, k.sibling.left;
      ghost var P := Mk(false, Black, t, k.node, Mk(false, k.color, wn, w, wf.(color := Black)));
      DeleteLastPaint(m, m1, nil, r, k, t, x, wn, wf);
      OpenRotate(false, m1, nil, r, k.up, P, k.node);
      RightRotate(Parent(x), k.up);
      ZipRotate(false, m1, links, nil, r, root, k.up, P, k.node);
      RotatedFacts(false, m1, links, nil, k.up, k.node);
      ZipRoot(links, nil, root, k.up, Rotate(false, P), w);
      DeleteLastDone(m, links, nil, r, root, k, t, x, wn, wf);
      t' := Plug(k.up, Rotate(false, P));
    }

    method DeleteFixup(x: Ptr, ghost k: Path<Ptr>, ghost t: Tree<Ptr>)
      requires DeleteInv(links, nil, root, k, t, x)
      modifies this`root, this`links, this`tree
      ensures BlackNil(links, nil) && links.Keys == old(links.Keys)
      ensures Zip(links, nil, root, Top, tree, root) && RedBlack(tree) && Col(tree).Black?
      ensures InOrder(tree) == Line(k, t) && Nodes(tree) == All(k, t)
    {
      var x := x;
      ghost var k, t, line, all := k, t, Line(k, t), All(k, t);
      while x != root && Color(x) == Black
        invariant links.Keys == old(links.Keys)
        invariant DeleteInv(links, nil, root, k, t, x) && Line(k, t) == line && All(k, t) == all
        decreases Depth(k), if Col(t).Black? then 1 else 0
      {
        FocusColor(links, nil, root, k, t, x);
        SiblingOf(links, nil, root, k, t, x);
        if x == Left(Parent(x)) {
          x, k, t := DeleteRoundLeft(x, k, t);
        } else {
          x, k, t := DeleteRoundRight(x, k, t);
        }
      }
      FocusColor(links, nil, root, k, t, x);
      PaintFocus(x, k, t);
    }

    method PaintFocus(x: Ptr, ghost k: Path<Ptr>, ghost t: Tree<Ptr>)
      requires DeleteInv(links, nil, root, k, t, x) && (x == root || Col(t).Red?)
      modifies this`links, this`tree
      ensures BlackNil(links, nil) && links.Keys == old(links.Keys)
      ensures Zip(links, nil, root, Top, tree, root) && RedBlack(tree) && Col(tree).Black?
      ensures InOrder(tree) == Line(k, t) && Nodes(tree) == All(k, t)
    {
      ghost var m := links;
      SetColor(x, Black);
      DeleteExit(m, links, nil, root, k, t, x);
      tree := Plug(k, Blacken(t));
    }

    method Transplant(u: Ptr, v: Ptr, ghost k: Path<Ptr>)
      requires u in links && v in links && Parent(u) == ParentOf(k, nil)
      requires k.Frame? ==> k.node in links && k.node !in {nil, u, v} && (u == Child(links[k.node], true) <==> k.d)
      modifies this`root, this`links
      ensures links.Keys == old(links.Keys)
      ensures links == var m := Relinked(old(links), k, v); m[v := m[v].(p := ParentOf(k, nil))]
      ensures root == if k.Top? then v else old(root)
    {
      ReplaceChild(u, v, k);
      assert Parent(u) == ParentOf(k, nil);
      SetParent(v, Parent(u));
    }

    // The leftmost node below x, and the way to it.
    method Minimum(x: Ptr, ghost t: Tree<Ptr>, ghost p: Ptr)
      returns (y: Ptr, ghost j: Path<Ptr>, ghost yt: Tree<Ptr>)
      requires BlackNil(links, nil) && t.Node? && Shape(links, nil, t, x, p) && Nodes(t) <= links.Keys
      ensures AllLeft(j) && Plug(j, yt) == t && yt.Node? && yt.root == y && yt.left.Leaf?
      ensures y in Nodes(t) && y == InOrder(t)[0]
    {
      y, j, yt := x, Top, t;
      while Left(y) != nil
        invariant yt.Node? && Shape(links, nil, yt, y, ParentOf(j, p)) && Nodes(yt) <= Nodes(t)
        invariant AllLeft(j) && Plug(j, yt) == t
        decreases yt
      {
        y, j, yt := Left(y), Frame(true, yt.color, yt.root, yt.right, j), yt.left;
      }
      AllLeftBefore(j);
      PlugInOrder(j, yt);
    }

    // Where v goes: below y, into the hole of k.
    method FindPlace(v: T) returns (y: Ptr, ghost k: Path<Ptr>)
      requires TreeOK(links, nil, root, tree) && Nodes(tree) <= data.Keys
      ensures Zip(links, nil, root, k, Leaf, nil) && PathOK(k, 0)
      ensures y == ParentOf(k, nil) &&
              (k.Frame? ==> y in links && y in data && y != nil && k.d == (cmp(v, data[y]) < 0))
      ensures Line(k, Leaf) == InOrder(tree) && All(k, Leaf) == Nodes(tree) && Directed(cmp, v, k, data)
    {
      var x := root;
      ghost var sub;
      y, k, sub := nil, Top, tree;
      while x != nil
        invariant Zip(links, nil, root, k, sub, x) && Balanced(k, sub)
        invariant y == ParentOf(k, nil) &&
                  (k.Frame? ==> y in links && y in data && y != nil && k.d == (cmp(v, data[y]) < 0))
        invariant Line(k, sub) == InOrder(tree) && All(k, sub) == Nodes(tree) && Directed(cmp, v, k, data)
        decreases sub
      {
        y := x;
        Descend(cmp(v, data[x]) < 0, links, nil, root, k, sub, x);
        if cmp(v, data[x]) < 0 {
          x := Left(x);
          k, sub := Frame(true, sub.color, y, sub.right, k), sub.left;
        } else {
          x := Right(x);
          k, sub := Frame(false, sub.color, y, sub.left, k), sub.right;
        }
      }
    }

    // Hangs the new red node z below y.
    method Attach(z: Ptr, y: Ptr, ghost k: Path<Ptr>)
      requires BlackNil(links, nil) && Zip(links, nil, root, k, Leaf, nil) && PathOK(k, 0)
      requires z in links && z in data && z != nil && z !in PathNodes(k) && y == ParentOf(k, nil)
      requires k.Frame? ==> y in links && y in data && y != nil && k.d == (cmp(data[z], data[y]) < 0)
      modifies this`root, this`links
      ensures BlackNil(links, nil) && links.Keys == old(links.Keys)
      ensures InsertInv(links, nil, root, k, Node(Red, Leaf, z, Leaf), z)
    {
      ghost var m, r := links, root;
      SetParent(z, y);
      if y == nil {
        root := z;
      } else if cmp(data[z], data[y]) < 0 {
        SetLeft(y, z);
      } else {
        SetRight(y, z);
      }
      ghost var m1 := links;
      SetLeft(z, nil);
      SetRight(z, nil);
      SetColor(z, Red);
      AttachZip(m, m1, links, nil, r, root, k, z);
    }

    // The keys of the tree and v are comparable, and the tree is sorted.
    ghost predicate Comparable(v: T)
      reads this
    {
      CanPlace(cmp, v, InOrder(tree), data, {v} + set n | n in Nodes(tree) && n in data :: data[n])
    }

    // A node holding v, not yet in the tree: out of the stock if there is one, otherwise a new one.
    method Obtain(v: T, address: Ptr) returns (z: Ptr)
      requires Valid() && address !in links
      modifies this`links, this`data, this`erased
      ensures Loose(links, data, nil, root, tree, erased, z) && |erased| <= MAX_ERASED_NODES
      ensures data == old(data)[z := v] && z !in Nodes(tree)
      ensures if old(erased) == [] then z == address && erased == [] else old(erased) == erased + [z]
    {
      if |erased| > 0 {
        PopLoose(links, data, nil, root, tree, used, erased, v);
        z, erased := erased[|erased| - 1], erased[..|erased| - 1];
      } else {
        z := address;
        NewLoose(links, data, nil, root, tree, used, z, Cell(Black, nil, nil, nil), v);
        links := links[z := Cell(Black, nil, nil, nil)];
      }
      data := data[z := v];
    }

    // The descent and the linking.
    method Place(z: Ptr) returns (ghost k: Path<Ptr>)
      requires Loose(links, data, nil, root, tree, erased, z) && used == |InOrder(tree)|
      modifies this`root, this`links, this`tree, this`used
      ensures WellFormed(links, data, nil, root, tree, used, erased)
      ensures Line(k, Leaf) == old(InOrder(tree)) && InOrder(tree) == Line(k, Node(Red, Leaf, z, Leaf))
      ensures z in data && Directed(cmp, data[z], k, data)
    {
      ghost var m, r, t := links, root, tree;
      var y;
      y, k := FindPlace(data[z]);
      assert All(k, Node(Red, Leaf, z, Leaf)) == All(k, Leaf) + {z};
      Attach(z, y, k);
      InsertFixup(z, k, Node(Red, Leaf, z, Leaf));
      InsertedWell(m, data, nil, r, root, t, tree, links, used, erased, z, k);
      used := used + 1;
    }

    /** `address` is what malloc would return, if the stock of erased nodes is empty. */
    method Insert(v: T, address: Ptr) returns (z: Ptr, ghost i: nat)
      requires Valid() && address !in links
      modifies this
      ensures Valid() && Inserted(old(Handles()), Handles(), z, i) && z !in old(Handles())
      ensures data == old(data)[z := v]
      ensures if old(erased) == [] then z == address && erased == [] else old(erased) == erased + [z]
      ensures old(Comparable(v)) ==> Sorted() && Between(cmp, v, old(Handles()), i, old(data))
    {
      ghost var data0, keys := data, {v} + set n | n in Nodes(tree) && n in data :: data[n];
      ghost var s := Handles();
      InOrderNodes(tree);
      z := Obtain(v, address);
      ghost var data1 := data;
      ghost var k := Place(z);
      i := |Before(k)|;
      InsertedAt(cmp, z, v, k, s, InOrder(tree), data0, data1, keys);
    }

    // Takes z, which has one child at most, out of the tree.
    method UnlinkOne(z: Ptr, x: Ptr, ghost k: Path<Ptr>, ghost zt: Tree<Ptr>, ghost t: Tree<Ptr>)
      requires BlackNil(links, nil) && Zip(links, nil, root, k, zt, z) && zt.Node? && Balanced(k, zt)
      requires (zt.left.Leaf? && t == zt.right && z in links && x == Right(z)) ||
               (zt.right.Leaf? && t == zt.left && z in links && x == Left(z))
      requires z in links && Parent(z) == ParentOf(k, nil)
      requires k.Frame? ==>
                k.node in links && k.node !in {nil, z} && Child(links[k.node], k.d) == z &&
                Child(links[k.node], !k.d) != z
      modifies this`root, this`links
      ensures links.Keys == old(links.Keys) && Unlinked(links, nil, root, k, t, x, zt.color)
      ensures All(k, t) == All(k, zt) - {z} &&
              Removed(Line(k, zt), Line(k, t), z, |Before(k) + (if zt.left.Leaf? then [] else InOrder(t))|)
    {
      ghost var m, r := links, root;
      OnlyChild(m, nil, r, k, zt, z, t, x);
      Transplant(z, x, k);
      UnlinkedOne(m, links, nil, r, root, k, zt, z, t, x);
    }

    // Takes z, which has two children, out of the tree: its successor y moves into its place.
    method UnlinkTwo(z: Ptr, ghost k: Path<Ptr>, ghost zt: Tree<Ptr>)
      returns (x: Ptr, c: Color, ghost K: Path<Ptr>, ghost t: Tree<Ptr>, ghost i: nat)
      requires BlackNil(links, nil) && Zip(links, nil, root, k, zt, z) && zt.Node? && zt.root == z && Balanced(k, zt)
      requires zt.left.Node? && zt.right.Node? && z in links && HangsAt(links, nil, k, z)
      modifies this`root, this`links
      ensures links.Keys == old(links.Keys) && Unlinked(links, nil, root, K, t, x, c)
      ensures All(K, t) == All(k, zt) - {z} && Removed(Line(k, zt), Line(K, t), z, i)
    {
      RightSubtree(links, nil, root, k, zt, z);
      var y;
      ghost var j, yt;
      y, j, yt := Minimum(Right(z), zt.right, z);
      SuccessorApart(links, nil, root, k, zt, z, j, yt, y);
      c, x := Color(y), Right(y);
      ghost var l := Left(z);
      MinimumColor(links, nil, root, k, zt, z, j, yt, y);
      DetachMinimum(z, y, x, k, zt, j, yt);
      Crown(z, y, x, k, zt, j, yt, l);
      UnlinkedTwo(links, nil, root, k, zt, z, j, yt, y, x);
      K, t, i := Compose(j, Frame(false, zt.color, y, zt.left, k)), yt.right, |Before(k) + InOrder(zt.left)|;
    }

    // The minimum y of z's right subtree hands over to its right child x and takes the rest of that subtree.
    method DetachMinimum(z: Ptr, y: Ptr, x: Ptr, ghost k: Path<Ptr>, ghost zt: Tree<Ptr>, ghost j: Path<Ptr>,
                         ghost yt: Tree<Ptr>)
      requires SuccessorOf(links, nil, root, k, zt, z, j, yt, y) && z in links && y in links && x == Right(y)
      modifies this`root, this`links
      ensures links.Keys == old(links.Keys) && Detached(links, nil, root, k, zt, z, j, yt, y, x)
      ensures z in links && z in old(links) && Left(z) == old(Left(z)) && root == old(root)
    {
      ghost var m := links;
      SuccessorFacts(m, nil, root, k, zt, z, j, yt, y);
      if Parent(y) == z {
        SetParent(x, y);
        DetachNear(m, links, nil, root, k, zt, z, yt, y, x);
      } else {
        DetachBelow(z, y, x, k, zt, j, yt);
      }
    }

    // The successor is not the child of z.
    method DetachBelow(z: Ptr, y: Ptr, x: Ptr, ghost k: Path<Ptr>, ghost zt: Tree<Ptr>, ghost j: Path<Ptr>,
                       ghost yt: Tree<Ptr>)
      requires SuccessorOf(links, nil, root, k, zt, z, j, yt, y) && z in links && y in links && x == Right(y)
      requires Parent(y) != z
      modifies this`root, this`links
      ensures links.Keys == old(links.Keys) && Detached(links, nil, root, k, zt, z, j, yt, y, x)
      ensures z in links && z in old(links) && Left(z) == old(Left(z)) && root == old(root)
    {
      ghost var m := links;
      SuccessorFacts(m, nil, root, k, zt, z, j, yt, y);
      Transplant(y, x, j);
      ghost var m1 := links;
      SetRight(y, Right(z));
      SetParent(Right(y), y);
      DetachDone(m, m1, links, nil, root, k, zt, z, j, yt, y, x);
    }

    // y takes z's place, z's left subtree and z's colour.
    method Crown(z: Ptr, y: Ptr, x: Ptr, ghost k: Path<Ptr>, ghost zt: Tree<Ptr>, ghost j: Path<Ptr>,
                 ghost yt: Tree<Ptr>, ghost l: Ptr)
      requires Detached(links, nil, root, k, zt, z, j, yt, y, x) && l == links[z].left && l in links && y != z
      requires Apart(nil, k, zt, j, yt, y, x, l) && HangsAt(links, nil, k, z)
      modifies this`root, this`links
      ensures links.Keys == old(links.Keys)
      ensures BlackNil(links, nil) && y in links && links[y].color == zt.color && links[y].p == ParentOf(k, nil)
      ensures x in links && links[x].p == ParentOf(j, y)
      ensures Shape(links, nil, zt.left, links[y].left, y) && Segment(links, nil, k, y, root, nil)
      ensures Segment(links, nil, j, x, links[y].right, y) && Shape(links, nil, yt.right, x, ParentOf(j, y))
    {
      ghost var m, r := links, root;
      assert k.Frame? ==> k.node in PathNodes(k);
      Transplant(z, y, k);
      assert Left(z) == l;
      SetLeft(y, Left(z));
      SetParent(Left(y), y);
      SetColor(y, Color(z));
      CrownSuccessor(m, links, nil, r, root, k, zt, z, j, yt, y, x, l);
    }

    // Takes z out of the tree, and repairs the tree.
    method Unlink(z: Ptr) returns (ghost i: nat)
      requires TreeOK(links, nil, root, tree) && z in Nodes(tree)
      modifies this`root, this`links, this`tree
      ensures TreeOK(links, nil, root, tree) && links.Keys == old(links.Keys) && z != nil
      ensures Nodes(tree) == old(Nodes(tree)) - {z} && Removed(old(InOrder(tree)), InOrder(tree), z, i)
    {
      LocateNode(links, nil, root, tree, z);
      ghost var (k, zt) := Locate(Top, tree, z);
      ghost var k', t := k, zt.left;
      var x, c := Left(z), Color(z);
      if Left(z) == nil {
        x, t := Right(z), zt.right;
        i := |Before(k) + (if zt.left.Leaf? then [] else InOrder(t))|;
        LeafChild(links, nil, root, k, zt, z);
        UnlinkOne(z, x, k, zt, t);
      } else if Right(z) == nil {
        i := |Before(k) + (if zt.left.Leaf? then [] else InOrder(t))|;
        LeafChild(links, nil, root, k, zt, z);
        UnlinkOne(z, x, k, zt, t);
      } else {
        LeafChild(links, nil, root, k, zt, z);
        x, c, k', t, i := UnlinkTwo(z, k, zt);
      }
      if c == Black {
        DeleteFixup(x, k', t);
      } else {
        RedEnd(links, nil, root, k', t, x);
        tree := Plug(k', t);
      }
    }

    /** Erases the node an iterator denotes; `i` is its place in the order. */
    method Erase(z: Ptr) returns (ghost i: nat)
      requires Valid() && z in Handles()
      modifies this
      ensures Valid() && Removed(old(Handles()), Handles(), z, i)
      ensures if |old(erased)| == MAX_ERASED_NODES then erased == old(erased) && data == old(data) - {z}
              else erased == old(erased) + [z] && data == old(data)
      ensures old(Sorted()) ==> Sorted()
    {
      ghost var s, data0, sorted := Handles(), data, Sorted();
      InOrderDistinct(tree);
      InOrderNodes(tree);
      i := Discard(z);
      if sorted {
        OrderedRemoved(cmp, s, InOrder(tree), z, i, data0, data);
      }
    }

    method Discard(z: Ptr) returns (ghost i: nat)
      requires Valid() && z in Nodes(tree)
      modifies this`root, this`links, this`tree, this`data, this`erased, this`used
      ensures Valid() && Removed(old(InOrder(tree)), InOrder(tree), z, i)
      ensures if |old(erased)| == MAX_ERASED_NODES then erased == old(erased) && data == old(data) - {z}
              else erased == old(erased) + [z] && data == old(data)
    {
      ghost var t := tree;
      i := Unlink(z);
      RemovedWell(links, data, nil, root, t, tree, used, erased, z, i);
      if |erased| == MAX_ERASED_NODES {
        links := links - {z};
        data := data - {z};
      } else {
        erased := erased + [z];
      }
      used := used - 1;
    }

    // ---------------------------------------------------------------- walking

    /** The first node in key order, if there is any. */
    method Begin() returns (it: Ptr)
      requires Valid()
      ensures if it == nil then Handles() == [] else |Handles()| > 0 && it == Handles()[0]
    {
      if root == nil {
        return nil;
      }
      ShapeNodes(links, nil, tree, root, nil);
      ghost var j, yt;
      it, j, yt := Minimum(root, tree, nil);
    }

    /** The node after x in key order, or nil. */
    method Next(x: Ptr) returns (y: Ptr)
      requires Valid() && x in Handles()
      ensures y == Following(Handles(), x, nil)
    {
      InOrderNodes(tree);
      InOrderDistinct(tree);
      LocateNode(links, nil, root, tree, x);
      ghost var (k, t) := Locate(Top, tree, x);
      LeafChild(links, nil, root, k, t, x);
      FollowingNode(k, t, nil);
      if Right(x) != nil {
        RightSubtree(links, nil, root, k, t, x);
        ghost var j, yt;
        y, j, yt := Minimum(Right(x), t.right, x);
        return;
      }
      y := Climb(x, k, t);
    }

    // Up from x, until a left turn is undone.
    method Climb(x: Ptr, ghost k: Path<Ptr>, ghost t: Tree<Ptr>) returns (y: Ptr)
      requires BlackNil(links, nil) && Zip(links, nil, root, k, t, x) && t.Node?
      ensures y == if After(k) == [] then nil else After(k)[0]
    {
      ZipHangs(links, nil, root, k, t, x);
      y := Parent(x);
      var x := x;
      ghost var k, t, a := k, t, After(k);
      while y != nil && x == Right(y)
        invariant Zip(links, nil, root, k, t, x) && HangsAt(links, nil, k, x) && y == Parent(x) && x != nil && t.Node?
        invariant After(k) == a
        decreases k
      {
        ZipUp(links, nil, root, k, t, x);
        k, t := k.up, Mk(k.d, k.color, t, k.node, k.sibling);
        x := y;
        ZipHangs(links, nil, root, k, t, x);
        y := Parent(y);
      }
    }

    /** A node with a key that compares equal to v, if there is one. */
    method Search(v: T) returns (r: Ptr)
      requires Valid()
      ensures r != nil ==> r in Handles() && r in data && cmp(v, data[r]) == 0
      ensures r == nil && Comparable(v) && SignOfOrder(cmp, v, InOrder(tree), data) ==>
              forall n :: n in Handles() && n in data ==> cmp(v, data[n]) != 0
    {
      r := root;
      ghost var k, sub := Top, tree;
      InOrderNodes(tree);
      while r != nil
        invariant Zip(links, nil, root, k, sub, r) && Balanced(k, sub)
        invariant Line(k, sub) == InOrder(tree) && All(k, sub) == Nodes(tree) && Steered(cmp, v, k, data)
        decreases sub
      {
        Descend(cmp(v, data[r]) < 0, links, nil, root, k, sub, r);
        var ret := cmp(v, data[r]);
        if ret < 0 {
          k, sub, r := Frame(true, sub.color, r, sub.right, k), sub.left, Left(r);
        } else if ret == 0 {
          return r;
        } else {
          k, sub, r := Frame(false, sub.color, r, sub.left, k), sub.right, Right(r);
        }
      }
      if Comparable(v) && SignOfOrder(cmp, v, InOrder(tree), data) {
        SteeredMisses(cmp, v, k, data, {v} + set n | n in Nodes(tree) && n in data :: data[n]);
      }
    }

    // ---------------------------------------------------------------- clearing

    // Frees the nodes below x.
    method Free(x: Ptr, ghost t: Tree<Ptr>, ghost p: Ptr)
      requires t.Node? && Shape(links, nil, t, x, p) && Distinct(t) && data.Keys == links.Keys
      modifies this`links, this`data
      ensures links == old(links) - Nodes(t) && data.Keys == links.Keys
      decreases t
    {
      ghost var m := links;
      ShapeNodes(m, nil, t, x, p);
      ShapeNodes(m, nil, t.left, Left(x), x);
      ShapeNodes(m, nil, t.right, Right(x), x);
      if Left(x) != nil {
        Free(Left(x), t.left, x);
      }
      ShapeFrame(m, links, nil, t.right, Right(x), x);
      if Right(x) != nil {
        Free(Right(x), t.right, x);
      }
      links := links - {x};
      data := data - {x};
    }

    method Clear()
      requires Valid()
      modifies this
      ensures Valid() && Handles() == [] && erased == [] && links.Keys == {nil}
    {
      ShapeNodes(links, nil, tree, root, nil);
      ghost var m, t := links, tree;
      if root != nil {
        Free(root, tree, nil);
        root, used, tree := nil, 0, Leaf;
      }
      FreeStock();
      erased := [];
      assert links.Keys == {nil} && links[nil] == m[nil];
    }

    method FreeStock()
      requires links.Keys == data.Keys
      modifies this`links, this`data
      ensures links == old(links) - Range(erased) && data.Keys == links.Keys
    {
      var i := 0;
      while i < |erased|
        invariant 0 <= i <= |erased| && links == old(links) - Range(erased[..i]) && data.Keys == links.Keys
      {
        assert erased[..i + 1] == erased[..i] + [erased[i]];
        links := links - {erased[i]};
        data := data - {erased[i]};
        i := i + 1;
      }
      assert erased[..i] == erased;
    }
  }
}
