/**
 Keys along the in-order sequence: the comparison is a parameter, and only has to be a strict weak order on
 the keys that are actually present.
 */
module RedBlackOrder {
  import opened RedBlackShape
  import opened RedBlackFixup
  import opened Sequences

  type Compare<!T> = (T, T) -> int

  ghost predicate StrictWeak<T>(cmp: Compare<T>, keys: set<T>) {
    && (forall a, b :: a in keys && b in keys && cmp(a, b) < 0 ==> !(cmp(b, a) < 0))
    && (forall a, b, c :: a in keys && b in keys && c in keys && cmp(a, c) < 0 ==> cmp(a, b) < 0 || cmp(b, c) < 0)
  }

  // No key is less than one that stands before it.
  ghost predicate Ordered<P, T>(cmp: Compare<T>, s: seq<P>, key: map<P, T>) {
    (forall n :: n in s ==> n in key) && forall i, j :: 0 <= i < j < |s| ==> !(cmp(key[s[j]], key[s[i]]) < 0)
  }

  ghost predicate NoneAbove<P, T>(cmp: Compare<T>, v: T, s: seq<P>, key: map<P, T>) {
    forall n :: n in s && n in key ==> !(cmp(v, key[n]) < 0)
  }

  ghost predicate AllAbove<P, T>(cmp: Compare<T>, v: T, s: seq<P>, key: map<P, T>) {
    forall n :: n in s && n in key ==> cmp(v, key[n]) < 0
  }

  // v belongs into the hole of k.
  ghost predicate Fits<P, T>(cmp: Compare<T>, v: T, k: Path<P>, key: map<P, T>) {
    NoneAbove(cmp, v, Before(k), key) && AllAbove(cmp, v, After(k), key)
  }

  lemma {:induction false} InOrderNodes<P>(t: Tree<P>)
    ensures forall n :: n in InOrder(t) ==> n in Nodes(t)
    ensures forall n :: n in Nodes(t) ==> n in InOrder(t)
    decreases t
  {
    if t.Node? {
      InOrderNodes(t.left);
      InOrderNodes(t.right);
    }
  }

  lemma {:induction false} InOrderDistinct<P>(t: Tree<P>)
    requires Distinct(t)
    ensures NoDup(InOrder(t))
    decreases t
  {
    if t.Node? {
      InOrderDistinct(t.left);
      InOrderDistinct(t.right);
      InOrderNodes(t.left);
      InOrderNodes(t.right);
      forall n | n in InOrder(t.left)
        ensures n !in InOrder(t.right)
      {
        assert n in Nodes(t.left);
      }
      NoDupAround(InOrder(t.left), t.root, InOrder(t.right));
    }
  }

  // One step of the descent keeps the place right.
  lemma {:induction false} FitsDown<P, T>(cmp: Compare<T>, v: T, k: Path<P>, t: Tree<P>, key: map<P, T>, keys: set<T>)
    requires t.Node? && Ordered(cmp, Line(k, t), key) && StrictWeak(cmp, keys) && v in keys
    requires forall n :: n in Line(k, t) ==> key[n] in keys
    requires Fits(cmp, v, k, key)
    ensures cmp(v, key[t.root]) < 0 ==> Fits(cmp, v, Frame(true, t.color, t.root, t.right, k), key)
    ensures !(cmp(v, key[t.root]) < 0) ==> Fits(cmp, v, Frame(false, t.color, t.root, t.left, k), key)
  {
    var a, b := Before(k) + InOrder(t.left), InOrder(t.right) + After(k);
    assert Line(k, t) == a + [t.root] + b;
    assert t.root in Line(k, t) && (forall n :: n in a ==> n in Line(k, t)) && (forall n :: n in b ==> n in Line(k, t));
    OrderedAround(cmp, a, t.root, b, key);
    if cmp(v, key[t.root]) < 0 {
      AboveSubtree(cmp, v, t.root, InOrder(t.right), key, keys);
    } else {
      BelowSubtree(cmp, v, t.root, InOrder(t.left), key, keys);
    }
  }

  lemma {:induction false} AboveSubtree<P, T>(cmp: Compare<T>, v: T, x: P, s: seq<P>, key: map<P, T>, keys: set<T>)
    requires StrictWeak(cmp, keys) && v in keys && x in key && key[x] in keys && cmp(v, key[x]) < 0
    requires forall n :: n in s ==> n in key && key[n] in keys && !(cmp(key[n], key[x]) < 0)
    ensures AllAbove(cmp, v, [x] + s, key)
  {
  }

  lemma {:induction false} BelowSubtree<P, T>(cmp: Compare<T>, v: T, x: P, s: seq<P>, key: map<P, T>, keys: set<T>)
    requires StrictWeak(cmp, keys) && v in keys && x in key && key[x] in keys && !(cmp(v, key[x]) < 0)
    requires forall n :: n in s ==> n in key && key[n] in keys && !(cmp(key[x], key[n]) < 0)
    ensures NoneAbove(cmp, v, s + [x], key)
  {
  }

  lemma {:induction false} OrderedAround<P, T>(cmp: Compare<T>, a: seq<P>, x: P, b: seq<P>, key: map<P, T>)
    requires Ordered(cmp, a + [x] + b, key)
    ensures x in key && (forall n :: n in a ==> n in key) && (forall n :: n in b ==> n in key)
    ensures forall n :: n in a ==> !(cmp(key[x], key[n]) < 0)
    ensures forall n :: n in b ==> !(cmp(key[n], key[x]) < 0)
  {
    var s := a + [x] + b;
    assert s[|a|] == x;
    forall n | n in a
      ensures n in key && !(cmp(key[x], key[n]) < 0)
    {
      var i :| 0 <= i < |a| && a[i] == n;
      assert s[i] == n;
    }
    forall n | n in b
      ensures n in key && !(cmp(key[n], key[x]) < 0)
    {
      var i :| 0 <= i < |b| && b[i] == n;
      assert s[|a| + 1 + i] == n;
    }
  }

  // Putting v between the keys not above it and those above it keeps the order.
  lemma {:induction false} OrderedInsert<P, T>(cmp: Compare<T>, before: seq<P>, z: P, after: seq<P>, key: map<P, T>,
                                               keys: set<T>)
    requires Ordered(cmp, before + after, key) && z in key && StrictWeak(cmp, keys) && key[z] in keys
    requires forall n :: n in before + after ==> key[n] in keys
    requires NoneAbove(cmp, key[z], before, key) && AllAbove(cmp, key[z], after, key)
    ensures Ordered(cmp, before + [z] + after, key)
  {
    var s, s' := before + after, before + [z] + after;
    forall i, j | 0 <= i < j < |s'|
      ensures !(cmp(key[s'[j]], key[s'[i]]) < 0)
    {
      var b := |before|;
      if i == b {
        assert s'[j] == after[j - b - 1] && s'[j] in s && s'[j] in after;
      } else if j == b {
        assert s'[i] == before[i] && s'[i] in s;
      } else {
        assert s'[i] == s[if i < b then i else i - 1] && s'[j] == s[if j < b then j else j - 1];
      }
    }
    forall n | n in s'
      ensures n in key
    {
      assert n == z || n in s;
    }
  }

  // Leaving one out, too.
  lemma {:induction false} OrderedRemove<P, T>(cmp: Compare<T>, s: seq<P>, i: nat, key: map<P, T>)
    requires i < |s| && Ordered(cmp, s, key)
    ensures Ordered(cmp, s[..i] + s[i+1..], key)
  {
    var s' := s[..i] + s[i+1..];
    assert forall j :: 0 <= j < |s'| ==> s'[j] == s[if j < i then j else j + 1];
  }

  ghost function Height<P>(t: Tree<P>): nat {
    match t
    case Leaf => 0
    case Node(_, l, _, r) => 1 + if Height(l) < Height(r) then Height(r) else Height(l)
  }

  ghost function Pow2(n: nat): nat {
    if n == 0 then 1 else 2 * Pow2(n - 1)
  }

  lemma {:induction false} Pow2Sum(a: nat, b: nat)
    ensures Pow2(a + b) == Pow2(a) * Pow2(b)
    decreases b
  {
    if b > 0 {
      Pow2Sum(a, b - 1);
    }
  }

  lemma {:induction false} Pow2Mono(a: nat, b: nat)
    requires a <= b
    ensures Pow2(a) <= Pow2(b)
    decreases b - a
  {
    if a < b {
      Pow2Mono(a + 1, b);
    }
  }

  lemma {:induction false} BlackHeightBounds<P>(t: Tree<P>)
    requires RedBlack(t)
    ensures Pow2(BlackHeight(t)) <= |InOrder(t)| + 1
    ensures Height(t) <= 2 * BlackHeight(t) + if Col(t).Red? then 1 else 0
    decreases t
  {
    if t.Node? {
      BlackHeightBounds(t.left);
      BlackHeightBounds(t.right);
    }
  }

  /** The height of a tree of n nodes is at most 2 * log2(n + 1). */
  lemma {:induction false} HeightBound<P>(t: Tree<P>)
    requires RedBlack(t) && Col(t).Black?
    ensures Pow2(Height(t)) <= (|InOrder(t)| + 1) * (|InOrder(t)| + 1)
  {
    var b, n := BlackHeight(t), |InOrder(t)| + 1;
    BlackHeightBounds(t);
    Pow2Mono(Height(t), b + b);
    Pow2Sum(b, b);
    SquareMono(Pow2(b), n);
  }

  lemma {:induction false} SquareMono(a: nat, b: nat)
    requires a <= b
    ensures a * a <= b * b
  {
  }

  // The comparison is fit for placing v among the keys of s.
  ghost predicate CanPlace<P, T>(cmp: Compare<T>, v: T, s: seq<P>, key: map<P, T>, keys: set<T>) {
    Ordered(cmp, s, key) && StrictWeak(cmp, keys) && v in keys && forall n :: n in s && n in key ==> key[n] in keys
  }

  // Every turn of the path was taken by comparing v with the node there.
  ghost predicate Directed<P, T>(cmp: Compare<T>, v: T, k: Path<P>, key: map<P, T>) {
    match k
    case Top => true
    case Frame(d, _, n, _, up) => n in key && d == (cmp(v, key[n]) < 0) && Directed(cmp, v, up, key)
  }

  lemma {:induction false} DirectedFits<P, T>(cmp: Compare<T>, v: T, k: Path<P>, t: Tree<P>, key: map<P, T>,
                                              keys: set<T>)
    requires Directed(cmp, v, k, key) && CanPlace(cmp, v, Line(k, t), key, keys)
    ensures Fits(cmp, v, k, key)
    decreases k
  {
    if k.Frame? {
      var t' := Mk(k.d, k.color, t, k.node, k.sibling);
      LineUp(k, t);
      DirectedFits(cmp, v, k.up, t', key, keys);
      FitsDown(cmp, v, k.up, t', key, keys);
    }
  }

  // One step of insert's descent.
  lemma {:induction false} Descend<P>(d: bool, m: Links<P>, nil: P, root: P, k: Path<P>, t: Tree<P>, x: P)
    requires Zip(m, nil, root, k, t, x) && Balanced(k, t) && x != nil
    ensures t.Node? && t.root == x && x in m
    ensures var near, far := if d then t.left else t.right, if d then t.right else t.left;
            var k' := Frame(d, t.color, x, far, k);
            && Zip(m, nil, root, k', near, Child(m[x], d)) && Balanced(k', near)
            && Line(k', near) == Line(k, t) && All(k', near) == All(k, t)
  {
    var near, far := if d then t.left else t.right, if d then t.right else t.left;
    ZipDown(m, nil, root, k, t, x, d);
    LineUp(Frame(d, t.color, x, far, k), near);
  }

  lemma {:induction false} ExtendZip<P>(m: Links<P>, z: P, c: Cell<P>, nil: P, root: P, t: Tree<P>)
    requires Zip(m, nil, root, Top, t, root) && z !in m
    ensures Zip(m[z := c], nil, root, Top, t, root) && z !in Nodes(t)
  {
    ShapeNodes(m, nil, t, root, nil);
    ShapeFrame(m, m[z := c], nil, t, root, nil);
  }

  lemma {:induction false} AttachZip<P>(m: Links<P>, m1: Links<P>, m': Links<P>, nil: P, root: P, root': P,
                                        k: Path<P>, z: P)
    requires Zip(m, nil, root, k, Leaf, nil) && PathOK(k, 0) && z in m && z != nil && z !in PathNodes(k)
    requires k.Frame? ==> k.node in m
    requires m1 == Relinked(m[z := m[z].(p := ParentOf(k, nil))], k, z)
    requires var m2 := m1[z := m1[z].(left := nil)];
             var m3 := m2[z := m2[z].(right := nil)];
             m' == m3[z := m3[z].(color := Red)]
    requires root' == if k.Top? then z else root
    ensures InsertInv(m', nil, root', k, Node(Red, Leaf, z, Leaf), z)
  {
    assert k.Frame? ==> k.node in PathNodes(k);
    ZipReplace(m, m', nil, root, root', k, Leaf, nil, Node(Red, Leaf, z, Leaf), z);
  }

  // v stands after everything not above it and before everything above it.
  ghost predicate Between<P, T>(cmp: Compare<T>, v: T, s: seq<P>, i: nat, key: map<P, T>) {
    && i <= |s|
    && (forall j :: 0 <= j < i && s[j] in key ==> !(cmp(v, key[s[j]]) < 0))
    && (forall j :: i <= j < |s| && s[j] in key ==> cmp(v, key[s[j]]) < 0)
  }

  // Putting z into the hole of k keeps the order, and z comes after everything that is not above it.
  lemma {:induction false} PlacedOrder<P, T>(cmp: Compare<T>, z: P, k: Path<P>, key: map<P, T>, keys: set<T>)
    requires z in key && CanPlace(cmp, key[z], Line(k, Leaf), key, keys) && Directed(cmp, key[z], k, key)
    ensures Ordered(cmp, Line(k, Node(Red, Leaf, z, Leaf)), key)
    ensures Between(cmp, key[z], Line(k, Leaf), |Before(k)|, key)
  {
    var a, b, s := Before(k), After(k), Line(k, Leaf);
    DirectedFits(cmp, key[z], k, Leaf, key, keys);
    PlacedLine(k, z);
    OrderedInsert(cmp, a, z, b, key, keys);
    forall j | 0 <= j < |a|
      ensures s[j] in a
    {
      assert s[j] == a[j];
    }
    forall j | |a| <= j < |s|
      ensures s[j] in b
    {
      assert s[j] == b[j - |a|];
    }
  }

  lemma {:induction false} PlacedLine<P>(k: Path<P>, z: P)
    ensures Line(k, Leaf) == Before(k) + After(k) && Line(k, Node(Red, Leaf, z, Leaf)) == Before(k) + [z] + After(k)
    ensures Line(k, Leaf)[..|Before(k)|] == Before(k) && Line(k, Leaf)[|Before(k)|..] == After(k)
  {
    assert InOrder(Node(Red, Leaf, z, Leaf)) == [z];
  }

  lemma {:induction false} InsertedAt<P, T>(cmp: Compare<T>, z: P, v: T, k: Path<P>, s: seq<P>, s': seq<P>,
                                            key: map<P, T>, key': map<P, T>, keys: set<T>)
    requires s == Line(k, Leaf) && s' == Line(k, Node(Red, Leaf, z, Leaf)) && z !in s && key' == key[z := v]
    requires Directed(cmp, v, k, key')
    ensures Inserted(s, s', z, |Before(k)|)
    ensures CanPlace(cmp, v, s, key, keys) ==> Ordered(cmp, s', key') && Between(cmp, v, s, |Before(k)|, key)
  {
    PlacedLine(k, z);
    if CanPlace(cmp, v, s, key, keys) {
      PlacedOrder(cmp, z, k, key', keys);
    }
  }

  // The tree together with the sentinel, the data and the stock of erased nodes.
  ghost predicate TreeOK<P>(m: Links<P>, nil: P, root: P, t: Tree<P>) {
    BlackNil(m, nil) && Zip(m, nil, root, Top, t, root) && RedBlack(t) && Col(t).Black?
  }

  ghost predicate StockOK<P>(nil: P, t: Tree<P>, stock: seq<P>) {
    NoDup(stock) && nil !in stock && forall n :: n in stock ==> n !in Nodes(t)
  }

  ghost predicate WellFormed<P, T>(m: Links<P>, key: map<P, T>, nil: P, root: P, t: Tree<P>, used: nat, stock: seq<P>) {
    && TreeOK(m, nil, root, t) && StockOK(nil, t, stock)
    && key.Keys == m.Keys == {nil} + Nodes(t) + Range(stock) && used == |InOrder(t)|
  }

  // z is allocated, but neither in the tree nor in the stock.
  ghost predicate Loose<P, T>(m: Links<P>, key: map<P, T>, nil: P, root: P, t: Tree<P>, stock: seq<P>, z: P) {
    && TreeOK(m, nil, root, t) && StockOK(nil, t, stock) && z !in stock && z !in Nodes(t) && z != nil
    && key.Keys == m.Keys == {nil} + Nodes(t) + Range(stock) + {z}
  }

  lemma {:induction false} PopLoose<P, T>(m: Links<P>, key: map<P, T>, nil: P, root: P, t: Tree<P>, used: nat,
                                          stock: seq<P>, v: T)
    requires WellFormed(m, key, nil, root, t, used, stock) && |stock| > 0
    ensures var z := stock[|stock| - 1]; z in m && Loose(m, key[z := v], nil, root, t, stock[..|stock| - 1], z)
  {
    RangePop(stock);
  }

  lemma {:induction false} NewLoose<P, T>(m: Links<P>, key: map<P, T>, nil: P, root: P, t: Tree<P>, used: nat, z: P,
                                          c: Cell<P>, v: T)
    requires WellFormed(m, key, nil, root, t, used, []) && z !in m
    ensures Loose(m[z := c], key[z := v], nil, root, t, [], z)
  {
    ExtendZip(m, z, c, nil, root, t);
  }

  lemma {:induction false} InsertedWell<P, T>(m: Links<P>, key: map<P, T>, nil: P, root: P, root': P, t: Tree<P>,
                                              t': Tree<P>, m': Links<P>, used: nat, stock: seq<P>, z: P, k: Path<P>)
    requires Loose(m, key, nil, root, t, stock, z) && used == |InOrder(t)|
    requires TreeOK(m', nil, root', t') && m'.Keys == m.Keys && Nodes(t') == Nodes(t) + {z}
    requires InOrder(t) == Line(k, Leaf) && InOrder(t') == Line(k, Node(Red, Leaf, z, Leaf))
    ensures WellFormed(m', key, nil, root', t', used + 1, stock)
  {
    PlacedLine(k, z);
  }

  // After a node of colour c has been unlinked, the focus (k, t, x) is where a black node may be missing.
  ghost predicate Unlinked<P>(m: Links<P>, nil: P, root: P, k: Path<P>, t: Tree<P>, x: P, c: Color) {
    if c.Black? then DeleteInv(m, nil, root, k, t, x)
    else BlackNil(m, nil) && Zip(m, nil, root, k, t, x) && Balanced(k, t) && k.Frame?
  }

  // z sits in the hole of k, on the side that k says.
  ghost predicate HangsAt<P>(m: Links<P>, nil: P, k: Path<P>, z: P) {
    && z in m && m[z].p == ParentOf(k, nil)
    && (k.Frame? ==> k.node in m && k.node !in {nil, z} && Child(m[k.node], k.d) == z && Child(m[k.node], !k.d) != z)
  }

  lemma {:induction false} LocateNode<P>(m: Links<P>, nil: P, root: P, t: Tree<P>, z: P)
    requires TreeOK(m, nil, root, t) && z in Nodes(t)
    ensures var (k, zt) := Locate(Top, t, z);
            && Zip(m, nil, root, k, zt, z) && zt.Node? && zt.root == z && Balanced(k, zt)
            && Line(k, zt) == InOrder(t) && All(k, zt) == Nodes(t)
            && z in m && z != nil && m[z].left == RootOf(zt.left, nil) && m[z].right == RootOf(zt.right, nil)
            && m[z].color == zt.color && HangsAt(m, nil, k, z)
  {
    LocateZip(m, nil, root, Top, t, root, z);
    LocateOK(Top, t, z);
    var (k, zt) := Locate(Top, t, z);
    PlugInOrder(k, zt);
    PlugDistinct(k, zt);
    ShapeNodes(m, nil, zt, z, ParentOf(k, nil));
    ShapeNodes(m, nil, zt.left, m[z].left, z);
    ShapeNodes(m, nil, zt.right, m[z].right, z);
    SegmentNodes(m, nil, k, z, root, nil);
    if k.Frame? {
      ShapeNodes(m, nil, k.sibling, Child(m[k.node], !k.d), k.node);
      assert k.node in PathNodes(k);
    }
  }

  // The child x that takes z's place.
  lemma {:induction false} OnlyChild<P>(m: Links<P>, nil: P, root: P, k: Path<P>, zt: Tree<P>, z: P, t: Tree<P>, x: P)
    requires BlackNil(m, nil) && Zip(m, nil, root, k, zt, z) && zt.Node?
    requires (t == zt.right && x == m[z].right) || (t == zt.left && x == m[z].left)
    ensures x in m && (k.Frame? ==> x != k.node)
  {
    assert Shape(m, nil, t, x, z);
    ShapeNodes(m, nil, t, x, z);
    SegmentNodes(m, nil, k, z, root, nil);
  }

  lemma {:induction false} UnlinkedOne<P>(m: Links<P>, m': Links<P>, nil: P, root: P, root': P, k: Path<P>,
                                          zt: Tree<P>, z: P, t: Tree<P>, x: P)
    requires BlackNil(m, nil) && Zip(m, nil, root, k, zt, z) && zt.Node? && Balanced(k, zt)
    requires (zt.left.Leaf? && t == zt.right && x == m[z].right) || (zt.right.Leaf? && t == zt.left && x == m[z].left)
    requires x in m && (k.Frame? ==> k.node in m && x != k.node)
    requires m' == var m1 := Relinked(m, k, x); m1[x := m1[x].(p := ParentOf(k, nil))]
    requires root' == if k.Top? then x else root
    ensures Unlinked(m', nil, root', k, t, x, zt.color)
    ensures All(k, t) == All(k, zt) - {z} &&
            Removed(Line(k, zt), Line(k, t), z, |Before(k) + (if zt.left.Leaf? then [] else InOrder(t))|)
  {
    EraseOne(m, m', nil, root, root', k, zt, z, t, x);
    EraseOneBalance(k, zt, t);
    OneLine(k, zt, z, t);
  }

  lemma {:induction false} OneLine<P>(k: Path<P>, zt: Tree<P>, z: P, t: Tree<P>)
    requires zt.Node? && zt.root == z
    requires (zt.left.Leaf? && t == zt.right) || (zt.right.Leaf? && t == zt.left)
    ensures Removed(Line(k, zt), Line(k, t), z, |Before(k) + (if zt.left.Leaf? then [] else InOrder(t))|)
  {
    if zt.left.Leaf? {
      CutFirst(Before(k), z, InOrder(t), After(k));
      assert InOrder(zt) == [z] + InOrder(t);
      assert Before(k) + [] == Before(k);
    } else {
      CutLast(Before(k), InOrder(t), z, After(k));
      assert InOrder(zt) == InOrder(t) + [z];
    }
  }

  lemma {:induction false} CutFirst<P>(b: seq<P>, z: P, i: seq<P>, a: seq<P>)
    ensures Removed(b + ([z] + i) + a, b + i + a, z, |b|)
  {
    Cut(b, z, i + a);
    assert b + [z] + (i + a) == b + ([z] + i) + a && b + (i + a) == b + i + a;
  }

  lemma {:induction false} CutLast<P>(b: seq<P>, i: seq<P>, z: P, a: seq<P>)
    ensures Removed(b + (i + [z]) + a, b + i + a, z, |b + i|)
  {
    Cut(b + i, z, a);
    assert (b + i) + [z] + a == b + (i + [z]) + a;
  }

  lemma {:induction false} RedEnd<P>(m: Links<P>, nil: P, root: P, k: Path<P>, t: Tree<P>, x: P)
    requires Unlinked(m, nil, root, k, t, x, Red)
    ensures TreeOK(m, nil, root, Plug(k, t)) && InOrder(Plug(k, t)) == Line(k, t) && Nodes(Plug(k, t)) == All(k, t)
  {
    ZipWhole(m, nil, root, k, t, x);
    PlugRedBlack(k, t);
    PlugInOrder(k, t);
  }

  // y, the successor of z, has handed over to x and holds z's right subtree, but is not in z's place yet.
  ghost predicate Detached<P>(m: Links<P>, nil: P, root: P, k: Path<P>, zt: Tree<P>, z: P, j: Path<P>, yt: Tree<P>,
                              y: P, x: P) {
    && BlackNil(m, nil) && z in m && y in m && x in m && zt.Node? && yt.Node?
    && Shape(m, nil, yt.right, x, ParentOf(j, y)) && Segment(m, nil, j, x, m[y].right, y) && m[x].p == ParentOf(j, y)
    && Shape(m, nil, zt.left, m[z].left, z) && Segment(m, nil, k, z, root, nil)
    && m[z].color == zt.color && m[z].p == ParentOf(k, nil)
    && (k.Frame? ==> k.node in m)
  }

  // The facts about z, its successor y and the path j between them.
  ghost predicate SuccessorOf<P>(m: Links<P>, nil: P, root: P, k: Path<P>, zt: Tree<P>, z: P, j: Path<P>, yt: Tree<P>,
                                 y: P) {
    && BlackNil(m, nil) && Zip(m, nil, root, k, zt, z) && zt.Node? && zt.root == z && zt.left.Node?
    && zt.right == Plug(j, yt) && AllLeft(j) && yt.Node? && yt.root == y && yt.left.Leaf?
  }

  lemma {:induction false} SuccessorFacts<P>(m: Links<P>, nil: P, root: P, k: Path<P>, zt: Tree<P>, z: P, j: Path<P>,
                                             yt: Tree<P>, y: P)
    requires SuccessorOf(m, nil, root, k, zt, z, j, yt, y)
    ensures z in m && y in m && m[y].right in m && m[z].left in m && m[z].right in m && (k.Frame? ==> k.node in m)
    ensures Shape(m, nil, zt.right, m[z].right, z) && Distinct(zt.right) && z !in Nodes(zt.right)
    ensures Nodes(zt.right) == {y} + Nodes(yt.right) + PathNodes(j) && Nodes(zt.right) !! Nodes(zt.left)
    ensures Distinct(yt) && PathDistinct(j) && Nodes(yt) !! PathNodes(j)
    ensures m[y].p == ParentOf(j, z) && y != nil && y != z && m[y].right != y && m[y].right != z &&
            m[z].left !in {y, z, m[y].right}
    ensures Shape(m, nil, yt.right, m[y].right, y) && Segment(m, nil, j, y, m[z].right, z)
    ensures y !in PathNodes(k) && z !in PathNodes(k) && m[z].left !in PathNodes(k) && m[z].left !in PathNodes(j)
    ensures nil !in Nodes(zt) + PathNodes(k) && m[z].left in Nodes(zt.left) && m[z].left != nil
    ensures m[y].right == RootOf(yt.right, nil)
    ensures m[z].color == zt.color && m[z].p == ParentOf(k, nil) && m[y].color == yt.color
    ensures j.Top? ==> m[z].right == y
    ensures j.Frame? ==> m[z].right in PathNodes(j) && j.node in PathNodes(j) && j.node in m && m[j.node].left == y
  {
    PlugDistinct(j, yt);
    OpenShape(m, nil, j, yt, m[z].right, z);
    ShapeNodes(m, nil, zt, z, ParentOf(k, nil));
    ShapeNodes(m, nil, zt.left, m[z].left, z);
    ShapeNodes(m, nil, zt.right, m[z].right, z);
    SegmentNodes(m, nil, k, z, root, nil);
    SegmentNodes(m, nil, j, y, m[z].right, z);
    assert Shape(m, nil, yt.right, m[y].right, y);
    ShapeNodes(m, nil, yt.right, m[y].right, y);
  }

  lemma {:induction false} DetachNear<P>(m: Links<P>, m': Links<P>, nil: P, root: P, k: Path<P>, zt: Tree<P>, z: P,
                                         yt: Tree<P>, y: P, x: P)
    requires SuccessorOf(m, nil, root, k, zt, z, Top, yt, y) && y in m && x == m[y].right && x in m
    requires m' == m[x := m[x].(p := y)]
    ensures Detached(m', nil, root, k, zt, z, Top, yt, y, x)
  {
    SuccessorFacts(m, nil, root, k, zt, z, Top, yt, y);
    ShapeReparent(m, m', nil, yt.right, x, y, y);
    ShapeFrame(m, m', nil, zt.left, m[z].left, z);
    SegmentFrame(m, m', nil, k, z, root, nil);
  }

  lemma {:induction false} DetachFar<P>(m: Links<P>, m1: Links<P>, nil: P, root: P, k: Path<P>, zt: Tree<P>, z: P,
                                        j: Path<P>, yt: Tree<P>, y: P, x: P)
    requires SuccessorOf(m, nil, root, k, zt, z, j, yt, y) && j.Frame? && y in m && x == m[y].right && x in m &&
             j.node in m
    requires m1 == var m0 := Relinked(m, j, x); m0[x := m0[x].(p := j.node)]
    ensures Shape(m1, nil, yt.right, x, j.node) && Segment(m1, nil, j, x, m[z].right, z) && m1[x].p == j.node
    ensures Shape(m1, nil, zt.left, m[z].left, z) && Segment(m1, nil, k, z, root, nil)
    ensures z in m && z in m1 && m1[z] == m[z] && m1[nil].color == m[nil].color && m1[y] == m[y] &&
            y !in {m[z].right, x, nil, j.node}
  {
    SuccessorFacts(m, nil, root, k, zt, z, j, yt, y);
    DetachSuccessor(m, m1, nil, z, j, yt, y, x);
    ShapeFrame(m, m1, nil, zt.left, m[z].left, z);
    SegmentFrame(m, m1, nil, k, z, root, nil);
  }

  lemma {:induction false} DetachDone<P>(m: Links<P>, m1: Links<P>, m': Links<P>, nil: P, root: P, k: Path<P>,
                                         zt: Tree<P>, z: P, j: Path<P>, yt: Tree<P>, y: P, x: P)
    requires SuccessorOf(m, nil, root, k, zt, z, j, yt, y) && j.Frame? && y in m && x == m[y].right && x in m &&
             j.node in m
    requires m1 == var m0 := Relinked(m, j, x); m0[x := m0[x].(p := j.node)]
    requires z in m && m[z].right in m && m' == var m2 := m1[y := m1[y].(right := m[z].right)];
             m2[m[z].right := m2[m[z].right].(p := y)]
    ensures Detached(m', nil, root, k, zt, z, j, yt, y, x)
  {
    SuccessorFacts(m, nil, root, k, zt, z, j, yt, y);
    DetachFar(m, m1, nil, root, k, zt, z, j, yt, y, x);
    DetachTake(m1, m', nil, root, k, zt, z, j, yt, y, x, m[z].left, m[z].right);
  }

  lemma {:induction false} DetachTake<P>(m1: Links<P>, m': Links<P>, nil: P, root: P, k: Path<P>, zt: Tree<P>, z: P,
                                         j: Path<P>, yt: Tree<P>, y: P, x: P, l: P, top: P)
    requires j.Frame? && PathDistinct(j) && zt.Node? && yt.Node? && top in PathNodes(j) && top !in {nil, x, y, z}
    requires BlackNil(m1, nil) && x in m1 && z in m1 && y in m1 && top in m1 && (k.Frame? ==> k.node in m1) &&
             y !in {nil, x, z}
    requires Shape(m1, nil, yt.right, x, j.node) && Segment(m1, nil, j, x, top, z) && m1[x].p == j.node
    requires Shape(m1, nil, zt.left, l, z) && Segment(m1, nil, k, z, root, nil)
    requires m1[z].left == l && m1[z].color == zt.color && m1[z].p == ParentOf(k, nil)
    requires y !in PathNodes(j) && y !in Nodes(yt.right) && top !in Nodes(yt.right) && y !in Nodes(zt.left) &&
             top !in Nodes(zt.left)
    requires y !in PathNodes(k) && top !in PathNodes(k)
    requires m' == var m2 := m1[y := m1[y].(right := top)]; m2[top := m2[top].(p := y)]
    ensures Detached(m', nil, root, k, zt, z, j, yt, y, x)
  {
    SegmentReparent(m1, m', nil, j, x, top, z, y);
    ShapeFrame(m1, m', nil, yt.right, x, j.node);
    ShapeFrame(m1, m', nil, zt.left, l, z);
    SegmentFrame(m1, m', nil, k, z, root, nil);
  }

  // The parts that y is put together with do not overlap.
  ghost predicate Apart<P>(nil: P, k: Path<P>, zt: Tree<P>, j: Path<P>, yt: Tree<P>, y: P, x: P, l: P) {
    && zt.Node? && yt.Node?
    && PathDistinct(k) && Distinct(zt.left) && l in Nodes(zt.left) && nil !in PathNodes(k) && nil !in Nodes(zt.left)
    && Nodes(zt.left) !! PathNodes(k) && Nodes(zt.left) !! PathNodes(j) && Nodes(zt.left) !! Nodes(yt.right)
    && PathNodes(k) !! PathNodes(j) && PathNodes(k) !! Nodes(yt.right)
    && y != nil && y !in PathNodes(k) + PathNodes(j) + Nodes(yt.right) + Nodes(zt.left) && x != y &&
      x !in PathNodes(k) && x !in Nodes(zt.left)
  }

  lemma {:induction false} SuccessorApart<P>(m: Links<P>, nil: P, root: P, k: Path<P>, zt: Tree<P>, z: P, j: Path<P>,
                                             yt: Tree<P>, y: P)
    requires SuccessorOf(m, nil, root, k, zt, z, j, yt, y)
    ensures z in m && y in m && Apart(nil, k, zt, j, yt, y, m[y].right, m[z].left) && m[z].left in m && y != z
  {
    SuccessorFacts(m, nil, root, k, zt, z, j, yt, y);
    ShapeNodes(m, nil, yt.right, m[y].right, y);
  }

  // y moves into z's place: the second half of erase's case of two children.
  lemma {:induction false} CrownSuccessor<P>(m: Links<P>, m': Links<P>, nil: P, root: P, root': P, k: Path<P>,
                                             zt: Tree<P>, z: P, j: Path<P>, yt: Tree<P>, y: P, x: P, l: P)
    requires Detached(m, nil, root, k, zt, z, j, yt, y, x) && l == m[z].left && l in m
    requires Apart(nil, k, zt, j, yt, y, x, l)
    requires m' == var m1 := Relinked(m, k, y);
                   var m2 := m1[y := m1[y].(p := ParentOf(k, nil))];
                   var m3 := m2[y := m2[y].(left := l)];
                   var m4 := m3[l := m3[l].(p := y)];
                   m4[y := m4[y].(color := zt.color)]
    requires root' == if k.Top? then y else root
    ensures BlackNil(m', nil) && m'[y].color == zt.color && m'[y].p == ParentOf(k, nil) && x in m' &&
            m'[x].p == ParentOf(j, y)
    ensures Shape(m', nil, zt.left, m'[y].left, y) && Segment(m', nil, k, y, root', nil)
    ensures Segment(m', nil, j, x, m'[y].right, y) && Shape(m', nil, yt.right, x, ParentOf(j, y))
  {
    assert k.Frame? ==> k.node in PathNodes(k);
    SegmentRelink(m, m', nil, k, z, y, root, root', nil);
    ShapeReparent(m, m', nil, zt.left, l, z, y);
    ShapeFrame(m, m', nil, yt.right, x, ParentOf(j, y));
    SegmentFrame(m, m', nil, j, x, m[y].right, y);
  }

  // Everything together: the focus after z has been replaced by its successor.
  lemma {:induction false} UnlinkedTwo<P>(m: Links<P>, nil: P, root: P, k: Path<P>, zt: Tree<P>, z: P, j: Path<P>,
                                          yt: Tree<P>, y: P, x: P)
    requires zt.Node? && zt.root == z && yt.Node? && yt.root == y && yt.left.Leaf? && zt.right == Plug(j, yt) &&
             AllLeft(j)
    requires Distinct(zt) && PathDistinct(k) && Nodes(zt) !! PathNodes(k) && Balanced(k, zt)
    requires BlackNil(m, nil) && y != nil && y in m && m[y].color == zt.color && m[y].p == ParentOf(k, nil) &&
             x in m && m[x].p == ParentOf(j, y)
    requires Shape(m, nil, zt.left, m[y].left, y) && Segment(m, nil, k, y, root, nil)
    requires Segment(m, nil, j, x, m[y].right, y) && Shape(m, nil, yt.right, x, ParentOf(j, y))
    ensures var K := Compose(j, Frame(false, zt.color, y, zt.left, k));
            && Unlinked(m, nil, root, K, yt.right, x, yt.color) && All(K, yt.right) == All(k, zt) - {z}
            && Removed(Line(k, zt), Line(K, yt.right), z, |Before(k) + InOrder(zt.left)|)
  {
    EraseTwo(m, nil, root, k, zt, z, j, yt, y, x);
    EraseTwoBalance(k, zt, j, yt);
    EraseTwoLine(k, zt, j, yt);
    var K := Compose(j, Frame(false, zt.color, y, zt.left, k));
    assert K.Frame? && K.node == ParentOf(j, y);
  }

  lemma {:induction false} RightSubtree<P>(m: Links<P>, nil: P, root: P, k: Path<P>, zt: Tree<P>, z: P)
    requires Zip(m, nil, root, k, zt, z) && zt.Node?
    ensures z in m && Shape(m, nil, zt.right, m[z].right, z) && Nodes(zt.right) <= m.Keys
  {
    ShapeNodes(m, nil, zt, z, ParentOf(k, nil));
  }

  lemma {:induction false} MinimumColor<P>(m: Links<P>, nil: P, root: P, k: Path<P>, zt: Tree<P>, z: P, j: Path<P>,
                                           yt: Tree<P>, y: P)
    requires SuccessorOf(m, nil, root, k, zt, z, j, yt, y)
    ensures y in m && m[y].color == yt.color && m[y].right in m
  {
    SuccessorFacts(m, nil, root, k, zt, z, j, yt, y);
  }

  lemma {:induction false} LeafChild<P>(m: Links<P>, nil: P, root: P, k: Path<P>, zt: Tree<P>, z: P)
    requires Zip(m, nil, root, k, zt, z) && zt.Node?
    ensures z in m && (m[z].left == nil <==> zt.left.Leaf?) && (m[z].right == nil <==> zt.right.Leaf?)
  {
    ShapeNodes(m, nil, zt.left, m[z].left, z);
    ShapeNodes(m, nil, zt.right, m[z].right, z);
  }

  // Both ways of disposing of an unlinked node leave everything well formed.
  lemma {:induction false} RemovedWell<P, T>(m: Links<P>, key: map<P, T>, nil: P, root: P, t: Tree<P>, t': Tree<P>,
                                             used: nat, stock: seq<P>, z: P, i: nat)
    requires StockOK(nil, t, stock) && key.Keys == m.Keys == {nil} + Nodes(t) + Range(stock) && used == |InOrder(t)|
    requires TreeOK(m, nil, root, t') && Nodes(t') == Nodes(t) - {z} && z in Nodes(t) && z != nil &&
             Removed(InOrder(t), InOrder(t'), z, i)
    ensures used > 0 && WellFormed(m - {z}, key - {z}, nil, root, t', used - 1, stock)
    ensures WellFormed(m, key, nil, root, t', used - 1, stock + [z])
  {
    assert z !in stock && NoDup(stock + [z]) && Range(stock + [z]) == Range(stock) + {z};
    ShapeFrame(m, m - {z}, nil, t', root, nil);
  }

  lemma {:induction false} OrderedRemoved<P, T>(cmp: Compare<T>, s: seq<P>, s': seq<P>, z: P, i: nat, key: map<P, T>,
                                                key': map<P, T>)
    requires Ordered(cmp, s, key) && Removed(s, s', z, i) && NoDup(s)
    requires forall n :: n in key && n != z ==> n in key' && key'[n] == key[n]
    ensures Ordered(cmp, s', key')
  {
    OrderedRemove(cmp, s, i, key);
    forall n | n in s'
      ensures n != z
    {
      var j :| 0 <= j < |s'| && s'[j] == n;
      assert n == s[if j < i then j else j + 1];
    }
  }

  // ---------------------------------------------------------------- walking and searching

  lemma {:induction false} FollowingNode<P>(k: Path<P>, t: Tree<P>, nil: P)
    requires t.Node? && NoDup(Line(k, t))
    ensures t.root in Line(k, t)
    ensures Following(Line(k, t), t.root, nil) ==
              if t.right.Node? then InOrder(t.right)[0] else if After(k) == [] then nil else After(k)[0]
  {
    var s, i := Line(k, t), |Before(k) + InOrder(t.left)|;
    assert s == (Before(k) + InOrder(t.left)) + [t.root] + (InOrder(t.right) + After(k));
    assert s[i] == t.root;
    assert s[i + 1..] == InOrder(t.right) + After(k);
    assert forall j :: 0 <= j < |s| && s[j] == t.root ==> j == i;
  }

  lemma {:induction false} ZipHangs<P>(m: Links<P>, nil: P, root: P, k: Path<P>, t: Tree<P>, x: P)
    requires Zip(m, nil, root, k, t, x) && t.Node?
    ensures x != nil && HangsAt(m, nil, k, x)
  {
    ShapeNodes(m, nil, t, x, ParentOf(k, nil));
    SegmentNodes(m, nil, k, x, root, nil);
    if k.Frame? {
      ShapeNodes(m, nil, k.sibling, Child(m[k.node], !k.d), k.node);
      assert k.node in PathNodes(k);
    }
  }

  // The turns that search takes: none of the nodes on the way compares equal.
  ghost predicate Steered<P, T>(cmp: Compare<T>, v: T, k: Path<P>, key: map<P, T>) {
    match k
    case Top => true
    case Frame(d, _, n, _, up) =>
      n in key && (if d then cmp(v, key[n]) < 0 else cmp(v, key[n]) > 0) &&
      Steered(cmp, v, up, key)
  }

  // The sign of the comparison is that of the order, seen from both sides.
  ghost predicate SignOfOrder<P, T>(cmp: Compare<T>, v: T, s: seq<P>, key: map<P, T>) {
    forall n :: n in s && n in key ==> (cmp(v, key[n]) > 0 <==> cmp(key[n], v) < 0)
  }

  ghost predicate AllBelow<P, T>(cmp: Compare<T>, v: T, s: seq<P>, key: map<P, T>) {
    forall n :: n in s && n in key ==> cmp(key[n], v) < 0
  }

  lemma {:induction false} SteeredDirected<P, T>(cmp: Compare<T>, v: T, k: Path<P>, key: map<P, T>)
    requires Steered(cmp, v, k, key)
    ensures Directed(cmp, v, k, key)
    decreases k
  {
    if k.Frame? {
      SteeredDirected(cmp, v, k.up, key);
    }
  }

  lemma {:induction false} SteeredBelow<P, T>(cmp: Compare<T>, v: T, k: Path<P>, t: Tree<P>, key: map<P, T>,
                                              keys: set<T>)
    requires Steered(cmp, v, k, key) && CanPlace(cmp, v, Line(k, t), key, keys) && SignOfOrder(cmp, v, Line(k, t), key)
    ensures AllBelow(cmp, v, Before(k), key)
    decreases k
  {
    if k.Frame? {
      var t' := Mk(k.d, k.color, t, k.node, k.sibling);
      LineUp(k, t);
      SteeredBelow(cmp, v, k.up, t', key, keys);
      if !k.d {
        var a, b := Before(k.up) + InOrder(k.sibling), InOrder(t) + After(k);
        assert Line(k, t) == a + [k.node] + b;
        BelowNode(cmp, v, a, k.node, b, key, keys);
      }
    }
  }

  // What stands before a node below v is below v.
  lemma {:induction false} BelowNode<P, T>(cmp: Compare<T>, v: T, a: seq<P>, x: P, b: seq<P>, key: map<P, T>,
                                           keys: set<T>)
    requires CanPlace(cmp, v, a + [x] + b, key, keys) && SignOfOrder(cmp, v, a + [x] + b, key) && x in key &&
             cmp(v, key[x]) > 0
    ensures AllBelow(cmp, v, a + [x], key)
  {
    assert x in a + [x] + b;
    OrderedAround(cmp, a, x, b, key);
    forall n | n in a && n in key
      ensures cmp(key[n], v) < 0
    {
      assert n in a + [x] + b;
    }
  }

  lemma {:induction false} SteeredMisses<P, T>(cmp: Compare<T>, v: T, k: Path<P>, key: map<P, T>, keys: set<T>)
    requires Steered(cmp, v, k, key) && CanPlace(cmp, v, Line(k, Leaf), key, keys) &&
             SignOfOrder(cmp, v, Line(k, Leaf), key)
    ensures forall n :: n in Line(k, Leaf) && n in key ==> cmp(v, key[n]) != 0
  {
    SteeredBelow(cmp, v, k, Leaf, key, keys);
    SteeredDirected(cmp, v, k, key);
    DirectedFits(cmp, v, k, Leaf, key, keys);
    assert Line(k, Leaf) == Before(k) + After(k);
    forall n | n in Line(k, Leaf) && n in key
      ensures cmp(v, key[n]) != 0
    {
      assert n in Before(k) || n in After(k);
    }
  }
}
