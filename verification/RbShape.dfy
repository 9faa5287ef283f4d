/**
 Shapes of the intrusive red-black tree of rbtree.c, as values.

 A `Tree` records which node sits where, with its key and colour; a `Path` is the way from a
 position up to the root (a zipper).  The loops of rbtree.c walk up with parent pointers; here that
 walk is a change of focus, and every property of the whole tree is a property of `Plug(p, t)`.
 */
module RbNodes {
  type Key = k: nat | k < 0x1_0000_0000

  /** rbtree_node_s.  `red` is the colour byte, `data` the client's pointer, fixed before insertion. */
  class RbNode {
    var key: Key
    var left: RbNode?
    var right: RbNode?
    var parent: RbNode?
    var red: bool
    const data: object?

    constructor (key: Key, data: object?)
      ensures this.key == key && this.data == data && !red
    {
      this.key, this.data := key, data;
      left, right, parent, red := null, null, null, false;
    }
  }
}

module RbShape {
  import opened RbNodes

  datatype Tree = Leaf | Node(id: RbNode, key: Key, red: bool, left: Tree, right: Tree)

  /** `Step(true, id, ..)`: the focus is the left child of `id`, whose other child is `sibling`. */
  datatype Path = Top | Step(onLeft: bool, id: RbNode, key: Key, red: bool, sibling: Tree, up: Path)

  datatype Entry = Entry(id: RbNode, key: Key)

  ghost function Join(p: Path, t: Tree): Tree
    requires p != Top
  {
    if p.onLeft then Node(p.id, p.key, p.red, t, p.sibling)
    else Node(p.id, p.key, p.red, p.sibling, t)
  }

  /** The whole tree seen from a focus. */
  ghost function Plug(p: Path, t: Tree): Tree
    decreases p
  {
    if p == Top then t else Plug(p.up, Join(p, t))
  }

  ghost function Append(p: Path, base: Path): Path
  {
    if p == Top then base else p.(up := Append(p.up, base))
  }

  ghost function Inorder(t: Tree): seq<Entry>
  {
    match t
    case Leaf => []
    case Node(id, k, _, l, r) => Inorder(l) + [Entry(id, k)] + Inorder(r)
  }

  ghost function Before(p: Path): seq<Entry>
  {
    if p == Top then []
    else if p.onLeft then Before(p.up)
    else Before(p.up) + Inorder(p.sibling) + [Entry(p.id, p.key)]
  }

  ghost function After(p: Path): seq<Entry>
  {
    if p == Top then []
    else if p.onLeft then [Entry(p.id, p.key)] + Inorder(p.sibling) + After(p.up)
    else After(p.up)
  }

  lemma Regroup(a: seq<Entry>, b: seq<Entry>, e: Entry, c: seq<Entry>, d: seq<Entry>)
    ensures a + (b + [e] + c) + d == a + b + ([e] + c + d)
    ensures a + (b + [e] + c) + d == (a + b + [e]) + c + d
  {}

  lemma {:induction false} InorderPlug(p: Path, t: Tree)
    ensures Inorder(Plug(p, t)) == Before(p) + Inorder(t) + After(p)
    decreases p
  {
    if p != Top {
      InorderPlug(p.up, Join(p, t));
      if p.onLeft {
        Regroup(Before(p.up), Inorder(t), Entry(p.id, p.key), Inorder(p.sibling), After(p.up));
      } else {
        Regroup(Before(p.up), Inorder(p.sibling), Entry(p.id, p.key), Inorder(t), After(p.up));
      }
    }
  }

  lemma {:induction false} PlugAppend(p: Path, base: Path, t: Tree)
    ensures Plug(Append(p, base), t) == Plug(base, Plug(p, t))
    decreases p
  {
    if p != Top {
      PlugAppend(p.up, base, Join(p, t));
      assert Join(Append(p, base), t) == Join(p, t);
    }
  }

  // ---- the sets of nodes, and that no node occurs twice ----

  ghost function Nodes(t: Tree): set<RbNode>
  {
    match t
    case Leaf => {}
    case Node(id, _, _, l, r) => {id} + Nodes(l) + Nodes(r)
  }

  ghost function PathNodes(p: Path): set<RbNode>
  {
    if p == Top then {} else {p.id} + Nodes(p.sibling) + PathNodes(p.up)
  }

  ghost predicate Distinct(t: Tree)
  {
    t.Node? ==>
      && t.id !in Nodes(t.left) && t.id !in Nodes(t.right)
      && Nodes(t.left) !! Nodes(t.right)
      && Distinct(t.left) && Distinct(t.right)
  }

  ghost predicate PathDistinct(p: Path)
  {
    p != Top ==>
      && p.id !in Nodes(p.sibling) && p.id !in PathNodes(p.up)
      && Nodes(p.sibling) !! PathNodes(p.up)
      && Distinct(p.sibling) && PathDistinct(p.up)
  }

  ghost predicate Separate(t: Tree, p: Path)
  {
    Distinct(t) && PathDistinct(p) && Nodes(t) !! PathNodes(p)
  }

  // ---- colours and black heights ----

  predicate IsRed(t: Tree)
  {
    t.Node? && t.red
  }

  predicate HeadRed(p: Path)
  {
    p != Top && p.red
  }

  function Weight(red: bool): nat
  {
    if red then 0 else 1
  }

  /** Every way down from the root of `t` meets exactly `h` black nodes. */
  ghost predicate Balanced(t: Tree, h: nat)
  {
    match t
    case Leaf => h == 0
    case Node(_, _, red, l, r) =>
      Weight(red) <= h && Balanced(l, h - Weight(red)) && Balanced(r, h - Weight(red))
  }

  /** A subtree of black height `h` in the hole of `p` makes the whole tree balanced. */
  ghost predicate PathBalanced(p: Path, h: nat)
  {
    p != Top ==> Balanced(p.sibling, h) && PathBalanced(p.up, h + Weight(p.red))
  }

  /** No red node has a red child. */
  ghost predicate NoRedRed(t: Tree)
  {
    t.Node? ==>
      && NoRedRed(t.left) && NoRedRed(t.right)
      && (t.red ==> !IsRed(t.left) && !IsRed(t.right))
  }

  /** The same along a path; the root, which is the last node of the path, is black. */
  ghost predicate PathNoRedRed(p: Path)
  {
    p != Top ==>
      && NoRedRed(p.sibling) && PathNoRedRed(p.up)
      && (p.red ==> !IsRed(p.sibling) && p.up != Top && !p.up.red)
  }

  ghost predicate Sorted(s: seq<Entry>)
  {
    forall i, j :: 0 <= i < j < |s| ==> s[i].key <= s[j].key
  }

  ghost predicate IsRedBlack(t: Tree)
  {
    && !IsRed(t) && NoRedRed(t) && (exists h: nat :: Balanced(t, h))
  }

  ghost function BlackHeight(p: Path, h: nat): nat
  {
    if p == Top then h else BlackHeight(p.up, h + Weight(p.red))
  }

  lemma {:induction false} PlugBalanced(p: Path, t: Tree, h: nat)
    requires Balanced(t, h) && PathBalanced(p, h)
    ensures Balanced(Plug(p, t), BlackHeight(p, h))
    decreases p
  {
    if p != Top { PlugBalanced(p.up, Join(p, t), h + Weight(p.red)); }
  }

  lemma {:induction false} PlugNoRedRed(p: Path, t: Tree)
    requires NoRedRed(t) && PathNoRedRed(p)
    requires !(IsRed(t) && HeadRed(p))
    requires p == Top ==> !IsRed(t)
    ensures NoRedRed(Plug(p, t)) && !IsRed(Plug(p, t))
    decreases p
  {
    if p != Top {
      PlugNoRedRed(p.up, Join(p, t));
    }
  }

  lemma PlugIsRedBlack(p: Path, t: Tree, h: nat)
    requires Balanced(t, h) && PathBalanced(p, h) && NoRedRed(t) && PathNoRedRed(p)
    requires !(IsRed(t) && HeadRed(p)) && (p == Top ==> !IsRed(t))
    ensures IsRedBlack(Plug(p, t))
  {
    PlugBalanced(p, t, h);
    PlugNoRedRed(p, t);
  }

  // ---- rotations ----

  ghost function LeftRotated(t: Tree): Tree
    requires t.Node? && t.right.Node?
  {
    var r := t.right;
    Node(r.id, r.key, r.red, Node(t.id, t.key, t.red, t.left, r.left), r.right)
  }

  ghost function RightRotated(t: Tree): Tree
    requires t.Node? && t.left.Node?
  {
    var l := t.left;
    Node(l.id, l.key, l.red, l.left, Node(t.id, t.key, t.red, l.right, t.right))
  }

  lemma RotatedNodes(t: Tree)
    ensures t.Node? && t.right.Node? ==> Nodes(LeftRotated(t)) == Nodes(t)
    ensures t.Node? && t.left.Node? ==> Nodes(RightRotated(t)) == Nodes(t)
  {}

  lemma LeftRotatedSeparate(t: Tree, p: Path)
    requires t.Node? && t.right.Node? && Separate(t, p)
    ensures Nodes(LeftRotated(t)) == Nodes(t) && Separate(LeftRotated(t), p)
  {
    var y := t.right;
    var a, b, c := t.left, y.left, y.right;
    assert Distinct(y);
    assert Nodes(y) == {y.id} + Nodes(b) + Nodes(c);
    var x' := Node(t.id, t.key, t.red, a, b);
    assert Nodes(x') == {t.id} + Nodes(a) + Nodes(b);
    assert Distinct(x');
    assert LeftRotated(t) == Node(y.id, y.key, y.red, x', c);
  }

  lemma RightRotatedSeparate(t: Tree, p: Path)
    requires t.Node? && t.left.Node? && Separate(t, p)
    ensures Nodes(RightRotated(t)) == Nodes(t) && Separate(RightRotated(t), p)
  {
    var y := t.left;
    var a, b, c := y.left, y.right, t.right;
    assert Distinct(y);
    assert Nodes(y) == {y.id} + Nodes(a) + Nodes(b);
    var x' := Node(t.id, t.key, t.red, b, c);
    assert Nodes(x') == {t.id} + Nodes(b) + Nodes(c);
    assert Distinct(x');
    assert RightRotated(t) == Node(y.id, y.key, y.red, a, x');
  }

  lemma LeftRotatedInorder(t: Tree)
    requires t.Node? && t.right.Node?
    ensures Inorder(LeftRotated(t)) == Inorder(t)
  {}

  lemma RightRotatedInorder(t: Tree)
    requires t.Node? && t.left.Node?
    ensures Inorder(RightRotated(t)) == Inorder(t)
  {}

  // ---- what the insertion loop keeps ----

  /** The focus is red and its parent may be red too; nothing else is wrong. */
  ghost predicate InsertInv(t: Tree, p: Path, h: nat)
  {
    && t.Node? && t.red && NoRedRed(t) && PathNoRedRed(p) && Balanced(t, h) && PathBalanced(p, h)
  }

  /** Case of a red uncle: parent and uncle turn black, the grandparent red. */
  ghost function Recolored(p: Path): Path
    requires p != Top && p.up != Top && p.up.sibling.Node?
  {
    p.(red := false, up := p.up.(red := true, sibling := p.up.sibling.(red := false)))
  }

  /** Before, after and the nodes of a path do not depend on colours. */
  lemma SameOrder(p: Path, q: Path, t: Tree)
    requires p != Top && q != Top && q.id == p.id && q.key == p.key && q.onLeft == p.onLeft
    requires Inorder(q.sibling) == Inorder(p.sibling)
    requires Before(q.up) == Before(p.up) && After(q.up) == After(p.up)
    ensures Before(q) == Before(p) && After(q) == After(p)
    ensures Inorder(Plug(q, t)) == Inorder(Plug(p, t))
  {
    InorderPlug(q, t);
    InorderPlug(p, t);
  }

  lemma RecolorOrder(t: Tree, p: Path)
    requires p != Top && p.up != Top && p.up.sibling.Node?
    ensures Inorder(Plug(Recolored(p), t)) == Inorder(Plug(p, t))
  {
    var q := Recolored(p);
    SameOrder(p.up, q.up, Leaf);
    SameOrder(p, q, t);
  }

  lemma RecolorKeeps(t: Tree, p: Path, h: nat)
    requires InsertInv(t, p, h) && HeadRed(p) && IsRed(p.up.sibling)
    ensures var q := Recolored(p); InsertInv(Join(q.up, Join(q, t)), p.up.up, h + 1)
  {
    var q := Recolored(p);
    var t1 := Join(q, t);
    assert PathBalanced(p.up, h) && PathNoRedRed(p.up);
    assert Balanced(q.up.sibling, h + 1) && Balanced(t1, h + 1);
    assert NoRedRed(q.up.sibling) && NoRedRed(t1);
  }

  /** The focus after rotating its parent away from an inner position. */
  ghost function Straightened(t: Tree, p: Path): (Tree, Path)
    requires t.Node? && p != Top
  {
    if p.onLeft then
      (Node(p.id, p.key, p.red, t.right, p.sibling), Step(false, t.id, t.key, t.red, t.left, p.up))
    else
      (Node(p.id, p.key, p.red, p.sibling, t.left), Step(true, t.id, t.key, t.red, t.right, p.up))
  }

  lemma StraightenedKeeps(t: Tree, p: Path, h: nat)
    requires InsertInv(t, p, h) && HeadRed(p)
    ensures var (t', p') := Straightened(t, p); InsertInv(t', p', h)
  {
  }

  /** The focus path after recolouring and rotating the grandparent. */
  ghost function Lifted(p: Path): Path
    requires p != Top && p.up != Top
  {
    var g := p.up;
    Step(p.onLeft, p.id, p.key, false,
         if p.onLeft then Node(g.id, g.key, true, p.sibling, g.sibling)
         else Node(g.id, g.key, true, g.sibling, p.sibling),
         g.up)
  }

  lemma LiftedKeeps(t: Tree, p: Path, h: nat)
    requires InsertInv(t, p, h) && HeadRed(p) && !IsRed(p.up.sibling)
    ensures InsertInv(t, Lifted(p), h)
  {
    assert PathBalanced(p.up, h) && PathNoRedRed(p.up);
  }

  lemma PlugSameOrder(p: Path, t: Tree, u: Tree)
    requires Inorder(t) == Inorder(u)
    ensures Inorder(Plug(p, t)) == Inorder(Plug(p, u))
  {}

  /** Parent black, grandparent red. */
  ghost function Swapped(p: Path): Path
    requires p != Top && p.up != Top
  {
    p.(red := false, up := p.up.(red := true))
  }

  lemma LiftedOrder(t: Tree, p: Path)
    requires p != Top && p.up != Top && p.up.onLeft == p.onLeft
    ensures Inorder(Plug(Lifted(p), t)) == Inorder(Plug(p, t))
  {
    var q := Swapped(p);
    SameOrder(p.up, q.up, Leaf);
    SameOrder(p, q, t);
    var g := Join(q.up, Join(q, t));
    if p.onLeft {
      RightRotatedInorder(g);
      PlugSameOrder(p.up.up, g, RightRotated(g));
      assert Join(Lifted(p), t) == RightRotated(g);
    } else {
      LeftRotatedInorder(g);
      PlugSameOrder(p.up.up, g, LeftRotated(g));
      assert Join(Lifted(p), t) == LeftRotated(g);
    }
  }

  lemma StraightenedOrder(t: Tree, p: Path)
    requires t.Node? && p != Top
    ensures var (t', p') := Straightened(t, p); Inorder(Plug(p', t')) == Inorder(Plug(p, t))
  {
    var j := Join(p, t);
    var (t', p') := Straightened(t, p);
    if p.onLeft {
      assert Join(p', t') == RightRotated(j);
      RightRotatedInorder(j);
    } else {
      assert Join(p', t') == LeftRotated(j);
      LeftRotatedInorder(j);
    }
    PlugSameOrder(p.up, j, Join(p', t'));
  }

  // ---- the place of a key in the order ----

  ghost predicate AllAtMost(s: seq<Entry>, k: Key)
  {
    forall e :: e in s ==> e.key <= k
  }

  ghost predicate AllBelow(s: seq<Entry>, k: Key)
  {
    forall e :: e in s ==> e.key < k
  }

  ghost predicate AllAbove(s: seq<Entry>, k: Key)
  {
    forall e :: e in s ==> k < e.key
  }

  /** How many leading entries do not exceed `k`. */
  ghost function Rank(s: seq<Entry>, k: Key): (n: nat)
    ensures n <= |s|
  {
    if s == [] || k < s[0].key then 0 else 1 + Rank(s[1..], k)
  }

  /** `e` goes after every entry with the same or a smaller key. */
  ghost function Inserted(s: seq<Entry>, e: Entry): seq<Entry>
  {
    s[..Rank(s, e.key)] + [e] + s[Rank(s, e.key)..]
  }

  lemma {:induction false} RankSplit(a: seq<Entry>, b: seq<Entry>, k: Key)
    requires AllAtMost(a, k) && AllAbove(b, k)
    ensures Rank(a + b, k) == |a|
  {
    if a != [] {
      assert (a + b)[1..] == a[1..] + b;
      RankSplit(a[1..], b, k);
    } else {
      assert a + b == b;
    }
  }

  lemma InsertedSplit(a: seq<Entry>, b: seq<Entry>, e: Entry)
    requires AllAtMost(a, e.key) && AllAbove(b, e.key)
    ensures Inserted(a + b, e) == a + [e] + b
  {
    RankSplit(a, b, e.key);
  }

  lemma InsertedSorted(a: seq<Entry>, b: seq<Entry>, e: Entry)
    requires AllAtMost(a, e.key) && AllAbove(b, e.key) && Sorted(a + b)
    ensures Sorted(a + [e] + b)
  {
    var s, s' := a + b, a + [e] + b;
    forall i, j | 0 <= i < j < |s'| ensures s'[i].key <= s'[j].key {
      if i < |a| { assert s[i] == a[i]; }
      if j < |a| { assert s[j] == a[j]; }
      if i > |a| { assert s[i - 1] == s'[i] == b[i - 1 - |a|]; }
      if j > |a| { assert s[j - 1] == s'[j] == b[j - 1 - |a|]; }
    }
  }

  /** What stands beside the children of a focus. */
  lemma Beside(t: Tree, p: Path)
    requires t.Node?
    ensures Inorder(t) == Inorder(t.left) + [Entry(t.id, t.key)] + Inorder(t.right)
    ensures var q := Step(true, t.id, t.key, t.red, t.right, p);
      Before(q) == Before(p) && After(q) == [Entry(t.id, t.key)] + Inorder(t.right) + After(p)
    ensures var q := Step(false, t.id, t.key, t.red, t.left, p);
      Before(q) == Before(p) + Inorder(t.left) + [Entry(t.id, t.key)] && After(q) == After(p)
  {}

  /** One comparison of the downward search, for a sorted tree. */
  lemma SearchStep(t: Tree, p: Path, k: Key)
    requires t.Node? && Sorted(Inorder(Plug(p, t)))
    requires AllAtMost(Before(p), k) && AllAbove(After(p), k)
    ensures var q := Step(true, t.id, t.key, t.red, t.right, p);
      k < t.key ==> AllAtMost(Before(q), k) && AllAbove(After(q), k)
    ensures var q := Step(false, t.id, t.key, t.red, t.left, p);
      t.key <= k ==> AllAtMost(Before(q), k) && AllAbove(After(q), k)
  {
    hide Before, After, Inorder, Plug;
    InorderPlug(p, t);
    Beside(t, p);
    var s := Inorder(Plug(p, t));
    var l, e, r := Inorder(t.left), Entry(t.id, t.key), Inorder(t.right);
    var m := |Before(p)| + |l|;
    assert s == Before(p) + (l + [e] + r) + After(p);
    Regroup(Before(p), l, e, r, After(p));
    assert s[m] == e;
    if k < t.key {
      forall x | x in [e] + r + After(p) ensures k < x.key {
        var i :| 0 <= i < |[e] + r + After(p)| && ([e] + r + After(p))[i] == x;
        assert s[m + i] == x;
      }
    } else {
      forall x | x in Before(p) + l + [e] ensures x.key <= k {
        var i :| 0 <= i < |Before(p) + l + [e]| && (Before(p) + l + [e])[i] == x;
        assert s[i] == x;
      }
    }
  }

  ghost function Depth(p: Path): nat
  {
    if p == Top then 0 else 1 + Depth(p.up)
  }

  /** The loop state after the repair of a black uncle. */
  lemma OuterKeeps(t: Tree, p: Path, straighten: bool, h: nat)
    requires InsertInv(t, p, h) && HeadRed(p) && !IsRed(p.up.sibling)
    requires straighten <==> p.onLeft != p.up.onLeft
    ensures var (t', p') := Outer(t, p, straighten);
      && p' != Top && p'.up == p.up && p'.onLeft == p.up.onLeft
      && InsertInv(t', Lifted(p'), h) && !HeadRed(Lifted(p'))
      && Inorder(Plug(Lifted(p'), t')) == Inorder(Plug(p, t))
      && Depth(Lifted(p')) < Depth(p)
  {
    var (t', p') := Outer(t, p, straighten);
    if straighten {
      StraightenedKeeps(t, p, h);
      StraightenedOrder(t, p);
    }
    LiftedKeeps(t', p', h);
    LiftedOrder(t', p');
  }

  /** Focus and path after an optional straightening step. */
  ghost function Outer(t: Tree, p: Path, straighten: bool): (Tree, Path)
    requires t.Node? && p != Top
  {
    if straighten then Straightened(t, p) else (t, p)
  }

  /** The whole tree after a repair loop, with its root painted black. */
  ghost function Blackened(t: Tree): Tree
  {
    if t.Node? then t.(red := false) else t
  }

  lemma BlackenedOrder(t: Tree)
    ensures Inorder(Blackened(t)) == Inorder(t) && Nodes(Blackened(t)) == Nodes(t)
  {}

  lemma {:induction false} PlugIsNode(p: Path, t: Tree)
    requires t.Node?
    ensures Plug(p, t).Node? && Plug(p, t).id in Nodes(Plug(p, t))
    decreases p
  {
    if p != Top { PlugIsNode(p.up, Join(p, t)); }
  }

  lemma InsertDone(t: Tree, p: Path, h: nat)
    requires InsertInv(t, p, h) && !HeadRed(p)
    ensures IsRedBlack(Blackened(Plug(p, t)))
  {
    if p == Top {
      assert Balanced(Blackened(t), h + 1);
    } else {
      PlugIsRedBlack(p, t, h);
    }
  }

  lemma LeafColors(id: RbNode, key: Key, p: Path)
    requires IsRedBlack(Plug(p, Leaf))
    ensures InsertInv(Node(id, key, true, Leaf, Leaf), p, 0)
  {
    var h: nat :| Balanced(Plug(p, Leaf), h);
    Unplug(p, Leaf, h);
  }

  lemma LeafOrder(id: RbNode, key: Key, p: Path)
    requires AllAtMost(Before(p), key) && AllAbove(After(p), key) && Sorted(Inorder(Plug(p, Leaf)))
    ensures var s := Inorder(Plug(p, Node(id, key, true, Leaf, Leaf)));
      Sorted(s) && s == Inserted(Inorder(Plug(p, Leaf)), Entry(id, key))
  {
    var t := Node(id, key, true, Leaf, Leaf);
    var e := Entry(id, key);
    InorderPlug(p, t);
    InorderPlug(p, Leaf);
    assert Inorder(t) == [e];
    assert Inorder(Plug(p, Leaf)) == Before(p) + After(p);
    InsertedSplit(Before(p), After(p), e);
    InsertedSorted(Before(p), After(p), e);
  }

  /** Taking a red-black tree apart at any position. */
  lemma {:induction false} Unplug(p: Path, t: Tree, h: nat)
    requires Balanced(Plug(p, t), h) && NoRedRed(Plug(p, t)) && !IsRed(Plug(p, t))
    ensures NoRedRed(t) && PathNoRedRed(p) && !(IsRed(t) && HeadRed(p)) && (p == Top ==> !IsRed(t))
    ensures exists k: nat :: Balanced(t, k) && PathBalanced(p, k)
    decreases p
  {
    if p != Top {
      var j := Join(p, t);
      Unplug(p.up, j, h);
      var k: nat :| Balanced(j, k) && PathBalanced(p.up, k);
      assert Balanced(t, k - Weight(p.red)) && PathBalanced(p, k - Weight(p.red));
    } else {
      assert Balanced(t, h) && PathBalanced(p, h);
    }
  }

  // ---- what the deletion loop keeps ----

  /** The focus is one black node short; its own root is the only possible red-red fault. */
  ghost predicate DeleteInv(t: Tree, p: Path, h: nat)
  {
    && NoRedRed(Blackened(t)) && PathNoRedRed(p) && Balanced(t, h) && PathBalanced(p, h + 1)
  }

  lemma DeleteDone(t: Tree, p: Path, h: nat)
    requires DeleteInv(t, p, h) && (p == Top || IsRed(t))
    ensures IsRedBlack(Plug(p, Blackened(t)))
  {
    var b := Blackened(t);
    if IsRed(t) {
      assert Balanced(b, h + 1);
      PlugIsRedBlack(p, b, h + 1);
    } else {
      assert Balanced(b, h);
    }
  }

  /** The child of the sibling next to the focus, and the one away from it. */
  ghost function Near(p: Path): Tree
    requires p != Top && p.sibling.Node?
  {
    if p.onLeft then p.sibling.left else p.sibling.right
  }

  ghost function Far(p: Path): Tree
    requires p != Top && p.sibling.Node?
  {
    if p.onLeft then p.sibling.right else p.sibling.left
  }

  /** Red sibling: it becomes black and goes up, the parent becomes red and comes down. */
  ghost function RedSibling(p: Path): Path
    requires p != Top && p.sibling.Node?
  {
    var w := p.sibling;
    Step(p.onLeft, p.id, p.key, true, Near(p), Step(p.onLeft, w.id, w.key, false, Far(p), p.up))
  }

  lemma RedSiblingKeeps(t: Tree, p: Path, h: nat)
    requires DeleteInv(t, p, h) && p != Top && IsRed(p.sibling)
    ensures var q := RedSibling(p);
      DeleteInv(t, q, h) && !IsRed(q.sibling) && q.sibling.Node? && Depth(q) == Depth(p) + 1
  {}

  /** Black nephews: the sibling becomes red and the shortage moves up. */
  ghost function BlackNephews(t: Tree, p: Path): Tree
    requires p != Top && p.sibling.Node?
  {
    Join(p.(sibling := p.sibling.(red := true)), t)
  }

  lemma BlackNephewsKeeps(t: Tree, p: Path, h: nat)
    requires DeleteInv(t, p, h) && !IsRed(t) && p != Top && p.sibling.Node? && !p.sibling.red
    requires !IsRed(Near(p)) && !IsRed(Far(p))
    ensures DeleteInv(BlackNephews(t, p), p.up, h + Weight(p.red))
    ensures Inorder(Plug(p.up, BlackNephews(t, p))) == Inorder(Plug(p, t))
  {
    var q := p.(sibling := p.sibling.(red := true));
    assert Balanced(q.sibling, h) && NoRedRed(q.sibling) && NoRedRed(t);
    SameOrder(p, q, t);
  }

  lemma NephewFacts(p: Path, h: nat)
    requires p != Top && PathNoRedRed(p) && PathBalanced(p, h + 1) && p.sibling.Node? && !p.sibling.red
    ensures Balanced(Near(p), h) && NoRedRed(Near(p)) && Balanced(Far(p), h) && NoRedRed(Far(p))
  {
  }

  /** Only the near nephew is red: it becomes black and the new sibling. */
  ghost function NearRed(p: Path): Path
    requires p != Top && p.sibling.Node? && Near(p).Node?
  {
    var w := p.sibling;
    p.(sibling := if p.onLeft then RightRotated(w.(red := true, left := w.left.(red := false)))
                  else LeftRotated(w.(red := true, right := w.right.(red := false))))
  }

  lemma PaintedOrder(t: Tree, red: bool)
    requires t.Node?
    ensures Inorder(t.(red := red)) == Inorder(t)
  {}

  lemma ChildrenOrder(t: Tree, s: Tree)
    requires t.Node? && s.Node? && t.id == s.id && t.key == s.key
    requires Inorder(t.left) == Inorder(s.left) && Inorder(t.right) == Inorder(s.right)
    ensures Inorder(t) == Inorder(s)
  {}

  /** The rotated sibling, with its red child on the left. */
  lemma NearRedLeft(w: Tree, h: nat)
    requires w.Node? && !w.red && IsRed(w.left) && !IsRed(w.right) && Balanced(w, h + 1) && NoRedRed(w)
    ensures var s := RightRotated(w.(red := true, left := w.left.(red := false)));
      Balanced(s, h + 1) && NoRedRed(s) && s.Node? && !s.red && IsRed(s.right) && Inorder(s) == Inorder(w)
  {
    hide Inorder;
    var y := w.left;
    PaintedOrder(y, false);
    PaintedOrder(w.(left := y.(red := false)), true);
    ChildrenOrder(w, w.(left := y.(red := false)));
    RightRotatedInorder(w.(red := true, left := y.(red := false)));
    assert Balanced(y.left, h) && Balanced(y.right, h) && Balanced(w.right, h);
  }

  lemma NearRedRight(w: Tree, h: nat)
    requires w.Node? && !w.red && IsRed(w.right) && !IsRed(w.left) && Balanced(w, h + 1) && NoRedRed(w)
    ensures var s := LeftRotated(w.(red := true, right := w.right.(red := false)));
      Balanced(s, h + 1) && NoRedRed(s) && s.Node? && !s.red && IsRed(s.left) && Inorder(s) == Inorder(w)
  {
    hide Inorder;
    var y := w.right;
    PaintedOrder(y, false);
    PaintedOrder(w.(right := y.(red := false)), true);
    ChildrenOrder(w, w.(right := y.(red := false)));
    LeftRotatedInorder(w.(red := true, right := y.(red := false)));
    assert Balanced(y.left, h) && Balanced(y.right, h) && Balanced(w.left, h);
  }

  lemma NearRedKeeps(t: Tree, p: Path, h: nat)
    requires DeleteInv(t, p, h) && p != Top && p.sibling.Node? && !p.sibling.red
    requires IsRed(Near(p)) && !IsRed(Far(p))
    ensures var q := NearRed(p);
      && DeleteInv(t, q, h) && q.sibling.Node? && !q.sibling.red && IsRed(Far(q))
      && Inorder(Plug(q, t)) == Inorder(Plug(p, t))
  {
    hide Inorder, Balanced, NoRedRed, LeftRotated, RightRotated, Plug, Before, After, Blackened;
    var q := NearRed(p);
    if p.onLeft { NearRedLeft(p.sibling, h); } else { NearRedRight(p.sibling, h); }
    SameOrder(p, q, t);
  }

  /** The far nephew is red: parent and sibling change places and the shortage is gone. */
  ghost function FarRedColors(p: Path): Path
    requires p != Top && p.sibling.Node? && Far(p).Node?
  {
    var w := p.sibling;
    p.(red := false, sibling := if p.onLeft then w.(red := p.red, right := w.right.(red := false))
                                else w.(red := p.red, left := w.left.(red := false)))
  }

  ghost function FarRed(t: Tree, p: Path): Tree
    requires p != Top && p.sibling.Node? && Far(p).Node?
  {
    var j := Join(FarRedColors(p), t);
    if p.onLeft then LeftRotated(j) else RightRotated(j)
  }

  lemma FarRedKeeps(t: Tree, p: Path, h: nat)
    requires DeleteInv(t, p, h) && !IsRed(t) && p != Top && p.sibling.Node? && !p.sibling.red
    requires IsRed(Far(p))
    ensures IsRedBlack(Plug(p.up, FarRed(t, p)))
  {
    var w, r := p.sibling, FarRed(t, p);
    var far := Far(p).(red := false);
    NephewFacts(p, h);
    assert Balanced(far, h + 1) && NoRedRed(far);
    var inner := if p.onLeft then r.left else r.right;
    assert inner.id == p.id && !inner.red;
    assert Balanced(inner, h + 1) && NoRedRed(inner);
    assert (if p.onLeft then r.right else r.left) == far;
    assert Balanced(r, h + 1 + Weight(p.red)) && NoRedRed(r);
    PlugIsRedBlack(p.up, r, h + 1 + Weight(p.red));
  }

  lemma FarRedOrder(t: Tree, p: Path)
    requires p != Top && p.sibling.Node? && Far(p).Node?
    ensures Inorder(Plug(p.up, FarRed(t, p))) == Inorder(Plug(p, t))
  {
    var q := FarRedColors(p);
    var far := Far(p).(red := false);
    assert Inorder(far) == Inorder(Far(p));
    assert Inorder(q.sibling) == Inorder(p.sibling);
    SameOrder(p, q, t);
    var j := Join(q, t);
    if p.onLeft { LeftRotatedInorder(j); } else { RightRotatedInorder(j); }
    PlugSameOrder(p.up, j, FarRed(t, p));
  }

  lemma RedSiblingOrder(t: Tree, p: Path)
    requires p != Top && p.sibling.Node?
    ensures Inorder(Plug(RedSibling(p), t)) == Inorder(Plug(p, t))
  {
    var q := p.(red := true, sibling := p.sibling.(red := false));
    SameOrder(p, q, t);
    var j := Join(q, t);
    if p.onLeft { LeftRotatedInorder(j); } else { RightRotatedInorder(j); }
    PlugSameOrder(p.up, j, if p.onLeft then LeftRotated(j) else RightRotated(j));
  }

  lemma RecolorNodes(t: Tree, c: bool)
    requires t.Node?
    ensures Nodes(t.(red := c)) == Nodes(t)
  {}

  lemma FarRedNodes(t: Tree, p: Path)
    requires p != Top && p.sibling.Node? && Far(p).Node?
    ensures Nodes(Join(FarRedColors(p), t)) + PathNodes(p.up) == Nodes(t) + PathNodes(p)
  {
    var q := FarRedColors(p);
    assert Nodes(Far(p).(red := false)) == Nodes(Far(p));
    assert Nodes(q.sibling) == Nodes(p.sibling);
  }

  lemma NearRedNodes(p: Path)
    requires p != Top && p.sibling.Node? && Near(p).Node?
    ensures PathNodes(NearRed(p)) == PathNodes(p)
  {
    assert Nodes(Near(p).(red := false)) == Nodes(Near(p));
    var v := p.sibling;
    var v' := if p.onLeft then v.(red := true, left := v.left.(red := false))
      else v.(red := true, right := v.right.(red := false));
    assert Nodes(v') == Nodes(v);
    RotatedNodes(v');
  }

  /** What one round of the deletion loop leaves to do. */
  ghost function Work(t: Tree, p: Path): nat
  {
    if IsRed(t) then 0 else 1 + Depth(p)
  }

  /** The deletion loop with a black sibling. */
  ghost predicate BlackSibling(t: Tree, p: Path, h: nat)
  {
    && p != Top && DeleteInv(t, p, h) && !IsRed(t) && p.sibling.Node? && !p.sibling.red
  }

  lemma SiblingIsNode(p: Path, h: nat)
    requires p != Top && PathBalanced(p, h + 1)
    ensures p.sibling.Node?
  {}

  lemma PlacesOf(t: Tree, p: Path)
    requires p != Top && p.sibling.Node?
    ensures p.id in PathNodes(p) && p.sibling.id in PathNodes(p)
  {}

  lemma BlackNephewsNodes(t: Tree, p: Path)
    requires p != Top && p.sibling.Node?
    ensures Nodes(BlackNephews(t, p)) + PathNodes(p.up) == Nodes(t) + PathNodes(p)
  {}

  /** What pushing the shortage up leaves. */
  lemma PushedUp(t: Tree, p: Path, h: nat)
    requires BlackSibling(t, p, h) && !IsRed(Near(p)) && !IsRed(Far(p))
    ensures var b := BlackNephews(t, p);
      && DeleteInv(b, p.up, h + Weight(p.red)) && b.Node? && b.red == p.red
      && Inorder(Plug(p.up, b)) == Inorder(Plug(p, t)) && Nodes(b) + PathNodes(p.up) == Nodes(t) + PathNodes(p)
      && b == Join(p.(sibling := p.sibling.(red := true)), t)
    ensures p.id in PathNodes(p) && p.sibling.id in PathNodes(p)
  {
    hide Inorder, Plug, Balanced, NoRedRed, PathBalanced, PathNoRedRed;
    BlackNephewsKeeps(t, p, h);
    BlackNephewsNodes(t, p);
    PlacesOf(t, p);
  }

  /** What a red uncle leaves. */
  lemma RecoloredUp(t: Tree, p: Path, h: nat)
    requires InsertInv(t, p, h) && HeadRed(p) && IsRed(p.up.sibling)
    ensures var q := Recolored(p); var b := Join(q.up, Join(q, t));
      && InsertInv(b, p.up.up, h + 1) && Inorder(Plug(p.up.up, b)) == Inorder(Plug(p, t))
      && q != Top && q.up != Top && q.up.up == p.up.up && q.id == p.id && q.up.id == p.up.id
      && Depth(p.up.up) < Depth(p) && PathNodes(q) == PathNodes(p)
  {
    hide Inorder, Balanced, NoRedRed, PathBalanced;
    RecolorKeeps(t, p, h);
    RecolorOrder(t, p);
    RecoloredNodes(p);
  }

  lemma RecoloredNodes(p: Path)
    requires p != Top && p.up != Top && p.up.sibling.Node?
    ensures PathNodes(Recolored(p)) == PathNodes(p)
  {}

  lemma RedBlackHeight(t: Tree) returns (h: nat)
    requires IsRedBlack(t)
    ensures Balanced(t, h) && NoRedRed(Blackened(t))
  {
    h :| Balanced(t, h);
  }

  lemma TopNodes(t: Tree)
    ensures PathNodes(Top) == {} && Plug(Top, t) == t
  {}

  lemma DeleteDoneOrder(t: Tree, p: Path)
    ensures Inorder(Plug(p, Blackened(t))) == Inorder(Plug(p, t)) && Nodes(Blackened(t)) == Nodes(t)
  {
    BlackenedOrder(t);
    PlugSameOrder(p, Blackened(t), t);
  }

  // ---- taking one node out ----

  /** The order without the node `n`. */
  ghost function Without(s: seq<Entry>, n: RbNode): seq<Entry>
  {
    if s == [] then [] else (if s[0].id == n then [] else [s[0]]) + Without(s[1..], n)
  }

  ghost predicate Absent(n: RbNode, s: seq<Entry>)
  {
    forall e :: e in s ==> e.id != n
  }

  lemma {:induction false} WithoutNothing(s: seq<Entry>, n: RbNode)
    requires Absent(n, s)
    ensures Without(s, n) == s
  {
    if s != [] { WithoutNothing(s[1..], n); }
  }

  lemma {:induction false} WithoutSplit(a: seq<Entry>, e: Entry, b: seq<Entry>)
    requires Absent(e.id, a) && Absent(e.id, b)
    ensures Without(a + [e] + b, e.id) == a + b
  {
    if a == [] {
      assert a + [e] + b == [e] + b && ([e] + b)[1..] == b && a + b == b;
      WithoutNothing(b, e.id);
    } else {
      assert (a + [e] + b)[1..] == a[1..] + [e] + b;
      WithoutSplit(a[1..], e, b);
      assert [a[0]] + (a[1..] + b) == a + b;
    }
  }

  lemma WithoutSorted(a: seq<Entry>, e: Entry, b: seq<Entry>)
    requires Sorted(a + [e] + b)
    ensures Sorted(a + b)
  {
    var s, s' := a + [e] + b, a + b;
    forall i, j | 0 <= i < j < |s'| ensures s'[i].key <= s'[j].key {
      var i' := if i < |a| then i else i + 1;
      var j' := if j < |a| then j else j + 1;
      assert s[i'] == s'[i] && s[j'] == s'[j];
    }
  }

  lemma {:induction false} EntriesAreNodes(t: Tree, e: Entry)
    requires e in Inorder(t)
    ensures e.id in Nodes(t)
  {
    if e in Inorder(t.left) { EntriesAreNodes(t.left, e); }
    else if e in Inorder(t.right) { EntriesAreNodes(t.right, e); }
  }

  lemma {:induction false} PathEntriesAreNodes(p: Path, e: Entry)
    requires e in Before(p) || e in After(p)
    ensures e.id in PathNodes(p)
    decreases p
  {
    if e in Inorder(p.sibling) { EntriesAreNodes(p.sibling, e); }
    else if e != Entry(p.id, p.key) { PathEntriesAreNodes(p.up, e); }
  }

  lemma NodeAbsent(t: Tree, n: RbNode)
    requires n !in Nodes(t)
    ensures Absent(n, Inorder(t))
  {}

  lemma PathNodeAbsent(p: Path, n: RbNode)
    requires n !in PathNodes(p)
    ensures Absent(n, Before(p)) && Absent(n, After(p))
  {
    forall e | e in Before(p) ensures e.id != n { PathEntriesAreNodes(p, e); }
    forall e | e in After(p) ensures e.id != n { PathEntriesAreNodes(p, e); }
  }

  /** Removing the focused node leaves what is before it and what is after it. */
  lemma RemovedOrder(t: Tree, p: Path)
    requires t.Node? && Separate(t, p) && Sorted(Inorder(Plug(p, t)))
    ensures var s := (Before(p) + Inorder(t.left)) + (Inorder(t.right) + After(p));
      s == Without(Inorder(Plug(p, t)), t.id) && Sorted(s)
  {
    InorderPlug(p, t);
    NodeAbsent(t.left, t.id);
    NodeAbsent(t.right, t.id);
    PathNodeAbsent(p, t.id);
    RemovedSplit(Before(p), Inorder(t.left), Entry(t.id, t.key), Inorder(t.right), After(p));
  }

  lemma RemovedSplit(b: seq<Entry>, l: seq<Entry>, e: Entry, r: seq<Entry>, a: seq<Entry>)
    requires Absent(e.id, b) && Absent(e.id, l) && Absent(e.id, r) && Absent(e.id, a)
    requires Sorted(b + (l + [e] + r) + a)
    ensures var s := (b + l) + (r + a); s == Without(b + (l + [e] + r) + a, e.id) && Sorted(s)
  {
    assert b + (l + [e] + r) + a == (b + l) + [e] + (r + a);
    WithoutSplit(b + l, e, r + a);
    WithoutSorted(b + l, e, r + a);
  }

  ghost predicate OnlyChild(s: Tree, c: Tree)
  {
    s.Node? && ((s.left == Leaf && c == s.right) || (s.right == Leaf && c == s.left))
  }

  /** A tree from which a node of colour `red` was spliced out at the focus. */
  ghost predicate Spliced(red: bool, c: Tree, p: Path, h: nat)
  {
    if red then PathNoRedRed(p) && NoRedRed(c) && Balanced(c, h) && PathBalanced(p, h) && !IsRed(c)
    else DeleteInv(c, p, h)
  }

  /** The state right after splicing out a node `t` that has at most the child `c`. */
  lemma SplicedInv(t: Tree, p: Path, c: Tree) returns (h: nat)
    requires IsRedBlack(Plug(p, t)) && OnlyChild(t, c)
    ensures Spliced(t.red, c, p, h)
  {
    var k: nat :| Balanced(Plug(p, t), k);
    Unplug(p, t, k);
    h :| Balanced(t, h) && PathBalanced(p, h);
    h := h - Weight(t.red);
    assert Balanced(c, h) && NoRedRed(c);
    assert NoRedRed(Blackened(c));
  }

  // ---- the successor takes the place of the deleted node ----

  ghost predicate AllLeft(p: Path)
  {
    p != Top ==> p.onLeft && AllLeft(p.up)
  }

  /** Colours and heights of a path do not depend on which node sits at the base. */
  lemma {:induction false} SwapBase(q: Path, b: Path, b': Path, h: nat)
    requires b != Top && b' != Top && b'.(id := b.id, key := b.key) == b
    ensures PathBalanced(Append(q, b'), h) == PathBalanced(Append(q, b), h)
    ensures PathNoRedRed(Append(q, b')) == PathNoRedRed(Append(q, b))
    decreases q
  {
    if q != Top {
      SwapBase(q.up, b, b', h + Weight(q.red));
      if q.up != Top { assert Append(q.up, b').red == Append(q.up, b).red; }
    }
  }

  lemma EmptySides(b: seq<Entry>, c: seq<Entry>, a: seq<Entry>)
    ensures (b + []) + (c + a) == b + c + a
    ensures (b + c) + ([] + a) == b + c + a
  {}

  /** The order after splicing out the focused node. */
  lemma SplicedOrder(t: Tree, p: Path, c: Tree)
    requires OnlyChild(t, c) && Separate(t, p) && Sorted(Inorder(Plug(p, t)))
    ensures Inorder(Plug(p, c)) == Without(Inorder(Plug(p, t)), t.id) && Sorted(Inorder(Plug(p, c)))
  {
    RemovedOrder(t, p);
    InorderPlug(p, c);
    EmptySides(Before(p), Inorder(c), After(p));
    assert Inorder(Leaf) == [];
    hide Inorder, Before, After, Sorted, Without, Plug, Separate;
  }

  /** The order after the successor `s`, found below the right child, took the place of `t`. */
  lemma SuccessorOrder(t: Tree, p: Path, q: Path, s: Tree)
    requires t.Node? && Separate(t, p) && Sorted(Inorder(Plug(p, t)))
    requires Plug(q, s) == t.right && AllLeft(q) && s.Node? && s.left == Leaf
    ensures var o := Inorder(Plug(Append(q, Step(false, s.id, s.key, t.red, t.left, p)), s.right));
      o == Without(Inorder(Plug(p, t)), t.id) && Sorted(o)
  {
    var b' := Step(false, s.id, s.key, t.red, t.left, p);
    RemovedOrder(t, p);
    InorderPlug(Append(q, b'), s.right);
    SuccessorBefore(b', q, t, p, s);
    InorderPlug(q, s);
    hide Inorder, Before, After, Sorted, Without, Plug, Separate, Append, AllLeft;
    SuccessorSeq(Before(p), Inorder(t.left), Entry(s.id, s.key), Inorder(s.right), After(q), After(p));
  }

  lemma SuccessorBefore(b: Path, q: Path, t: Tree, p: Path, s: Tree)
    requires t.Node? && s.Node? && AllLeft(q) && s.left == Leaf && b == Step(false, s.id, s.key, t.red, t.left, p)
    ensures Before(q) == [] && Inorder(s) == [Entry(s.id, s.key)] + Inorder(s.right)
    ensures Before(Append(q, b)) == Before(p) + Inorder(t.left) + [Entry(s.id, s.key)]
    ensures After(Append(q, b)) == After(q) + After(p)
  {
    LeftSides(q, b);
    assert After(b) == After(p);
  }

  lemma {:induction false} LeftSides(q: Path, b: Path)
    requires AllLeft(q)
    ensures Before(q) == [] && Before(Append(q, b)) == Before(b) && After(Append(q, b)) == After(q) + After(b)
  {
    if q == Top {
      assert [] + After(b) == After(b);
    } else {
      LeftSides(q.up, b);
      assert ([Entry(q.id, q.key)] + Inorder(q.sibling)) + (After(q.up) + After(b))
          == ([Entry(q.id, q.key)] + Inorder(q.sibling) + After(q.up)) + After(b);
    }
  }

  lemma SuccessorSeq(b: seq<Entry>, l: seq<Entry>, e: Entry, r: seq<Entry>, m: seq<Entry>, a: seq<Entry>)
    ensures (b + l + [e]) + r + (m + a) == (b + l) + (([] + ([e] + r) + m) + a)
  {}

  lemma {:induction false} BaseOnPath(q: Path, b: Path)
    requires b != Top && PathDistinct(Append(q, b))
    ensures PathNodes(b) <= PathNodes(Append(q, b)) && PathDistinct(b)
    ensures q != Top ==> q.id != b.id
    decreases q
  {
    if q != Top { BaseOnPath(q.up, b); }
  }

  // ---- searching ----

  /** The number of nodes that a search for `k` visits. */
  ghost function Visits(t: Tree, k: Key): nat
  {
    if t.Leaf? || k == t.key then 0 else 1 + Visits(if k < t.key then t.left else t.right, k)
  }

  ghost function Size(t: Tree): nat
  {
    if t.Leaf? then 0 else 1 + Size(t.left) + Size(t.right)
  }

  function Pow2(n: nat): (r: nat)
    ensures r > 0
  {
    if n == 0 then 1 else 2 * Pow2(n - 1)
  }

  /** A way down is at most twice as long as its black nodes are many. */
  lemma {:induction false} VisitsBound(t: Tree, k: Key, h: nat)
    requires Balanced(t, h) && NoRedRed(t)
    ensures Visits(t, k) <= 2 * h + if IsRed(t) then 1 else 0
  {
    if t.Node? && k != t.key {
      VisitsBound(if k < t.key then t.left else t.right, k, h - Weight(t.red));
    }
  }

  /** A tree of black height `h` is no smaller than a complete one. */
  lemma {:induction false} SizeBound(t: Tree, h: nat)
    requires Balanced(t, h)
    ensures Size(t) + 1 >= Pow2(h)
  {
    if t.Node? {
      SizeBound(t.left, h - Weight(t.red));
      SizeBound(t.right, h - Weight(t.red));
    }
  }

  lemma {:induction false} Pow2Sum(a: nat, b: nat)
    ensures Pow2(a + b) == Pow2(a) * Pow2(b)
  {
    if a > 0 {
      Pow2Sum(a - 1, b);
      assert Pow2(a + b) == 2 * Pow2(a - 1 + b);
    }
  }

  lemma {:induction false} Pow2Monotone(a: nat, b: nat)
    requires a <= b
    ensures Pow2(a) <= Pow2(b)
    decreases b - a
  {
    if a < b { Pow2Monotone(a, b - 1); }
  }

  lemma Squares(a: nat, b: nat)
    requires a <= b
    ensures a * a <= b * b
  {}

  /** The search of a tree of `n` nodes takes at most `2 * log2(n + 1)` steps down. */
  lemma SearchCost(t: Tree, k: Key)
    requires IsRedBlack(t)
    ensures Pow2(Visits(t, k)) <= (Size(t) + 1) * (Size(t) + 1)
  {
    var h: nat :| Balanced(t, h);
    VisitsBound(t, k, h);
    SizeBound(t, h);
    Pow2Monotone(Visits(t, k), h + h);
    Pow2Sum(h, h);
    Squares(Pow2(h), Size(t) + 1);
  }

  lemma {:induction false} SizeIsLength(t: Tree)
    ensures Size(t) == |Inorder(t)|
  {
    if t.Node? { SizeIsLength(t.left); SizeIsLength(t.right); }
  }

  /** One comparison of rbtree_find. */
  lemma EmptyPlace(p: Path)
    requires p != Top
    ensures Nodes(Leaf) + PathNodes(p) == PathNodes(p) && p.id in PathNodes(p)
  {}

  lemma NothingBeside(k: Key)
    ensures AllBelow([], k) && AllAtMost([], k) && AllAbove([], k)
  {}

  lemma FindStep(t: Tree, p: Path, k: Key)
    requires t.Node? && Sorted(Inorder(Plug(p, t)))
    requires AllBelow(Before(p), k) && AllAbove(After(p), k)
    ensures var q := Step(true, t.id, t.key, t.red, t.right, p);
      k < t.key ==> AllBelow(Before(q), k) && AllAbove(After(q), k)
    ensures var q := Step(false, t.id, t.key, t.red, t.left, p);
      t.key < k ==> AllBelow(Before(q), k) && AllAbove(After(q), k)
  {
    hide Before, After, Inorder, Plug;
    InorderPlug(p, t);
    Beside(t, p);
    var s := Inorder(Plug(p, t));
    var l, e, r := Inorder(t.left), Entry(t.id, t.key), Inorder(t.right);
    var m := |Before(p)| + |l|;
    assert s == Before(p) + (l + [e] + r) + After(p);
    Regroup(Before(p), l, e, r, After(p));
    assert s[m] == e;
    if k < t.key {
      forall x | x in [e] + r + After(p) ensures k < x.key {
        var i :| 0 <= i < |[e] + r + After(p)| && ([e] + r + After(p))[i] == x;
        assert s[m + i] == x;
      }
    } else if t.key < k {
      forall x | x in Before(p) + l + [e] ensures x.key < k {
        var i :| 0 <= i < |Before(p) + l + [e]| && (Before(p) + l + [e])[i] == x;
        assert s[i] == x;
      }
    }
  }

  lemma FoundEntry(t: Tree, p: Path)
    requires t.Node?
    ensures Entry(t.id, t.key) in Inorder(Plug(p, t)) && t.id in Nodes(t)
  {
    InorderPlug(p, t);
    assert Entry(t.id, t.key) in Inorder(t);
  }

  lemma MissingEntry(p: Path, k: Key)
    requires AllBelow(Before(p), k) && AllAbove(After(p), k)
    ensures forall e :: e in Inorder(Plug(p, Leaf)) ==> e.key != k
  {
    InorderPlug(p, Leaf);
  }

  lemma GoLeft(t: Tree, p: Path)
    requires t.Node?
    ensures Plug(Step(true, t.id, t.key, t.red, t.right, p), t.left) == Plug(p, t)
  {}

  lemma GoRight(t: Tree, p: Path)
    requires t.Node?
    ensures Plug(Step(false, t.id, t.key, t.red, t.left, p), t.right) == Plug(p, t)
  {}

  lemma SuccessorSpliced(t: Tree, p: Path, q: Path, s: Tree) returns (h: nat)
    requires t.Node? && IsRedBlack(Plug(p, t)) && Plug(q, s) == t.right && s.Node? && s.left == Leaf
    ensures Spliced(s.red, s.right, Append(q, Step(false, s.id, s.key, t.red, t.left, p)), h)
  {
    var b, b' := Step(false, t.id, t.key, t.red, t.left, p), Step(false, s.id, s.key, t.red, t.left, p);
    PlugAppend(q, b, s);
    assert Join(b, t.right) == t;
    h := SplicedInv(s, Append(q, b), s.right);
    SwapBase(q, b, b', h);
    SwapBase(q, b, b', h + 1);
  }
}
