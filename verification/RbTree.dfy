/**
 rbtree.c: the intrusive red-black tree, updated in place through parent links.
 */
module RedBlack {
  import opened RbNodes
  import opened RbShape

  /** The node whose child is the focus. */
  ghost function Holder(p: Path): RbNode?
  {
    if p == Top then null else p.id
  }

  /** The heap below pointer `x` is the tree `t`; `holder` is the parent the top node must name.
      A null `holder` leaves the parent of the top node open: the root keeps a stale one. */
  ghost predicate TreeAt(x: RbNode?, t: Tree, holder: RbNode?, nil: RbNode)
    reads Nodes(t)
    decreases t
  {
    match t
    case Leaf => x == nil
    case Node(id, k, c, l, r) =>
      && x == id && id.key == k && id.red == c
      && (holder != null ==> id.parent == holder)
      && TreeAt(id.left, l, id, nil) && TreeAt(id.right, r, id, nil)
  }

  /** The heap above the child pointer `x` is the path `p`, ending in the tree's `root` field. */
  ghost predicate PathAt(p: Path, x: RbNode?, root: RbNode, nil: RbNode)
    reads PathNodes(p)
    decreases p
  {
    match p
    case Top => root == x
    case Step(onLeft, id, k, c, s, up) =>
      && id.key == k && id.red == c
      && (if onLeft then id.left else id.right) == x
      && TreeAt(if onLeft then id.right else id.left, s, id, nil)
      && (up != Top ==> id.parent == up.id)
      && PathAt(up, id, root, nil)
  }

  class RbTree {
    var root: RbNode
    const sentinel: RbNode
    ghost var shape: Tree

    /** rbtree_init: the tree is the sentinel, which is black. */
    constructor ()
      ensures shape == Leaf && root == sentinel && fresh(sentinel) && !sentinel.red
    {
      var s := new RbNode(0, null);
      root, sentinel, shape := s, s, Leaf;
    }

    ghost predicate Focus(x: RbNode?, t: Tree, p: Path)
      reads this`root, Nodes(t), PathNodes(p)
    {
      && Separate(t, p) && sentinel !in Nodes(t) && sentinel !in PathNodes(p)
      && TreeAt(x, t, Holder(p), sentinel) && PathAt(p, x, root, sentinel)
    }

    lemma Up(x: RbNode?, t: Tree, p: Path)
      requires p != Top && Focus(x, t, p)
      ensures Focus(p.id, Join(p, t), p.up)
      ensures Nodes(Join(p, t)) + PathNodes(p.up) == Nodes(t) + PathNodes(p)
    {}

    lemma DownLeft(x: RbNode?, t: Tree, p: Path)
      requires t.Node? && Focus(x, t, p)
      ensures var q := Step(true, t.id, t.key, t.red, t.right, p);
        && Focus(t.id.left, t.left, q) && x == t.id
        && Nodes(t.left) + PathNodes(q) == Nodes(t) + PathNodes(p)
    {}

    lemma DownRight(x: RbNode?, t: Tree, p: Path)
      requires t.Node? && Focus(x, t, p)
      ensures var q := Step(false, t.id, t.key, t.red, t.left, p);
        && Focus(t.id.right, t.right, q) && x == t.id
        && Nodes(t.right) + PathNodes(q) == Nodes(t) + PathNodes(p)
    {}

    /** Back down to the child from which `Up` came. */
    lemma Down(x: RbNode?, j: Tree, up: Path, p: Path)
      requires p != Top && j.Node? && j == Join(p, if p.onLeft then j.left else j.right) && Focus(x, j, up)
      ensures Focus(if p.onLeft then p.id.left else p.id.right, if p.onLeft then j.left else j.right, p.(up := up))
    {}

    /** rbt_red / rbt_black / rbt_copy_color on the focused node. */
    method SetColor(x: RbNode, c: bool, ghost t: Tree, ghost p: Path)
      requires t.Node? && Focus(x, t, p)
      modifies x`red
      ensures Focus(x, t.(red := c), p)
    {
      x.red := c;
    }

    lemma {:induction false} RootOnPath(p: Path, x: RbNode?)
      requires p != Top && PathAt(p, x, root, sentinel)
      ensures root in PathNodes(p)
      decreases p
    {
      if p.up != Top { RootOnPath(p.up, p.id); }
    }

    /** The child pointer that names `node`, in its parent or in `root`, now names `temp`. */
    method ReplaceChild(node: RbNode, temp: RbNode, ghost p: Path)
      requires PathDistinct(p) && PathAt(p, node, root, sentinel) && node !in PathNodes(p)
      requires p != Top ==> node.parent == p.id
      requires node != sentinel
      modifies this`root, PathNodes(p)`left, PathNodes(p)`right
      ensures PathAt(p, temp, root, sentinel)
    {
      if p != Top { RootOnPath(p, node); }
      if node == root {
        root := temp;
      } else if node == node.parent.left {
        node.parent.left := temp;
      } else {
        node.parent.right := temp;
      }
    }

    /** `if (x != sentinel) x->parent = holder`. */
    method SetParent(x: RbNode, holder: RbNode, ghost t: Tree)
      requires Distinct(t) && TreeAt(x, t, null, sentinel) && sentinel !in Nodes(t)
      modifies (if t.Leaf? then {} else {t.id})`parent
      ensures TreeAt(x, t, holder, sentinel)
    {
      if x != sentinel {
        x.parent := holder;
      }
    }

    ghost predicate Away(n: RbNode, a: Tree, b: Tree, c: Tree, p: Path)
    {
      n !in Nodes(a) && n !in Nodes(b) && n !in Nodes(c) && n !in PathNodes(p)
    }

    /** Two nodes and three subtrees cut out of the tree at `p`, with nothing in common. */
    ghost predicate Parts(x: RbNode, y: RbNode, a: Tree, b: Tree, c: Tree, p: Path)
    {
      && x != y && x != sentinel && y != sentinel
      && Away(x, a, b, c, p) && Away(y, a, b, c, p) && Away(sentinel, a, b, c, p)
      && Nodes(a) !! Nodes(b) && Nodes(a) !! Nodes(c) && Nodes(b) !! Nodes(c)
      && Nodes(a) !! PathNodes(p) && Nodes(b) !! PathNodes(p) && Nodes(c) !! PathNodes(p)
      && Distinct(a) && Distinct(b) && Distinct(c) && PathDistinct(p)
      && (b.Node? ==> b.id in Nodes(b))
    }

    /** The inner subtree `b` of a rotation gets the parent `x`; the outer ones stay where they are. */
    method MoveInner(x: RbNode, y: RbNode, ghost a: Tree, ghost b: Tree, ghost c: Tree, ghost p: Path,
                     ghost outerA: RbNode?, inner: RbNode, ghost outerC: RbNode?, ghost ha: RbNode, ghost hc: RbNode)
      requires Parts(x, y, a, b, c, p)
      requires TreeAt(outerA, a, ha, sentinel) && TreeAt(inner, b, null, sentinel) && TreeAt(outerC, c, hc, sentinel)
      requires PathAt(p, x, root, sentinel)
      modifies (if b.Leaf? then {} else {b.id})`parent
      ensures TreeAt(outerA, a, ha, sentinel) && TreeAt(inner, b, x, sentinel) && TreeAt(outerC, c, hc, sentinel)
      ensures PathAt(p, x, root, sentinel)
    {
      assert b.Node? ==> b.id in Nodes(b);
      assert b.Node? ==> b.id !in PathNodes(p) && b.id !in Nodes(a) && b.id !in Nodes(c);
      assert allocated(Nodes(a)) && allocated(Nodes(c)) && allocated(PathNodes(p));
      SetParent(inner, x, b);
    }

    method LeftRotateParts(x: RbNode, y: RbNode, ghost a: Tree, ghost b: Tree, ghost c: Tree, ghost p: Path)
      requires Parts(x, y, a, b, c, p)
      requires TreeAt(x.left, a, x, sentinel) && y.left != null && TreeAt(y.left, b, null, sentinel)
      requires TreeAt(y.right, c, y, sentinel)
      requires PathAt(p, x, root, sentinel) && x.right == y && (p != Top ==> x.parent == p.id)
      modifies this`root, x`right, x`parent, y`left, y`parent, PathNodes(p)`left, PathNodes(p)`right
      modifies (if b.Leaf? then {} else {b.id})`parent
      ensures TreeAt(x.left, a, x, sentinel) && TreeAt(x.right, b, x, sentinel) && TreeAt(y.right, c, y, sentinel)
      ensures PathAt(p, y, root, sentinel) && y.left == x && x.parent == y && (p != Top ==> y.parent == p.id)
    {
      hide TreeAt, PathAt, Nodes, PathNodes, Distinct, PathDistinct;
      MoveInner(x, y, a, b, c, p, x.left, y.left, y.right, x, y);
      x.right := y.left;
      y.parent := x.parent;
      assert allocated(Nodes(a)) && allocated(Nodes(b)) && allocated(Nodes(c)) && allocated(PathNodes(p));
      ReplaceChild(x, y, p);
      TurnLeft(x, y, a, b, c, p);
    }

    /** The end of a left rotation: `x` becomes the left child of `y`. */
    method TurnLeft(x: RbNode, y: RbNode, ghost a: Tree, ghost b: Tree, ghost c: Tree, ghost p: Path)
      requires Parts(x, y, a, b, c, p)
      requires TreeAt(x.left, a, x, sentinel) && TreeAt(x.right, b, x, sentinel) && TreeAt(y.right, c, y, sentinel)
      requires PathAt(p, y, root, sentinel)
      modifies x`parent, y`left
      ensures TreeAt(x.left, a, x, sentinel) && TreeAt(x.right, b, x, sentinel) && TreeAt(y.right, c, y, sentinel)
      ensures PathAt(p, y, root, sentinel) && y.left == x && x.parent == y
    {
      hide TreeAt, PathAt, Nodes, PathNodes, Distinct, PathDistinct;
      assert allocated(Nodes(a)) && allocated(Nodes(b)) && allocated(Nodes(c)) && allocated(PathNodes(p));
      y.left := x;
      x.parent := y;
    }

    method LeftRotate(node: RbNode, ghost t: Tree, ghost p: Path)
      requires t.Node? && t.right.Node? && Focus(node, t, p)
      modifies this`root, Nodes(t), PathNodes(p)
      ensures Focus(t.right.id, LeftRotated(t), p)
    {
      ghost var y := t.right;
      LeftRotatedSeparate(t, p);
      assert TreeAt(node.right, y, node, sentinel) && TreeAt(y.id.left, y.left, y.id, sentinel);
      assert Distinct(y) && Nodes(y) <= Nodes(t) && Nodes(y.left) <= Nodes(y);
      var temp := node.right;
      assert Parts(node, temp, t.left, y.left, y.right, p);
      LeftRotateParts(node, temp, t.left, y.left, y.right, p);
    }

    method RightRotateParts(x: RbNode, y: RbNode, ghost a: Tree, ghost b: Tree, ghost c: Tree, ghost p: Path)
      requires Parts(x, y, a, b, c, p)
      requires TreeAt(y.left, a, y, sentinel) && y.right != null && TreeAt(y.right, b, null, sentinel)
      requires TreeAt(x.right, c, x, sentinel)
      requires PathAt(p, x, root, sentinel) && x.left == y && (p != Top ==> x.parent == p.id)
      modifies this`root, x`left, x`parent, y`right, y`parent, PathNodes(p)`left, PathNodes(p)`right
      modifies (if b.Leaf? then {} else {b.id})`parent
      ensures TreeAt(y.left, a, y, sentinel) && TreeAt(x.left, b, x, sentinel) && TreeAt(x.right, c, x, sentinel)
      ensures PathAt(p, y, root, sentinel) && y.right == x && x.parent == y && (p != Top ==> y.parent == p.id)
    {
      hide TreeAt, PathAt, Nodes, PathNodes, Distinct, PathDistinct;
      MoveInner(x, y, a, b, c, p, y.left, y.right, x.right, y, x);
      x.left := y.right;
      y.parent := x.parent;
      assert allocated(Nodes(a)) && allocated(Nodes(b)) && allocated(Nodes(c)) && allocated(PathNodes(p));
      ReplaceChild(x, y, p);
      TurnRight(x, y, a, b, c, p);
    }

    /** The end of a right rotation: `x` becomes the right child of `y`. */
    method TurnRight(x: RbNode, y: RbNode, ghost a: Tree, ghost b: Tree, ghost c: Tree, ghost p: Path)
      requires Parts(x, y, a, b, c, p)
      requires TreeAt(y.left, a, y, sentinel) && TreeAt(x.left, b, x, sentinel) && TreeAt(x.right, c, x, sentinel)
      requires PathAt(p, y, root, sentinel)
      modifies x`parent, y`right
      ensures TreeAt(y.left, a, y, sentinel) && TreeAt(x.left, b, x, sentinel) && TreeAt(x.right, c, x, sentinel)
      ensures PathAt(p, y, root, sentinel) && y.right == x && x.parent == y
    {
      hide TreeAt, PathAt, Nodes, PathNodes, Distinct, PathDistinct;
      assert allocated(Nodes(a)) && allocated(Nodes(b)) && allocated(Nodes(c)) && allocated(PathNodes(p));
      y.right := x;
      x.parent := y;
    }

    method RightRotate(node: RbNode, ghost t: Tree, ghost p: Path)
      requires t.Node? && t.left.Node? && Focus(node, t, p)
      modifies this`root, Nodes(t), PathNodes(p)
      ensures Focus(t.left.id, RightRotated(t), p)
    {
      ghost var y := t.left;
      RightRotatedSeparate(t, p);
      assert TreeAt(node.left, y, node, sentinel) && TreeAt(y.id.right, y.right, y.id, sentinel);
      assert Distinct(y) && Nodes(y) <= Nodes(t) && Nodes(y.right) <= Nodes(y);
      var temp := node.left;
      assert Parts(node, temp, y.left, y.right, t.right, p);
      RightRotateParts(node, temp, y.left, y.right, t.right, p);
    }

    // ---- insertion ----

    /** What the code reads to find its way: parent, side, colour and whether this is the root. */
    lemma Surroundings(x: RbNode?, t: Tree, p: Path)
      requires Focus(x, t, p)
      ensures if t.Leaf? then x == sentinel else x == t.id && x.red == t.red
      ensures sentinel !in Nodes(t) && sentinel !in PathNodes(p)
      ensures p == Top ==> x == root
      ensures p != Top ==> x != root && (t.Node? ==> x.parent == p.id)
      ensures p != Top ==> p.id.red == p.red && (p.up != Top ==> p.id.parent == p.up.id)
      ensures p != Top && p.onLeft ==> p.id.left == x
      ensures p != Top && p.onLeft && t.Node? ==> p.id.right != x
      ensures p != Top && !p.onLeft ==> p.id.right == x
      ensures p != Top && !p.onLeft && t.Node? ==> p.id.left != x
    {
      if p != Top { RootOnPath(p, x); }
    }

    // rbt_red, rbt_black and rbt_copy_color on the relatives of the focus

    method ColorParent(parent: RbNode, c: bool, ghost x: RbNode?, ghost t: Tree, ghost p: Path)
      requires p != Top && parent == p.id && Focus(x, t, p)
      modifies parent`red
      ensures Focus(x, t, p.(red := c))
    {
      parent.red := c;
    }

    method ColorSibling(w: RbNode, c: bool, ghost x: RbNode?, ghost t: Tree, ghost p: Path)
      requires p != Top && p.sibling.Node? && w == p.sibling.id && Focus(x, t, p)
      modifies w`red
      ensures Focus(x, t, p.(sibling := p.sibling.(red := c)))
    {
      w.red := c;
    }

    method ColorGrand(grand: RbNode, c: bool, ghost x: RbNode?, ghost t: Tree, ghost p: Path)
      requires p != Top && p.up != Top && grand == p.up.id && Focus(x, t, p)
      modifies grand`red
      ensures Focus(x, t, p.(up := p.up.(red := c)))
    {
      ghost var j := Join(p, t);
      Up(x, t, p);
      ColorParent(grand, c, p.id, j, p.up);
      Down(p.id, j, p.up.(red := c), p);
    }

    method ColorUncle(u: RbNode, c: bool, ghost x: RbNode?, ghost t: Tree, ghost p: Path)
      requires p != Top && p.up != Top && p.up.sibling.Node? && u == p.up.sibling.id && Focus(x, t, p)
      modifies u`red
      ensures Focus(x, t, p.(up := p.up.(sibling := p.up.sibling.(red := c))))
    {
      ghost var j := Join(p, t);
      Up(x, t, p);
      ColorSibling(u, c, p.id, j, p.up);
      Down(p.id, j, p.up.(sibling := p.up.sibling.(red := c)), p);
    }

    method Recolor(node: RbNode, uncle: RbNode, ghost t: Tree, ghost p: Path)
      requires t.Node? && p != Top && p.up != Top && p.up.sibling.Node? && Focus(node, t, p)
      requires uncle == p.up.sibling.id
      modifies PathNodes(p)`red
      ensures Focus(node, t, Recolored(p))
    {
      Surroundings(node, t, p);
      hide Focus;
      ColorParent(node.parent, false, node, t, p);
      ghost var q := p.(red := false);
      ColorUncle(uncle, false, node, t, q);
      q := q.(up := q.up.(sibling := q.up.sibling.(red := false)));
      ColorGrand(node.parent.parent, true, node, t, q);
    }

    /** Parent is a left child, uncle is black: `if (node == node->parent->right)` rotate it out. */
    method StraightenLeft(node: RbNode, ghost t: Tree, ghost p: Path) returns (node': RbNode)
      requires t.Node? && p != Top && Focus(node, t, p)
      modifies this`root, Nodes(t), PathNodes(p)
      ensures var t', p' := Outer(t, p, !p.onLeft).0, Outer(t, p, !p.onLeft).1;
        Focus(node', t', p') && Nodes(t') + PathNodes(p') == Nodes(t) + PathNodes(p) && t'.Node? && p' != Top
    {
      Surroundings(node, t, p);
      node' := node;
      if node == node.parent.right {
        Up(node, t, p);
        node' := node.parent;
        LeftRotate(node', Join(p, t), p.up);
        DownLeft(t.id, LeftRotated(Join(p, t)), p.up);
      }
    }

    method StraightenRight(node: RbNode, ghost t: Tree, ghost p: Path) returns (node': RbNode)
      requires t.Node? && p != Top && Focus(node, t, p)
      modifies this`root, Nodes(t), PathNodes(p)
      ensures var t', p' := Outer(t, p, p.onLeft).0, Outer(t, p, p.onLeft).1;
        Focus(node', t', p') && Nodes(t') + PathNodes(p') == Nodes(t) + PathNodes(p) && t'.Node? && p' != Top
    {
      Surroundings(node, t, p);
      node' := node;
      if node == node.parent.left {
        Up(node, t, p);
        node' := node.parent;
        RightRotate(node', Join(p, t), p.up);
        DownRight(t.id, RightRotated(Join(p, t)), p.up);
      }
    }

    method SwapColors(node: RbNode, ghost t: Tree, ghost p: Path)
      requires t.Node? && p != Top && p.up != Top && Focus(node, t, p)
      modifies PathNodes(p)`red
      ensures Focus(node, t, Swapped(p))
    {
      Surroundings(node, t, p);
      hide Focus;
      ColorParent(node.parent, false, node, t, p);
      ColorGrand(node.parent.parent, true, node, t, p.(red := false));
    }

    method LiftLeft(node: RbNode, ghost t: Tree, ghost p: Path)
      requires t.Node? && p != Top && p.up != Top && Focus(node, t, p) && p.onLeft && p.up.onLeft
      modifies this`root, Nodes(t), PathNodes(p)
      ensures Focus(node, t, Lifted(p)) && PathNodes(Lifted(p)) == PathNodes(p)
    {
      SwapColors(node, t, p);
      ghost var q := Swapped(p);
      Surroundings(node, t, q);
      hide Focus;
      Up(node, t, q);
      Up(p.id, Join(q, t), q.up);
      ghost var g := Join(q.up, Join(q, t));
      RightRotate(node.parent.parent, g, p.up.up);
      DownLeft(p.id, RightRotated(g), p.up.up);
    }

    method LiftRight(node: RbNode, ghost t: Tree, ghost p: Path)
      requires t.Node? && p != Top && p.up != Top && Focus(node, t, p) && !p.onLeft && !p.up.onLeft
      modifies this`root, Nodes(t), PathNodes(p)
      ensures Focus(node, t, Lifted(p)) && PathNodes(Lifted(p)) == PathNodes(p)
    {
      SwapColors(node, t, p);
      ghost var q := Swapped(p);
      Surroundings(node, t, q);
      hide Focus;
      Up(node, t, q);
      Up(p.id, Join(q, t), q.up);
      ghost var g := Join(q.up, Join(q, t));
      LeftRotate(node.parent.parent, g, p.up.up);
      DownRight(p.id, LeftRotated(g), p.up.up);
    }

    // ---- rbtree_insert ----

    ghost predicate Valid()
      reads this, sentinel, Nodes(shape)
    {
      Focus(root, shape, Top) && IsRedBlack(shape) && Sorted(Inorder(shape)) && !sentinel.red
    }

    lemma IsValid()
      requires Focus(root, shape, Top) && IsRedBlack(shape) && Sorted(Inorder(shape)) && !sentinel.red
      ensures Valid()
    {
    }

    lemma Sortedness()
      requires Valid()
      ensures Sorted(Order())
    {
    }

    /** The entries of the tree in key order. */
    ghost function Order(): seq<Entry>
      reads this
    {
      Inorder(shape)
    }

    /** The search loop of rbtree_insert_temp: the last node before the empty place of `key`. */
    method FindPlace(key: Key) returns (temp: RbNode, ghost p: Path)
      requires Valid() && root != sentinel
      ensures temp in Nodes(shape) && (if key < temp.key then temp.left else temp.right) == sentinel
      ensures p != Top && temp == p.id && p.onLeft == (key < temp.key)
      ensures Focus(sentinel, Leaf, p) && PathNodes(p) == Nodes(shape) && Plug(p, Leaf) == shape
      ensures AllAtMost(Before(p), key) && AllAbove(After(p), key)
      ensures !sentinel.red && IsRedBlack(shape) && Sorted(Inorder(shape))
    {
      hide Focus, Nodes, PathNodes, Plug, Inorder, Before, After, AllAtMost, AllAbove, Sorted, IsRedBlack, Valid;
      TopFocus();
      Sortedness();
      NothingBeside(key);
      temp := root;
      ghost var t := shape;
      p := Top;
      while true
        invariant t.Node? && Focus(temp, t, p) && Plug(p, t) == shape && Nodes(t) + PathNodes(p) == Nodes(shape)
        invariant AllAtMost(Before(p), key) && AllAbove(After(p), key)
        decreases t
      {
        Surroundings(temp, t, p);
        Children(temp, t, p);
        SearchStep(t, p, key);
        ghost var onLeft := key < t.key;
        var child := if key < temp.key then temp.left else temp.right;
        if onLeft {
          DownLeft(temp, t, p);
          GoLeft(t, p);
        } else {
          DownRight(temp, t, p);
          GoRight(t, p);
        }
        p := Step(onLeft, t.id, t.key, t.red, if onLeft then t.right else t.left, p);
        t := if onLeft then t.left else t.right;
        if child == sentinel {
          break;
        }
        temp := child;
      }
      EmptyPlace(p);
    }

    /** The end of rbtree_insert_temp: a red leaf in an empty place. */
    method Hang(temp: RbNode, node: RbNode, ghost p: Path)
      requires p != Top && temp == p.id && p.onLeft == (node.key < temp.key) && Focus(sentinel, Leaf, p)
      requires node != sentinel && node !in PathNodes(p)
      modifies node, temp
      ensures Focus(node, Node(node, node.key, true, Leaf, Leaf), p) && node.key == old(node.key)
    {
      if node.key < temp.key {
        temp.left := node;
      } else {
        temp.right := node;
      }
      node.parent := temp;
      node.left := sentinel;
      node.right := sentinel;
      node.red := true;
    }

    /** What the code reads one level further up. */
    lemma FurtherSurroundings(x: RbNode?, t: Tree, p: Path)
      requires Focus(x, t, p) && p != Top && p.up != Top && !sentinel.red
      ensures p.up.id.left == p.id <==> p.up.onLeft
      ensures var uncle := if p.up.onLeft then p.up.id.right else p.up.id.left;
        && uncle != null && (uncle.red <==> IsRed(p.up.sibling))
        && (p.up.sibling.Node? ==> uncle == p.up.sibling.id)
    {
      Up(x, t, p);
      Surroundings(p.id, Join(p, t), p.up);
    }

    /** One round of the insertion loop; the parent is red. A red uncle moves the focus two levels up, and with a
        black one the loop ends: the new parent is black. */
    method InsertStep(node: RbNode, ghost t: Tree, ghost p: Path, ghost h: nat)
      returns (node': RbNode, ghost t': Tree, ghost p': Path, ghost h': nat)
      requires Focus(node, t, p) && InsertInv(t, p, h) && HeadRed(p) && !sentinel.red
      modifies this`root, Nodes(t), PathNodes(p)
      ensures Focus(node', t', p') && InsertInv(t', p', h') && Depth(p') < Depth(p)
      ensures if IsRed(p.up.sibling) then p' == p.up.up && node' == p.up.id else !HeadRed(p')
      ensures Nodes(t') + PathNodes(p') == Nodes(t) + PathNodes(p)
      ensures Inorder(Plug(p', t')) == Inorder(Plug(p, t))
    {
      Surroundings(node, t, p);
      FurtherSurroundings(node, t, p);
      hide Focus, Nodes, PathNodes;
      var grand: RbNode := node.parent.parent;
      t', p', h' := t, p, h;
      if node.parent == grand.left {
        var temp: RbNode := grand.right;
        if temp.red {
          node', t', p', h' := RedUncle(node, temp, t, p, h);
        } else {
          node' := StraightenLeft(node, t, p);
          OuterKeeps(t, p, !p.onLeft, h);
          t', p' := Outer(t, p, !p.onLeft).0, Outer(t, p, !p.onLeft).1;
          LiftLeft(node', t', p');
          p' := Lifted(p');
        }
      } else {
        var temp: RbNode := grand.left;
        if temp.red {
          node', t', p', h' := RedUncle(node, temp, t, p, h);
        } else {
          node' := StraightenRight(node, t, p);
          OuterKeeps(t, p, p.onLeft, h);
          t', p' := Outer(t, p, p.onLeft).0, Outer(t, p, p.onLeft).1;
          LiftRight(node', t', p');
          p' := Lifted(p');
        }
      }
    }

    method RedUncle(node: RbNode, temp: RbNode, ghost t: Tree, ghost p: Path, ghost h: nat)
      returns (node': RbNode, ghost t': Tree, ghost p': Path, ghost h': nat)
      requires Focus(node, t, p) && InsertInv(t, p, h) && HeadRed(p)
      requires IsRed(p.up.sibling) && temp == p.up.sibling.id
      modifies this`root, Nodes(t), PathNodes(p)
      ensures Focus(node', t', p') && InsertInv(t', p', h') && Depth(p') < Depth(p)
      ensures p' == p.up.up && node' == p.up.id
      ensures Nodes(t') + PathNodes(p') == Nodes(t) + PathNodes(p)
      ensures Inorder(Plug(p', t')) == Inorder(Plug(p, t))
    {
      hide Focus, Nodes, PathNodes, Inorder, Plug, Balanced, NoRedRed, PathBalanced, Recolored, Join, Depth;
      RecoloredUp(t, p, h);
      Surroundings(node, t, p);
      node' := node.parent.parent;
      Recolor(node, temp, t, p);
      ghost var q := Recolored(p);
      Up(node, t, q);
      Up(p.id, Join(q, t), q.up);
      t', p', h' := Join(q.up, Join(q, t)), p.up.up, h + 1;
    }

    lemma {:induction false} Ascend(x: RbNode?, t: Tree, p: Path)
      requires Focus(x, t, p)
      ensures Focus(root, Plug(p, t), Top) && Nodes(Plug(p, t)) == Nodes(t) + PathNodes(p)
      decreases p
    {
      if p == Top {
      } else {
        Up(x, t, p);
        Ascend(p.id, Join(p, t), p.up);
      }
    }

    /** The insertion loop of rbtree_insert, and the final `rbt_black(*root)`. */
    method InsertFixup(start: RbNode, ghost t0: Tree, ghost p0: Path)
      requires Focus(start, t0, p0) && InsertInv(t0, p0, 0) && p0 != Top && !sentinel.red
      requires Sorted(Inorder(Plug(p0, t0)))
      modifies this, Nodes(t0), PathNodes(p0)
      ensures Valid() && Order() == Inorder(Plug(p0, t0)) && Nodes(shape) == Nodes(t0) + PathNodes(p0)
    {
      hide Focus, Nodes, PathNodes, Inorder, Plug, Balanced, NoRedRed, PathBalanced, Sorted;
      var node := start;
      ghost var t, p, h := t0, p0, 0;
      Surroundings(node, t, p);
      while node != root && node.parent.red
        invariant node != root ==> node.parent != null
        invariant Focus(node, t, p) && InsertInv(t, p, h) && !sentinel.red
        invariant Nodes(t) + PathNodes(p) == Nodes(t0) + PathNodes(p0)
        invariant Inorder(Plug(p, t)) == Inorder(Plug(p0, t0))
        decreases Depth(p)
      {
        Surroundings(node, t, p);
        node, t, p, h := InsertStep(node, t, p, h);
        Surroundings(node, t, p);
      }
      Surroundings(node, t, p);
      InsertEnd(node, t, p, h);
    }

    /** `rbt_black(*root)` */
    method InsertEnd(node: RbNode, ghost t: Tree, ghost p: Path, ghost h: nat)
      requires Focus(node, t, p) && InsertInv(t, p, h) && !HeadRed(p) && !sentinel.red
      requires Sorted(Inorder(Plug(p, t)))
      modifies this, Nodes(t), PathNodes(p)
      ensures Valid() && Order() == Inorder(Plug(p, t)) && Nodes(shape) == Nodes(t) + PathNodes(p)
    {
      hide Focus, Nodes, PathNodes, Inorder, Plug, Balanced, NoRedRed, PathBalanced, Sorted, IsRedBlack;
      InsertDone(t, p, h);
      Ascend(node, t, p);
      ghost var s := Plug(p, t);
      PlugIsNode(p, t);
      Surroundings(root, s, Top);
      BlackenedOrder(s);
      SetColor(root, false, s, Top);
      shape := Blackened(s);
    }

    method InsertFirst(node: RbNode)
      requires Valid() && root == sentinel && node != sentinel
      modifies this, node
      ensures Valid() && node.key == old(node.key)
      ensures old(shape) == Leaf && shape == Node(node, node.key, false, Leaf, Leaf)
    {
      node.parent := null;
      node.left := sentinel;
      node.right := sentinel;
      node.red := false;
      root := node;
      shape := Node(node, node.key, false, Leaf, Leaf);
      assert Balanced(shape, 1);
    }

    /** The keys in the order are those in the nodes. */
    lemma {:induction false} KeysAt(x: RbNode?, t: Tree, holder: RbNode?, e: Entry)
      requires TreeAt(x, t, holder, sentinel) && e in Inorder(t)
      ensures e.id in Nodes(t) && e.id.key == e.key
      decreases t
    {
      if e in Inorder(t.left) {
        KeysAt(t.id.left, t.left, t.id, e);
      } else if e in Inorder(t.right) {
        KeysAt(t.id.right, t.right, t.id, e);
      }
    }

    method InsertBelow(node: RbNode)
      requires Valid() && root != sentinel && node != sentinel && node !in Nodes(shape)
      modifies this, node, Nodes(shape)
      ensures Valid() && Order() == Inserted(old(Order()), Entry(node, old(node.key)))
      ensures Nodes(shape) == old(Nodes(shape)) + {node}
    {
      ghost var leaf := Node(node, node.key, true, Leaf, Leaf);
      assert Nodes(leaf) == {node};
      var temp, p := FindPlace(node.key);
      hide Focus, Nodes, PathNodes, Valid, Plug, Inserted;
      LeafColors(node, node.key, p);
      LeafOrder(node, node.key, p);
      Hang(temp, node, p);
      InsertFixup(node, leaf, p);
    }

    method Insert(node: RbNode)
      requires Valid() && node != sentinel && node !in Nodes(shape)
      modifies this, node, Nodes(shape)
      ensures Valid() && node.key == old(node.key)
      ensures Order() == Inserted(old(Order()), Entry(node, node.key))
      ensures Nodes(shape) == old(Nodes(shape)) + {node}
    {
      if root == sentinel {
        InsertFirst(node);
      } else {
        ghost var e := Entry(node, node.key);
        InsertBelow(node);
        assert e in Order();
        KeysAt(root, shape, null, e);
      }
    }

    // ---- rbtree_delete: the fix-up loop ----

    /** The other child of the parent, seen as focus. */
    ghost function Aside(t: Tree, p: Path): Path
      requires p != Top
    {
      p.(onLeft := !p.onLeft, sibling := t)
    }

    lemma ToSibling(x: RbNode?, t: Tree, p: Path)
      requires p != Top && Focus(x, t, p)
      ensures Focus(if p.onLeft then p.id.right else p.id.left, p.sibling, Aside(t, p))
    {
    }

    /** What the code reads from the sibling `w` and its children. */
    lemma SiblingFacts(x: RbNode?, t: Tree, p: Path)
      requires Focus(x, t, p) && p != Top && p.sibling.Node? && !sentinel.red
      ensures (if p.onLeft then p.id.right else p.id.left) == p.sibling.id
      ensures var w := p.sibling.id;
        && w.red == p.sibling.red && w.left != null && w.right != null
        && w.left.red == IsRed(p.sibling.left) && w.right.red == IsRed(p.sibling.right)
        && (p.sibling.left.Node? ==> w.left == p.sibling.left.id)
        && (p.sibling.right.Node? ==> w.right == p.sibling.right.id)
    {
      ToSibling(x, t, p);
      var w := p.sibling.id;
      assert TreeAt(w.left, p.sibling.left, w, sentinel) && TreeAt(w.right, p.sibling.right, w, sentinel);
    }

    method RedSiblingColors(w: RbNode, parent: RbNode, ghost x: RbNode?, ghost t: Tree, ghost p: Path)
      requires p != Top && p.sibling.Node? && Focus(x, t, p) && w == p.sibling.id && parent == p.id
      modifies w`red, parent`red
      ensures var q := p.(red := true, sibling := p.sibling.(red := false));
        Focus(parent, Join(q, t), p.up) && Nodes(Join(q, t)) + PathNodes(p.up) == Nodes(t) + PathNodes(p)
    {
      ghost var q := p.(sibling := p.sibling.(red := false));
      ColorSibling(w, false, x, t, p);
      ColorParent(parent, true, x, t, q);
      Up(x, t, q.(red := true));
    }

    /** The focus two levels below the rotated sibling. */
    lemma RedSiblingFocus(y: RbNode?, x: RbNode?, t: Tree, p: Path)
      requires p != Top && p.sibling.Node?
      requires var j := Join(p.(red := true, sibling := p.sibling.(red := false)), t);
        Focus(y, if p.onLeft then LeftRotated(j) else RightRotated(j), p.up)
      requires if t.Leaf? then x == sentinel else x == t.id
      ensures Focus(x, t, RedSibling(p)) && PathNodes(RedSibling(p)) == PathNodes(p)
    {
      var q := RedSibling(p);
      var j := Join(q.up, Join(q, t));
      hide Focus;
      Down(y, j, p.up, q.up);
      if p.onLeft {
        Surroundings(q.up.id.left, Join(q, t), q.up);
      } else {
        Surroundings(q.up.id.right, Join(q, t), q.up);
      }
      Down(p.id, Join(q, t), q.up, q);
      if p.onLeft { Surroundings(p.id.left, t, q); } else { Surroundings(p.id.right, t, q); }
    }

    method RedSiblingLeft(w: RbNode, parent: RbNode, ghost x: RbNode?, ghost t: Tree, ghost p: Path)
      requires p != Top && p.onLeft && p.sibling.Node? && Focus(x, t, p) && w == p.sibling.id && parent == p.id
      modifies this`root, Nodes(t), PathNodes(p)
      ensures Focus(x, t, RedSibling(p)) && PathNodes(RedSibling(p)) == PathNodes(p)
    {
      Surroundings(x, t, p);
      ghost var j := Join(p.(red := true, sibling := p.sibling.(red := false)), t);
      hide Focus;
      RedSiblingColors(w, parent, x, t, p);
      LeftRotate(parent, j, p.up);
      RedSiblingFocus(w, x, t, p);
    }

    method RedSiblingRight(w: RbNode, parent: RbNode, ghost x: RbNode?, ghost t: Tree, ghost p: Path)
      requires p != Top && !p.onLeft && p.sibling.Node? && Focus(x, t, p) && w == p.sibling.id && parent == p.id
      modifies this`root, Nodes(t), PathNodes(p)
      ensures Focus(x, t, RedSibling(p)) && PathNodes(RedSibling(p)) == PathNodes(p)
    {
      Surroundings(x, t, p);
      ghost var j := Join(p.(red := true, sibling := p.sibling.(red := false)), t);
      hide Focus;
      RedSiblingColors(w, parent, x, t, p);
      RightRotate(parent, j, p.up);
      RedSiblingFocus(w, x, t, p);
    }

    method ColorLeft(w: RbNode, child: RbNode, c: bool, ghost t: Tree, ghost p: Path)
      requires t.Node? && t.left.Node? && child == t.left.id && Focus(w, t, p)
      modifies child`red
      ensures Focus(w, t.(left := t.left.(red := c)), p) && Nodes(t.(left := t.left.(red := c))) == Nodes(t)
    {
      ghost var q := Step(true, t.id, t.key, t.red, t.right, p);
      DownLeft(w, t, p);
      Surroundings(t.id.left, t.left, q);
      SetColor(child, c, t.left, q);
      Up(child, t.left.(red := c), q);
    }

    method ColorRight(w: RbNode, child: RbNode, c: bool, ghost t: Tree, ghost p: Path)
      requires t.Node? && t.right.Node? && child == t.right.id && Focus(w, t, p)
      modifies child`red
      ensures Focus(w, t.(right := t.right.(red := c)), p) && Nodes(t.(right := t.right.(red := c))) == Nodes(t)
    {
      ghost var q := Step(false, t.id, t.key, t.red, t.left, p);
      DownRight(w, t, p);
      Surroundings(t.id.right, t.right, q);
      SetColor(child, c, t.right, q);
      Up(child, t.right.(red := c), q);
    }

    /** `rbt_black(w->left); rbt_red(w); rbtree_right_rotate(w)`, the focus being a left child. */
    method NearRedLeft(w: RbNode, ghost x: RbNode?, ghost t: Tree, ghost p: Path)
      requires p != Top && p.onLeft && p.sibling.Node? && Near(p).Node? && Focus(x, t, p)
      requires w == p.sibling.id && w.left == Near(p).id
      modifies this`root, Nodes(t), PathNodes(p)
      ensures Focus(x, t, NearRed(p)) && PathNodes(NearRed(p)) == PathNodes(p)
    {
      ghost var a, v := Aside(t, p), p.sibling;
      NearRedNodes(p);
      assert Nodes(v) + PathNodes(a) == Nodes(t) + PathNodes(p) && w in Nodes(v) && Near(p).id in Nodes(v);
      Surroundings(x, t, p);
      ToSibling(x, t, p);
      Surroundings(p.id.right, v, a);
      hide Focus, Nodes, PathNodes;
      ColorLeft(w, w.left, false, v, a);
      v := v.(left := v.left.(red := false));
      SetColor(w, true, v, a);
      assert Nodes(v.(red := true)) + PathNodes(a) == Nodes(t) + PathNodes(p) by { RecolorNodes(v, true); }
      v := v.(red := true);
      RightRotate(w, v, a);
      ToSibling(v.left.id, RightRotated(v), a);
      assert Aside(RightRotated(v), a) == NearRed(p);
      Surroundings(p.id.left, t, NearRed(p));
    }

    method NearRedRight(w: RbNode, ghost x: RbNode?, ghost t: Tree, ghost p: Path)
      requires p != Top && !p.onLeft && p.sibling.Node? && Near(p).Node? && Focus(x, t, p)
      requires w == p.sibling.id && w.right == Near(p).id
      modifies this`root, Nodes(t), PathNodes(p)
      ensures Focus(x, t, NearRed(p)) && PathNodes(NearRed(p)) == PathNodes(p)
    {
      ghost var a, v := Aside(t, p), p.sibling;
      NearRedNodes(p);
      assert Nodes(v) + PathNodes(a) == Nodes(t) + PathNodes(p) && w in Nodes(v) && Near(p).id in Nodes(v);
      Surroundings(x, t, p);
      ToSibling(x, t, p);
      Surroundings(p.id.left, v, a);
      hide Focus, Nodes, PathNodes;
      ColorRight(w, w.right, false, v, a);
      v := v.(right := v.right.(red := false));
      SetColor(w, true, v, a);
      assert Nodes(v.(red := true)) + PathNodes(a) == Nodes(t) + PathNodes(p) by { RecolorNodes(v, true); }
      v := v.(red := true);
      LeftRotate(w, v, a);
      ToSibling(v.right.id, LeftRotated(v), a);
      assert Aside(LeftRotated(v), a) == NearRed(p);
      Surroundings(p.id.right, t, NearRed(p));
    }

    /** The sibling with its far child painted. */
    ghost function FarPainted(p: Path, c: bool): Path
      requires p != Top && p.sibling.Node? && Far(p).Node?
    {
      var v := p.sibling;
      p.(sibling := if p.onLeft then v.(right := v.right.(red := c)) else v.(left := v.left.(red := c)))
    }

    method ColorFar(far: RbNode, c: bool, ghost x: RbNode?, ghost t: Tree, ghost p: Path)
      requires p != Top && p.sibling.Node? && Far(p).Node? && Focus(x, t, p) && far == Far(p).id
      modifies far`red
      ensures Focus(x, t, FarPainted(p, c))
    {
      ghost var a, v := Aside(t, p), p.sibling;
      ghost var q := Step(!p.onLeft, v.id, v.key, v.red, Near(p), a);
      Surroundings(x, t, p);
      hide Focus;
      ToSibling(x, t, p);
      if p.onLeft {
        Down(p.id.right, v, a, q);
        Surroundings(v.id.right, v.right, q);
      } else {
        Down(p.id.left, v, a, q);
        Surroundings(v.id.left, v.left, q);
      }
      SetColor(far, c, Far(p), q);
      Up(far, Far(p).(red := c), q);
      ghost var p' := FarPainted(p, c);
      ToSibling(v.id, Join(q, Far(p).(red := c)), a);
      if p.onLeft { Surroundings(p.id.left, t, p'); } else { Surroundings(p.id.right, t, p'); }
    }

    /** `rbt_copy_color(w, parent); rbt_black(parent); rbt_black(far)`. */
    method FarRedPaint(w: RbNode, parent: RbNode, far: RbNode, ghost x: RbNode?, ghost t: Tree, ghost p: Path)
      requires p != Top && p.sibling.Node? && Far(p).Node? && Focus(x, t, p)
      requires w == p.sibling.id && parent == p.id && far == Far(p).id
      modifies w`red, parent`red, far`red
      ensures var j := Join(FarRedColors(p), t);
        Focus(parent, j, p.up) && Nodes(j) + PathNodes(p.up) == Nodes(t) + PathNodes(p)
    {
      Surroundings(x, t, p);
      FarRedNodes(t, p);
      ghost var q := p;
      hide Focus, Nodes, PathNodes;
      ColorSibling(w, parent.red, x, t, q);
      q := q.(sibling := q.sibling.(red := p.red));
      ColorParent(parent, false, x, t, q);
      q := q.(red := false);
      ColorFar(far, false, x, t, q);
      q := FarPainted(q, false);
      Up(x, t, q);
    }

    /** The sibling's last case: afterwards the whole tree is in order again. */
    method FarRedLeft(w: RbNode, parent: RbNode, ghost x: RbNode?, ghost t: Tree, ghost p: Path)
      requires p != Top && p.onLeft && p.sibling.Node? && Far(p).Node? && Focus(x, t, p)
      requires w == p.sibling.id && parent == p.id && w.right == Far(p).id
      modifies this`root, Nodes(t), PathNodes(p)
      ensures Focus(root, Plug(p.up, FarRed(t, p)), Top)
      ensures Nodes(Plug(p.up, FarRed(t, p))) == Nodes(t) + PathNodes(p)
    {
      ghost var j := Join(FarRedColors(p), t);
      assert {w, parent, Far(p).id} <= Nodes(t) + PathNodes(p);
      hide Focus, Nodes, PathNodes, Plug;
      FarRedPaint(w, parent, w.right, x, t, p);
      LeftRotate(parent, j, p.up);
      RotatedNodes(j);
      Ascend(w, FarRed(t, p), p.up);
    }

    method FarRedRight(w: RbNode, parent: RbNode, ghost x: RbNode?, ghost t: Tree, ghost p: Path)
      requires p != Top && !p.onLeft && p.sibling.Node? && Far(p).Node? && Focus(x, t, p)
      requires w == p.sibling.id && parent == p.id && w.left == Far(p).id
      modifies this`root, Nodes(t), PathNodes(p)
      ensures Focus(root, Plug(p.up, FarRed(t, p)), Top)
      ensures Nodes(Plug(p.up, FarRed(t, p))) == Nodes(t) + PathNodes(p)
    {
      ghost var j := Join(FarRedColors(p), t);
      assert {w, parent, Far(p).id} <= Nodes(t) + PathNodes(p);
      hide Focus, Nodes, PathNodes, Plug;
      FarRedPaint(w, parent, w.left, x, t, p);
      RightRotate(parent, j, p.up);
      RotatedNodes(j);
      Ascend(w, FarRed(t, p), p.up);
    }

    /** First part of a round: with a red sibling, rotate until the sibling is black. */
    method BlackenSiblingLeft(temp: RbNode, ghost t: Tree, ghost p: Path, ghost h: nat)
      returns (w: RbNode, ghost q: Path)
      requires Focus(temp, t, p) && p != Top && p.onLeft && DeleteInv(t, p, h) && !IsRed(t)
      requires !sentinel.red && temp.parent == p.id
      modifies this`root, Nodes(t), PathNodes(p)
      ensures Focus(temp, t, q) && BlackSibling(t, q, h) && q.onLeft && w == q.sibling.id
      ensures temp.parent == q.id == p.id && !sentinel.red && PathNodes(q) == PathNodes(p)
      ensures Inorder(Plug(q, t)) == Inorder(Plug(p, t))
      ensures q == p || (q == RedSibling(p) && q.red)
    {
      SiblingIsNode(p, h);
      SiblingFacts(temp, t, p);
      Surroundings(temp, t, p);
      w := temp.parent.right;
      q := p;
      hide Focus, Nodes, PathNodes;
      if w.red {
        RedSiblingLeft(w, temp.parent, temp, t, p);
        RedSiblingKeeps(t, p, h);
        RedSiblingOrder(t, p);
        q := RedSibling(p);
        Surroundings(temp, t, q);
        SiblingFacts(temp, t, q);
        w := temp.parent.right;
      }
    }

    /** Second part of a round, with a black sibling `w` and a red nephew: the last rotations. */
    method SettleLeft(temp: RbNode, w0: RbNode, ghost t: Tree, ghost p: Path, ghost h: nat)
      returns (ghost t': Tree, ghost h': nat)
      requires Focus(temp, t, p) && BlackSibling(t, p, h) && p.onLeft && w0 == p.sibling.id
      requires !sentinel.red && temp.parent == p.id && (IsRed(Near(p)) || IsRed(Far(p)))
      modifies this`root, Nodes(t), PathNodes(p)
      ensures Focus(root, t', Top) && DeleteInv(t', Top, h') && t'.Node? && !sentinel.red
      ensures Nodes(t') == Nodes(t) + PathNodes(p)
      ensures Inorder(t') == Inorder(Plug(p, t))
    {
      var w := w0;
      SiblingFacts(temp, t, p);
      Surroundings(temp, t, p);
      hide Focus, Nodes, PathNodes;
      ghost var q := p;
      if !w.right.red {
        NearRedKeeps(t, p, h);
        NearRedNodes(p);
        NearRedLeft(w, temp, t, p);
        q := NearRed(p);
        Surroundings(temp, t, q);
        SiblingFacts(temp, t, q);
        w := temp.parent.right;
      }
      FarRedKeeps(t, q, h);
      FarRedOrder(t, q);
      FarRedLeft(w, temp.parent, temp, t, q);
      t' := Plug(q.up, FarRed(t, q));
      PlugIsNode(q.up, FarRed(t, q));
      h' := RedBlackHeight(t');
    }

    /** First part of a round: with a red sibling, rotate until the sibling is black. */
    method BlackenSiblingRight(temp: RbNode, ghost t: Tree, ghost p: Path, ghost h: nat)
      returns (w: RbNode, ghost q: Path)
      requires Focus(temp, t, p) && p != Top && !p.onLeft && DeleteInv(t, p, h) && !IsRed(t)
      requires !sentinel.red && temp.parent == p.id
      modifies this`root, Nodes(t), PathNodes(p)
      ensures Focus(temp, t, q) && BlackSibling(t, q, h) && !q.onLeft && w == q.sibling.id
      ensures temp.parent == q.id == p.id && !sentinel.red && PathNodes(q) == PathNodes(p)
      ensures Inorder(Plug(q, t)) == Inorder(Plug(p, t))
      ensures q == p || (q == RedSibling(p) && q.red)
    {
      SiblingIsNode(p, h);
      SiblingFacts(temp, t, p);
      Surroundings(temp, t, p);
      w := temp.parent.left;
      q := p;
      hide Focus, Nodes, PathNodes;
      if w.red {
        RedSiblingRight(w, temp.parent, temp, t, p);
        RedSiblingKeeps(t, p, h);
        RedSiblingOrder(t, p);
        q := RedSibling(p);
        Surroundings(temp, t, q);
        SiblingFacts(temp, t, q);
        w := temp.parent.left;
      }
    }

    /** Second part of a round, with a black sibling `w` and a red nephew: the last rotations. */
    method SettleRight(temp: RbNode, w0: RbNode, ghost t: Tree, ghost p: Path, ghost h: nat)
      returns (ghost t': Tree, ghost h': nat)
      requires Focus(temp, t, p) && BlackSibling(t, p, h) && !p.onLeft && w0 == p.sibling.id
      requires !sentinel.red && temp.parent == p.id && (IsRed(Near(p)) || IsRed(Far(p)))
      modifies this`root, Nodes(t), PathNodes(p)
      ensures Focus(root, t', Top) && DeleteInv(t', Top, h') && t'.Node? && !sentinel.red
      ensures Nodes(t') == Nodes(t) + PathNodes(p)
      ensures Inorder(t') == Inorder(Plug(p, t))
    {
      var w := w0;
      SiblingFacts(temp, t, p);
      Surroundings(temp, t, p);
      hide Focus, Nodes, PathNodes;
      ghost var q := p;
      if !w.left.red {
        NearRedKeeps(t, p, h);
        NearRedNodes(p);
        NearRedRight(w, temp, t, p);
        q := NearRed(p);
        Surroundings(temp, t, q);
        SiblingFacts(temp, t, q);
        w := temp.parent.left;
      }
      FarRedKeeps(t, q, h);
      FarRedOrder(t, q);
      FarRedRight(w, temp.parent, temp, t, q);
      t' := Plug(q.up, FarRed(t, q));
      PlugIsNode(q.up, FarRed(t, q));
      h' := RedBlackHeight(t');
    }

    /** Second part of a round, both nephews black: `rbt_red(w); temp = temp->parent`. */
    method PushUp(temp: RbNode, w: RbNode, ghost t: Tree, ghost p: Path, ghost h: nat)
      returns (temp': RbNode, ghost t': Tree, ghost p': Path, ghost h': nat)
      requires Focus(temp, t, p) && BlackSibling(t, p, h) && w == p.sibling.id
      requires temp.parent == p.id && !IsRed(Near(p)) && !IsRed(Far(p))
      modifies w`red
      ensures Focus(temp', t', p') && DeleteInv(t', p', h') && p' == p.up && t'.Node? && t'.red == p.red
      ensures Nodes(t') + PathNodes(p') == Nodes(t) + PathNodes(p)
      ensures Inorder(Plug(p', t')) == Inorder(Plug(p, t))
    {
      hide Focus, Nodes, PathNodes, Inorder, Plug, Balanced, NoRedRed, PathBalanced, PathNoRedRed, DeleteInv,
        BlackNephews, IsRed;
      PushedUp(t, p, h);
      Surroundings(temp, t, p);
      ColorSibling(w, true, temp, t, p);
      Up(temp, t, p.(sibling := p.sibling.(red := true)));
      temp' := temp.parent;
      t', p', h' := BlackNephews(t, p), p.up, h + Weight(p.red);
    }

    method DeleteStepLeft(temp: RbNode, ghost t: Tree, ghost p: Path, ghost h: nat)
      returns (temp': RbNode, ghost t': Tree, ghost p': Path, ghost h': nat)
      requires Focus(temp, t, p) && p != Top && p.onLeft && DeleteInv(t, p, h) && !IsRed(t)
      requires !sentinel.red && temp.parent == p.id
      modifies this`root, Nodes(t), PathNodes(p)
      ensures Focus(temp', t', p') && DeleteInv(t', p', h') && t'.Node? && !sentinel.red
      ensures Nodes(t') + PathNodes(p') == Nodes(t) + PathNodes(p)
      ensures Inorder(Plug(p', t')) == Inorder(Plug(p, t)) && Work(t', p') < Work(t, p)
    {
      var w, q := BlackenSiblingLeft(temp, t, p, h);
      SiblingFacts(temp, t, q);
      hide Focus, Nodes, PathNodes, DeleteInv, BlackNephews;
      if !w.left.red && !w.right.red {
        temp', t', p', h' := PushUp(temp, w, t, q, h);
      } else {
        t', h' := SettleLeft(temp, w, t, q, h);
        temp', p' := root, Top;
        TopNodes(t');
      }
    }

    method DeleteStepRight(temp: RbNode, ghost t: Tree, ghost p: Path, ghost h: nat)
      returns (temp': RbNode, ghost t': Tree, ghost p': Path, ghost h': nat)
      requires Focus(temp, t, p) && p != Top && !p.onLeft && DeleteInv(t, p, h) && !IsRed(t)
      requires !sentinel.red && temp.parent == p.id
      modifies this`root, Nodes(t), PathNodes(p)
      ensures Focus(temp', t', p') && DeleteInv(t', p', h') && t'.Node? && !sentinel.red
      ensures Nodes(t') + PathNodes(p') == Nodes(t) + PathNodes(p)
      ensures Inorder(Plug(p', t')) == Inorder(Plug(p, t)) && Work(t', p') < Work(t, p)
    {
      var w, q := BlackenSiblingRight(temp, t, p, h);
      SiblingFacts(temp, t, q);
      hide Focus, Nodes, PathNodes, DeleteInv, BlackNephews;
      if !w.left.red && !w.right.red {
        temp', t', p', h' := PushUp(temp, w, t, q, h);
      } else {
        t', h' := SettleRight(temp, w, t, q, h);
        temp', p' := root, Top;
        TopNodes(t');
      }
    }

    /** `rbt_black(temp)` where `temp` may be the sentinel, which is black already. */
    method Blacken(x: RbNode, ghost t: Tree, ghost p: Path)
      requires Focus(x, t, p) && !sentinel.red
      modifies x`red
      ensures Focus(x, Blackened(t), p) && !sentinel.red
    {
      Surroundings(x, t, p);
      x.red := false;
    }

    /** The sentinel's parent, which is meaningful only while the sentinel is the focus. */
    ghost predicate ParentKnown(t: Tree, p: Path)
      reads sentinel
    {
      t.Leaf? && p != Top ==> sentinel.parent == p.id
    }

    method DeleteFixup(start: RbNode, ghost t0: Tree, ghost p0: Path, ghost h0: nat)
      requires Focus(start, t0, p0) && DeleteInv(t0, p0, h0) && !sentinel.red && ParentKnown(t0, p0)
      requires Sorted(Inorder(Plug(p0, t0)))
      modifies this, sentinel`red, Nodes(t0), PathNodes(p0)
      ensures Valid() && Order() == Inorder(Plug(p0, t0)) && Nodes(shape) == Nodes(t0) + PathNodes(p0)
    {
      hide Focus, Nodes, PathNodes, Inorder, Plug, Balanced, NoRedRed, PathBalanced, PathNoRedRed, Sorted, IsRedBlack,
        Blackened, Work;
      var temp := start;
      ghost var t, p, h := t0, p0, h0;
      Surroundings(temp, t, p);
      while temp != root && !temp.red
        invariant Focus(temp, t, p) && DeleteInv(t, p, h) && !sentinel.red && ParentKnown(t, p)
        invariant temp == root <==> p == Top
        invariant temp.red == IsRed(t)
        invariant Nodes(t) + PathNodes(p) == Nodes(t0) + PathNodes(p0)
        invariant Inorder(Plug(p, t)) == Inorder(Plug(p0, t0))
        decreases Work(t, p)
      {
        SideOf(temp, t, p, h);
        if temp == temp.parent.left {
          temp, t, p, h := DeleteStepLeft(temp, t, p, h);
        } else {
          temp, t, p, h := DeleteStepRight(temp, t, p, h);
        }
        Surroundings(temp, t, p);
      }
      DeleteEnd(temp, t, p, h);
    }

    /** `rbt_black(temp)` */
    method DeleteEnd(temp: RbNode, ghost t: Tree, ghost p: Path, ghost h: nat)
      requires Focus(temp, t, p) && DeleteInv(t, p, h) && (p == Top || IsRed(t)) && !sentinel.red
      requires Sorted(Inorder(Plug(p, t)))
      modifies this, sentinel`red, Nodes(t), PathNodes(p)
      ensures Valid() && Order() == Inorder(Plug(p, t)) && Nodes(shape) == Nodes(t) + PathNodes(p)
    {
      hide Focus, Nodes, PathNodes, Inorder, Plug, Balanced, NoRedRed, PathBalanced, PathNoRedRed, Sorted, IsRedBlack,
        Blackened;
      Surroundings(temp, t, p);
      if t.Node? {
        PlugIsNode(Top, t);
        TopNodes(t);
      }
      DeleteDone(t, p, h);
      DeleteDoneOrder(t, p);
      Blacken(temp, t, p);
      Ascend(temp, Blackened(t), p);
      shape := Plug(p, Blackened(t));
    }

    /** The test `temp == temp->parent->left` finds the side, also when `temp` is the sentinel:
        the sibling of a focus that is one black node short cannot be the sentinel. */
    lemma SideOf(x: RbNode, t: Tree, p: Path, h: nat)
      requires Focus(x, t, p) && p != Top && PathBalanced(p, h + 1) && ParentKnown(t, p)
      ensures x.parent == p.id && (x == p.id.left <==> p.onLeft)
    {}

    // ---- rbtree_delete ----

    /** A node of the tree as focus. */
    lemma {:induction false} Locate(x: RbNode?, t: Tree, p: Path, n: RbNode) returns (s: Tree, q: Path)
      requires Focus(x, t, p) && n in Nodes(t)
      ensures Focus(n, s, q) && s.Node? && s.id == n && Plug(q, s) == Plug(p, t)
      ensures Nodes(s) + PathNodes(q) == Nodes(t) + PathNodes(p)
      decreases t
    {
      if n == t.id {
        s, q := t, p;
      } else if n in Nodes(t.left) {
        DownLeft(x, t, p);
        s, q := Locate(t.id.left, t.left, Step(true, t.id, t.key, t.red, t.right, p), n);
      } else {
        DownRight(x, t, p);
        s, q := Locate(t.id.right, t.right, Step(false, t.id, t.key, t.red, t.left, p), n);
      }
    }

    lemma Children(x: RbNode, t: Tree, p: Path)
      requires Focus(x, t, p) && t.Node?
      ensures x.left != null && x.right != null
      ensures x.key == t.key
      ensures if t.left.Leaf? then x.left == sentinel else x.left == t.left.id && x.left != sentinel
      ensures if t.right.Leaf? then x.right == sentinel else x.right == t.right.id && x.right != sentinel
    {
      assert TreeAt(x.left, t.left, x, sentinel) && TreeAt(x.right, t.right, x, sentinel);
      assert t.left.Node? ==> t.left.id in Nodes(t.left);
      assert t.right.Node? ==> t.right.id in Nodes(t.right);
    }

    /** rbtree_min, from the right child of a node: the leftmost node below it. */
    method Min(start: RbNode, ghost t: Tree, ghost base: Path) returns (node: RbNode, ghost s: Tree, ghost q: Path)
      requires Focus(start, t, base) && t.Node?
      ensures Focus(node, s, Append(q, base)) && s.Node? && s.left == Leaf && AllLeft(q)
      ensures Plug(q, s) == t && node.left == sentinel && s.id == node
      ensures Nodes(s) + PathNodes(Append(q, base)) == Nodes(t) + PathNodes(base)
    {
      node := start;
      s, q := t, Top;
      Children(node, s, base);
      while node.left != sentinel
        invariant node.left != null && s.Node? && (node.left == sentinel <==> s.left == Leaf)
        invariant Focus(node, s, Append(q, base)) && s.id == node && AllLeft(q) && Plug(q, s) == t
        invariant Nodes(s) + PathNodes(Append(q, base)) == Nodes(t) + PathNodes(base)
        decreases s
      {
        DownLeft(node, s, Append(q, base));
        q := Step(true, s.id, s.key, s.red, s.right, q);
        s := s.left;
        node := node.left;
        Children(node, s, Append(q, base));
      }
    }

    /** The two subtrees below `subst` name it as their parent. */
    method AdoptBoth(subst: RbNode, ghost node: RbNode, ghost l: Tree, ghost r: Tree, ghost p: Path)
      requires Parts(node, subst, l, r, Leaf, p)
      requires TreeAt(subst.left, l, null, sentinel) && TreeAt(subst.right, r, null, sentinel)
      requires subst.left != null && subst.right != null
      requires PathAt(p, subst, root, sentinel)
      modifies (if l.Leaf? then {} else {l.id})`parent, (if r.Leaf? then {} else {r.id})`parent
      ensures TreeAt(subst.left, l, subst, sentinel) && TreeAt(subst.right, r, subst, sentinel)
      ensures PathAt(p, subst, root, sentinel)
    {
      assert l.Node? ==> l.id in Nodes(l);
      assert r.Node? ==> r.id in Nodes(r);
      hide TreeAt, PathAt, Nodes, PathNodes, Distinct, PathDistinct;
      assert allocated(Nodes(l)) && allocated(Nodes(r)) && allocated(PathNodes(p));
      SetParent(subst.left, subst, l);
      SetParent(subst.right, subst, r);
    }

    method TakePlace(node: RbNode, subst: RbNode, ghost l: Tree, ghost r: Tree, ghost p: Path)
      requires Parts(node, subst, l, r, Leaf, p)
      requires TreeAt(node.left, l, null, sentinel) && TreeAt(node.right, r, null, sentinel)
      requires node.left != null && node.right != null
      requires PathAt(p, node, root, sentinel) && (p != Top ==> node.parent == p.id)
      modifies this`root, subst`left, subst`right, subst`parent, subst`red, PathNodes(p)`left, PathNodes(p)`right
      ensures TreeAt(subst.left, l, null, sentinel) && TreeAt(subst.right, r, null, sentinel)
      ensures PathAt(p, subst, root, sentinel) && subst.parent == node.parent
      ensures subst.red == node.red && subst.left == node.left && subst.right == node.right
    {
      hide TreeAt, PathAt, Nodes, PathNodes, Distinct, PathDistinct;
      subst.left := node.left;
      subst.right := node.right;
      subst.parent := node.parent;
      subst.red := node.red;
      assert allocated(Nodes(l)) && allocated(Nodes(r)) && allocated(PathNodes(p));
      ReplaceChild(node, subst, p);
    }

    /** The successor `subst` replaces `node` at the focus: links, colour and parent's child pointer. */
    method Replace(node: RbNode, subst: RbNode, ghost l: Tree, ghost r: Tree, ghost p: Path)
      requires Parts(node, subst, l, r, Leaf, p)
      requires TreeAt(node.left, l, null, sentinel) && TreeAt(node.right, r, null, sentinel)
      requires node.left != null && node.right != null
      requires PathAt(p, node, root, sentinel) && (p != Top ==> node.parent == p.id)
      modifies this`root, subst`left, subst`right, subst`parent, subst`red, PathNodes(p)`left, PathNodes(p)`right
      modifies (if l.Leaf? then {} else {l.id})`parent, (if r.Leaf? then {} else {r.id})`parent
      ensures TreeAt(subst.left, l, subst, sentinel) && TreeAt(subst.right, r, subst, sentinel)
      ensures PathAt(p, subst, root, sentinel) && (p != Top ==> subst.parent == p.id)
      ensures subst.red == old(node.red)
    {
      assert l.Node? ==> l.id != subst;
      assert r.Node? ==> r.id != subst;
      hide TreeAt, PathAt, Nodes, PathNodes, Distinct, PathDistinct;
      TakePlace(node, subst, l, r, p);
      AdoptBoth(subst, node, l, r, p);
    }

    /** The pointer that stands for a tree. */
    ghost function Pointer(t: Tree): RbNode
    {
      if t.Leaf? then sentinel else t.id
    }

    lemma {:induction false} AscendTo(x: RbNode?, t: Tree, q: Path, base: Path)
      requires Focus(x, t, Append(q, base))
      ensures Focus(Pointer(Plug(q, t)), Plug(q, t), base)
      ensures Nodes(Plug(q, t)) + PathNodes(base) == Nodes(t) + PathNodes(Append(q, base))
      decreases q
    {
      if q == Top {
        Surroundings(x, t, base);
      } else {
        Up(x, t, Append(q, base));
        AscendTo(q.id, Join(q, t), q.up, base);
      }
    }

    lemma {:induction false} DescendTo(x: RbNode?, t: Tree, q: Path, base: Path)
      requires Focus(x, Plug(q, t), base)
      ensures Focus(Pointer(t), t, Append(q, base))
      ensures Nodes(Plug(q, t)) + PathNodes(base) == Nodes(t) + PathNodes(Append(q, base))
      decreases q
    {
      if q == Top {
        Surroundings(x, t, base);
      } else {
        var j, up := Join(q, t), Append(q.up, base);
        DescendTo(x, j, q.up, base);
        Surroundings(q.id, j, up);
        if q.onLeft { DownLeft(q.id, j, up); } else { DownRight(q.id, j, up); }
        Surroundings(if q.onLeft then q.id.left else q.id.right, t, Append(q, base));
      }
    }

    lemma OnlyChildFacts(x: RbNode, s: Tree, c: Tree, q: Path)
      requires Focus(x, s, q) && OnlyChild(s, c)
      ensures TreeAt(Pointer(c), c, null, sentinel) && Separate(c, q) && Nodes(c) == Nodes(s) - {x}
      ensures sentinel !in Nodes(c) && x !in Nodes(c) && (c.Node? ==> c.id in Nodes(c))
    {
      if s.left == Leaf {
        assert TreeAt(x.right, s.right, x, sentinel);
      } else {
        assert TreeAt(x.left, s.left, x, sentinel);
      }
    }

    /** Unlink `subst` from its parent and put `temp` in its place. */
    method Unlink(subst: RbNode, temp: RbNode, ghost s: Tree, ghost q: Path)
      requires Focus(subst, s, q) && s.Node? && q != Top
      modifies q.id`left, q.id`right
      ensures PathAt(q, temp, root, sentinel)
    {
      Surroundings(subst, s, q);
      if subst == subst.parent.left {
        subst.parent.left := temp;
      } else {
        subst.parent.right := temp;
      }
    }

    /** `temp->parent = holder`, also for the sentinel. */
    method Adopt(temp: RbNode, holder: RbNode, ghost c: Tree)
      requires Distinct(c) && TreeAt(temp, c, null, sentinel)
      modifies temp`parent
      ensures TreeAt(temp, c, holder, sentinel) && temp.parent == holder
    {
      temp.parent := holder;
    }

    /** `Unlink`, and the new parent of `temp`, which may be the sentinel. */
    method Splice(subst: RbNode, temp: RbNode, holder: RbNode, ghost s: Tree, ghost c: Tree, ghost q: Path)
      requires Focus(subst, s, q) && q != Top && OnlyChild(s, c) && temp == Pointer(c)
      modifies temp`parent, q.id`left, q.id`right
      ensures TreeAt(temp, c, holder, sentinel) && PathAt(q, temp, root, sentinel) && temp.parent == holder
      ensures Separate(c, q) && Nodes(c) == Nodes(s) - {subst} && subst !in Nodes(c)
    {
      OnlyChildFacts(subst, s, c, q);
      assert q.id in PathNodes(q) && q.id !in Nodes(c);
      assert temp !in PathNodes(q);
      hide Focus, TreeAt, PathAt, Nodes, PathNodes;
      assert allocated(Nodes(c)) && allocated(PathNodes(q));
      Unlink(subst, temp, s, q);
      Adopt(temp, holder, c);
    }

    method FinishRed(temp: RbNode, ghost c: Tree, ghost p: Path, ghost h: nat)
      requires Focus(temp, c, p) && Spliced(true, c, p, h) && !sentinel.red && Sorted(Inorder(Plug(p, c)))
      modifies this`shape
      ensures Valid() && shape == Plug(p, c) && Nodes(shape) == Nodes(c) + PathNodes(p)
    {
      Ascend(temp, c, p);
      PlugIsRedBlack(p, c, h);
      shape := Plug(p, c);
    }

    /** The end of rbtree_delete: clear the node's fields, then restore the balance if it was black. */
    method Finish(node: RbNode, temp: RbNode, red: bool, ghost c: Tree, ghost p: Path, ghost h: nat)
      requires Focus(temp, c, p) && Spliced(red, c, p, h) && !sentinel.red && ParentKnown(c, p)
      requires Sorted(Inorder(Plug(p, c))) && node != sentinel && node !in Nodes(c) + PathNodes(p)
      modifies this, node, sentinel`red, Nodes(c), PathNodes(p)
      ensures Valid() && Order() == Inorder(Plug(p, c)) && Nodes(shape) == Nodes(c) + PathNodes(p)
      ensures node.left == null && node.right == null && node.parent == null && node.key == 0
    {
      hide Focus, Nodes, PathNodes, Sorted, Inorder, Valid, Plug;
      node.left := null;
      node.right := null;
      node.parent := null;
      node.key := 0;
      if red {
        FinishRed(temp, c, p, h);
        return;
      }
      DeleteFixup(temp, c, p, h);
    }

    /** Splicing when `temp` inherits the parent of `subst`. */
    method SpliceHere(subst: RbNode, temp: RbNode, ghost s: Tree, ghost c: Tree, ghost q: Path)
      requires Focus(subst, s, q) && q != Top && OnlyChild(s, c) && temp == Pointer(c)
      modifies temp`parent, q.id`left, q.id`right
      ensures Focus(temp, c, q) && ParentKnown(c, q)
      ensures Nodes(c) == Nodes(s) - {subst} && subst !in Nodes(c)
    {
      Surroundings(subst, s, q);
      OnlyChildFacts(subst, s, c, q);
      Splice(subst, temp, subst.parent, s, c, q);
    }

    lemma DeleteRootFacts(node: RbNode, c: Tree)
      requires Valid() && node == root && node != sentinel && OnlyChild(shape, c)
      ensures IsRedBlack(Blackened(c)) && Sorted(Inorder(Blackened(c)))
      ensures Inorder(Blackened(c)) == Without(Inorder(shape), node)
      ensures Nodes(Blackened(c)) == Nodes(c) == Nodes(shape) - {node} && sentinel !in Nodes(c)
      ensures Distinct(c) && TreeAt(Pointer(c), c, null, sentinel) && node !in Nodes(c)
      ensures PathNodes(Top) == {} && !sentinel.red
    {
      Surroundings(node, shape, Top);
      OnlyChildFacts(node, shape, c, Top);
      var h := SplicedInv(shape, Top, c);
      assert !shape.red;
      DeleteDone(c, Top, h);
      SplicedOrder(shape, Top, c);
      DeleteDoneOrder(c, Top);
    }

    /** `subst == *root`: the node is the root and has at most one child. */
    method DeleteRoot(node: RbNode, temp: RbNode, ghost c: Tree)
      requires Valid() && node == root && node != sentinel && OnlyChild(shape, c) && temp == Pointer(c)
      modifies this, node, temp`red
      ensures Valid() && Order() == Without(old(Order()), node) && Nodes(shape) == old(Nodes(shape)) - {node}
      ensures node.left == null && node.right == null && node.parent == null && node.key == 0
    {
      DeleteRootFacts(node, c);
      hide Inorder, Without, Sorted, IsRedBlack, OnlyChild, Nodes, PathNodes, Focus, Valid, TreeAt, PathAt, Distinct;
      NewRoot(temp, c);
      ClearNode(node, Blackened(c));
      shape := Blackened(c);
      IsValid();
    }

    /** The links of the deleted node are cleared; the tree does not see it. */
    method ClearNode(node: RbNode, ghost t: Tree)
      requires Focus(root, t, Top) && node !in Nodes(t) && node != sentinel
      modifies node
      ensures Focus(root, t, Top) && node.left == null && node.right == null && node.parent == null && node.key == 0
      ensures node.red == old(node.red)
    {
      TopNodes(t);
      hide Nodes, PathNodes, Focus;
      node.left := null;
      node.right := null;
      node.parent := null;
      node.key := 0;
    }

    /** `*root = temp; rbt_black(temp)`: the new root keeps whatever parent it had. */
    method NewRoot(temp: RbNode, ghost c: Tree)
      requires Distinct(c) && TreeAt(temp, c, null, sentinel) && temp == Pointer(c) && sentinel !in Nodes(c)
      requires !sentinel.red
      modifies this`root, temp`red
      ensures Focus(root, Blackened(c), Top) && !sentinel.red
    {
      root := temp;
      temp.red := false;
    }

    lemma DeleteSingleFacts(x: RbNode, t: Tree, p: Path, c: Tree) returns (h: nat)
      requires Valid() && Focus(x, t, p) && p != Top && OnlyChild(t, c) && Plug(p, t) == shape
      ensures x == t.id && x != sentinel && x.red == t.red && x !in PathNodes(p) && p.id in PathNodes(p)
      ensures Inorder(Plug(p, c)) == Without(Inorder(shape), x) && Sorted(Inorder(Plug(p, c)))
      ensures Pointer(c) in Nodes(t) + {sentinel} && x in Nodes(t) && !sentinel.red
      ensures sentinel !in Nodes(t) && sentinel !in PathNodes(p) && Spliced(t.red, c, p, h)
    {
      Surroundings(x, t, p);
      SplicedOrder(t, p, c);
      h := SplicedInv(t, p, c);
    }

    /** `subst == node` below the root: the node has at most one child, `temp`. */
    method DeleteSingle(node: RbNode, temp: RbNode, ghost t: Tree, ghost p: Path, ghost c: Tree)
      requires Valid() && Focus(node, t, p) && p != Top && Plug(p, t) == shape
      requires OnlyChild(t, c) && temp == Pointer(c)
      requires Nodes(t) + PathNodes(p) == Nodes(shape)
      modifies this, node, sentinel, Nodes(shape)
      ensures Valid() && Order() == Without(old(Order()), node) && Nodes(shape) == old(Nodes(shape)) - {node}
      ensures node.left == null && node.right == null && node.parent == null && node.key == 0
    {
      hide Focus, OnlyChild, Inorder, Nodes, PathNodes, Sorted, Valid, Without, Plug, Spliced, ParentKnown, Pointer;
      ghost var h := DeleteSingleFacts(node, t, p, c);
      var red := node.red;
      SpliceHere(node, temp, t, c, p);
      Finish(node, temp, red, c, p, h);
    }

    /** `subst` in the place of `node`, with the subtree `r` on its right as focus. */
    method Substitute(node: RbNode, subst: RbNode, ghost r: Tree, ghost t: Tree, ghost p: Path)
      requires Vacant(node, subst, r, t, p)
      modifies this`root, subst`left, subst`right, subst`parent, subst`red, PathNodes(p)`left, PathNodes(p)`right
      modifies (if t.left.Leaf? then {} else {t.left.id})`parent, (if r.Leaf? then {} else {r.id})`parent
      ensures Focus(subst.right, r, Step(false, subst, subst.key, t.red, t.left, p))
    {
      Replace(node, subst, t.left, r, p);
    }

    ghost function Base(t: Tree, p: Path): Path
      requires t.Node?
    {
      Step(false, t.id, t.key, t.red, t.left, p)
    }

    /** The node `node` about to be replaced: its subtrees `l` and `r`, its path, and `subst` beside them. */
    ghost predicate Vacant(node: RbNode, subst: RbNode, r: Tree, t: Tree, p: Path)
      reads this, node, Nodes(t), Nodes(r), PathNodes(p)
    {
      && t.Node? && node == t.id && Parts(node, subst, t.left, r, Leaf, p)
      && TreeAt(node.left, t.left, null, sentinel) && TreeAt(node.right, r, null, sentinel)
      && PathAt(p, node, root, sentinel) && (p != Top ==> node.parent == p.id) && node.red == t.red
      && node.left != null && node.right != null
    }

    lemma VacantFromFocus(x: RbNode?, node: RbNode, subst: RbNode, r: Tree, t: Tree, p: Path)
      requires t.Node? && node == t.id && Focus(x, r, Base(t, p))
      requires subst !in Nodes(r) && subst !in PathNodes(Base(t, p)) && subst != sentinel
      ensures Vacant(node, subst, r, t, p)
    {}

    /** The successor is `node`'s own right child and becomes the parent of `temp`. */
    method SpliceChild(node: RbNode, subst: RbNode, temp: RbNode, ghost t: Tree, ghost p: Path, ghost s: Tree)
      requires t.Node? && node == t.id && s.Node? && subst == s.id && s.left == Leaf && temp == Pointer(s.right)
      requires Focus(subst, s, Base(t, p))
      modifies temp`parent, node`left, node`right
      ensures Vacant(node, subst, s.right, t, p) && temp.parent == subst
      ensures Nodes(s.right) + PathNodes(Base(t, p)) == Nodes(s) + PathNodes(Base(t, p)) - {subst}
    {
      Surroundings(subst, s, Base(t, p));
      OnlyChildFacts(subst, s, s.right, Base(t, p));
      Splice(subst, temp, subst, s, s.right, Base(t, p));
    }

    method SpliceDeep(node: RbNode, subst: RbNode, temp: RbNode, ghost t: Tree, ghost p: Path, ghost q: Path,
                      ghost s: Tree)
      requires t.Node? && node == t.id && s.Node? && subst == s.id && s.left == Leaf && temp == Pointer(s.right)
      requires q != Top && Focus(subst, s, Append(q, Base(t, p)))
      modifies temp`parent, q.id`left, q.id`right
      ensures Vacant(node, subst, Plug(q, s.right), t, p)
      ensures Nodes(Plug(q, s.right)) + PathNodes(Base(t, p)) == Nodes(s) + PathNodes(Append(q, Base(t, p))) - {subst}
      ensures s.right.Leaf? ==> sentinel.parent == q.id
    {
      ghost var b := Base(t, p);
      ghost var full := Append(q, b);
      Surroundings(subst, s, full);
      OnlyChildFacts(subst, s, s.right, full);
      BaseOnPath(q, b);
      assert subst !in PathNodes(full);
      SpliceHere(subst, temp, s, s.right, full);
      hide Focus;
      AscendTo(temp, s.right, q, b);
      VacantFromFocus(Pointer(Plug(q, s.right)), node, subst, Plug(q, s.right), t, p);
    }

    /** The successor leaves its place; it is `node`'s own child when `q` is `Top`. */
    method SpliceSuccessor(node: RbNode, subst: RbNode, temp: RbNode, ghost t: Tree, ghost p: Path, ghost q: Path,
                           ghost s: Tree)
      requires t.Node? && node == t.id && s.Node? && subst == s.id && s.left == Leaf && temp == Pointer(s.right)
      requires Focus(subst, s, Append(q, Base(t, p)))
      modifies sentinel`parent, Nodes(s)`parent, PathNodes(Append(q, Base(t, p)))`left,
        PathNodes(Append(q, Base(t, p)))`right
      ensures Vacant(node, subst, Plug(q, s.right), t, p)
      ensures Nodes(Plug(q, s.right)) + PathNodes(Base(t, p)) == Nodes(s) + PathNodes(Append(q, Base(t, p))) - {subst}
      ensures s.right.Leaf? ==> sentinel.parent == if q == Top then subst else q.id
    {
      ghost var full := Append(q, Base(t, p));
      Surroundings(subst, s, full);
      BaseOnPath(q, Base(t, p));
      SuccessorNodes(t, p, q, s);
      hide Focus, Nodes, PathNodes;
      if subst.parent == node {
        SpliceChild(node, subst, temp, t, p, s);
      } else {
        SpliceDeep(node, subst, temp, t, p, q, s);
      }
    }

    lemma SuccessorNodes(t: Tree, p: Path, q: Path, s: Tree)
      requires t.Node? && s.Node? && s.left == Leaf && PathDistinct(Append(q, Base(t, p)))
      ensures s.right.Node? ==> s.right.id in Nodes(s)
      ensures q != Top ==> q.id in PathNodes(Append(q, Base(t, p)))
      ensures t.id in PathNodes(Append(q, Base(t, p)))
    {}

    /** The successor's new place: the base of its own old path. */
    ghost function NewBase(s: Tree, t: Tree, p: Path): Path
      requires s.Node? && t.Node?
    {
      Step(false, s.id, s.key, t.red, t.left, p)
    }

    /** Unlink the successor and put it where `node` is; the focus is the place it left. */
    method MoveSuccessor(node: RbNode, subst: RbNode, temp: RbNode, ghost t: Tree, ghost p: Path, ghost q: Path,
                         ghost s: Tree)
      requires t.Node? && node == t.id && s.Node? && subst == s.id && s.left == Leaf && temp == Pointer(s.right)
      requires Focus(subst, s, Append(q, Base(t, p)))
      modifies this`root, sentinel`parent, Nodes(s), PathNodes(Append(q, Base(t, p)))
      ensures Focus(temp, s.right, Append(q, NewBase(s, t, p))) && ParentKnown(s.right, Append(q, NewBase(s, t, p)))
      ensures Nodes(s.right) + PathNodes(Append(q, NewBase(s, t, p)))
        == Nodes(s) + PathNodes(Append(q, Base(t, p))) - {node}
      ensures sentinel.red == old(sentinel.red)
    {
      hide Focus, Nodes, PathNodes, Vacant, Plug, Pointer, Append, ParentKnown, TreeAt, PathAt;
      ghost var r, b := Plug(q, s.right), Base(t, p);
      MoveFacts(node, subst, t, p, q, s);
      SpliceSuccessor(node, subst, temp, t, p, q, s);
      MoreMoveFacts(node, subst, r, t, p, Nodes(s) + PathNodes(Append(q, b)), s);
      Substitute(node, subst, r, t, p);
      assert Step(false, subst, subst.key, t.red, t.left, p) == NewBase(s, t, p);
      MoveDone(subst.right, s, t, p, q);
    }

    lemma MoveDone(x: RbNode?, s: Tree, t: Tree, p: Path, q: Path)
      requires s.Node? && t.Node? && Focus(x, Plug(q, s.right), NewBase(s, t, p))
      requires s.right.Leaf? ==> sentinel.parent == if q == Top then s.id else q.id
      ensures var full := Append(q, NewBase(s, t, p));
        && Focus(Pointer(s.right), s.right, full) && ParentKnown(s.right, full)
        && Nodes(s.right) + PathNodes(full) == Nodes(Plug(q, s.right)) + PathNodes(NewBase(s, t, p))
    {
      DescendTo(x, s.right, q, NewBase(s, t, p));
    }

    lemma MoveFacts(node: RbNode, subst: RbNode, t: Tree, p: Path, q: Path, s: Tree)
      requires t.Node? && node == t.id && s.Node? && subst == s.id && s.left == Leaf
      requires Focus(subst, s, Append(q, Base(t, p)))
      ensures var all := Nodes(s) + PathNodes(Append(q, Base(t, p)));
        subst in all && subst in Nodes(s) && PathNodes(p) <= PathNodes(Append(q, Base(t, p)))
      ensures subst.key == s.key
    {
      BaseOnPath(q, Base(t, p));
    }

    lemma MoreMoveFacts(node: RbNode, subst: RbNode, r: Tree, t: Tree, p: Path, all: set<RbNode>, s: Tree)
      requires s.Node? && subst == s.id && subst in all && Vacant(node, subst, r, t, p)
      requires Nodes(r) + PathNodes(Base(t, p)) == all - {subst}
      ensures Nodes(r) + PathNodes(NewBase(s, t, p)) == all - {node}
      ensures t.left.Node? ==> t.left.id in all && t.left.id != sentinel
      ensures r.Node? ==> r.id in all && r.id != sentinel
      ensures subst != sentinel
    {
    }

    /** Two children: the leftmost node of the right subtree takes the place of `node`. */
    method DeleteDouble(node: RbNode, subst: RbNode, temp: RbNode, ghost t: Tree, ghost p: Path, ghost q: Path,
                        ghost s: Tree)
      requires Valid() && Focus(node, t, p) && t.Node? && Plug(p, t) == shape && Nodes(t) + PathNodes(p) == Nodes(shape)
      requires s.Node? && subst == s.id && s.left == Leaf && temp == Pointer(s.right)
      requires Focus(subst, s, Append(q, Base(t, p))) && Plug(q, s) == t.right && AllLeft(q)
      requires Nodes(s) + PathNodes(Append(q, Base(t, p))) == Nodes(shape)
      modifies this, sentinel, Nodes(shape)
      ensures Valid() && Order() == Without(old(Order()), node) && Nodes(shape) == old(Nodes(shape)) - {node}
      ensures node.left == null && node.right == null && node.parent == null && node.key == 0
    {
      ghost var h := DoubleFacts(node, subst, t, p, q, s);
      var red := subst.red;
      assert !sentinel.red && node in Nodes(t);
      hide Focus, Nodes, PathNodes, Sorted, Inorder, Valid, Without, Plug, Append, Spliced;
      MoveSuccessor(node, subst, temp, t, p, q, s);
      Finish(node, temp, red, s.right, Append(q, NewBase(s, t, p)), h);
    }

    lemma DoubleFacts(node: RbNode, subst: RbNode, t: Tree, p: Path, q: Path, s: Tree) returns (h: nat)
      requires Focus(node, t, p) && t.Node? && IsRedBlack(Plug(p, t)) && Sorted(Inorder(Plug(p, t)))
      requires s.Node? && subst == s.id && s.left == Leaf
      requires Focus(subst, s, Append(q, Base(t, p))) && Plug(q, s) == t.right && AllLeft(q)
      ensures var full := Append(q, NewBase(s, t, p));
        && Spliced(s.red, s.right, full, h)
        && Inorder(Plug(full, s.right)) == Without(Inorder(Plug(p, t)), node) && Sorted(Inorder(Plug(full, s.right)))
      ensures node == t.id && subst.red == s.red && node != sentinel
    {
      hide TreeAt, PathAt, Sorted, IsRedBlack, Inorder, Without, Spliced, AllLeft, Plug, Append;
      Surroundings(node, t, p);
      Surroundings(subst, s, Append(q, Base(t, p)));
      SuccessorOrder(t, p, q, s);
      h := SuccessorSpliced(t, p, q, s);
    }

    method Delete(node: RbNode)
      requires Valid() && node in Nodes(shape)
      modifies this, sentinel, Nodes(shape)
      ensures Valid() && Order() == Without(old(Order()), node)
      ensures Nodes(shape) == old(Nodes(shape)) - {node}
      ensures node.left == null && node.right == null && node.parent == null && node.key == 0
    {
      ghost var t, p := Locate(root, shape, Top, node);
      Children(node, t, p);
      Surroundings(node, t, p);
      if node.left == sentinel {
        DeleteAtMostOne(node, node.right, t, p, t.right);
      } else if node.right == sentinel {
        DeleteAtMostOne(node, node.left, t, p, t.left);
      } else {
        DeleteBoth(node, t, p);
      }
    }

    /** The node has two children. */
    method DeleteBoth(node: RbNode, ghost t: Tree, ghost p: Path)
      requires Valid() && Focus(node, t, p) && t.Node? && t.left.Node? && t.right.Node?
      requires Plug(p, t) == shape && Nodes(t) + PathNodes(p) == Nodes(shape)
      modifies this, sentinel, Nodes(shape)
      ensures Valid() && Order() == Without(old(Order()), node) && Nodes(shape) == old(Nodes(shape)) - {node}
      ensures node.left == null && node.right == null && node.parent == null && node.key == 0
    {
      Children(node, t, p);
      DownRight(node, t, p);
      assert Step(false, t.id, t.key, t.red, t.left, p) == Base(t, p);
      ghost var s, q;
      var subst;
      hide Focus, Nodes, PathNodes, Sorted, Inorder, Without, Plug, Append, AllLeft, Valid;
      assert allocated(Nodes(shape)) && allocated(Nodes(t)) && allocated(PathNodes(p));
      subst, s, q := Min(node.right, t.right, Base(t, p));
      Children(subst, s, Append(q, Base(t, p)));
      assert subst.left == sentinel;  // rbtree_min stopped there, so `temp` is always the right child
      var temp: RbNode := subst.right;
      DeleteDouble(node, subst, temp, t, p, q, s);
    }

    /** The node has at most one child: it is unlinked itself. */
    method DeleteAtMostOne(node: RbNode, temp: RbNode, ghost t: Tree, ghost p: Path, ghost c: Tree)
      requires Valid() && Focus(node, t, p) && Plug(p, t) == shape && Nodes(t) + PathNodes(p) == Nodes(shape)
      requires OnlyChild(t, c) && temp == Pointer(c)
      modifies this, sentinel, Nodes(shape)
      ensures Valid() && Order() == Without(old(Order()), node) && Nodes(shape) == old(Nodes(shape)) - {node}
      ensures node.left == null && node.right == null && node.parent == null && node.key == 0
    {
      DeleteAtMostOneFacts(node, t, p, c);
      hide Focus, Nodes, Inorder, Without;
      if node == root {
        DeleteRoot(node, temp, c);
      } else {
        DeleteSingle(node, temp, t, p, c);
      }
    }

    lemma DeleteAtMostOneFacts(node: RbNode, t: Tree, p: Path, c: Tree)
      requires Focus(node, t, p) && OnlyChild(t, c) && Plug(p, t) == shape && Nodes(t) + PathNodes(p) == Nodes(shape)
      ensures node in Nodes(shape) && Pointer(c) in Nodes(shape) + {sentinel} && node != sentinel
      ensures node == root ==> p == Top && t == shape
      ensures node != root ==> p != Top
    {
      Surroundings(node, t, p);
    }

    /** rbtree_find, with the number of steps down that it takes. */
    method Find(key: Key) returns (found: RbNode?, ghost steps: nat)
      requires Valid()
      ensures Valid()
      ensures found != null ==> found in Nodes(shape) && found.key == key && Entry(found, key) in Order()
      ensures found == null <==> forall e :: e in Order() ==> e.key != key
      ensures steps == Visits(shape, key) && Pow2(steps) <= (|Order()| + 1) * (|Order()| + 1)
    {
      hide Valid, Focus, Sorted, Inorder, Nodes, PathNodes, Plug, Before, After, IsRedBlack, Pow2, AllBelow, AllAbove;
      TopFocus();
      Sortedness();
      SearchCost(shape, key);
      SizeIsLength(shape);
      NothingBeside(key);
      var tmpnode := root;
      ghost var t, p := shape, Top;
      steps := 0;
      while tmpnode != sentinel
        invariant Focus(tmpnode, t, p) && Plug(p, t) == shape && Nodes(t) + PathNodes(p) == Nodes(shape)
        invariant Valid() && (tmpnode == sentinel) == t.Leaf?
        invariant AllBelow(Before(p), key) && AllAbove(After(p), key)
        invariant steps + Visits(t, key) == Visits(shape, key)
        decreases t
      {
        Surroundings(tmpnode, t, p);
        Children(tmpnode, t, p);
        FindStep(t, p, key);
        if key < tmpnode.key {
          DownLeft(tmpnode, t, p);
          GoLeft(t, p);
          p := Step(true, t.id, t.key, t.red, t.right, p);
          t := t.left;
          tmpnode := tmpnode.left;
          steps := steps + 1;
          continue;
        }
        if key > tmpnode.key {
          DownRight(tmpnode, t, p);
          GoRight(t, p);
          p := Step(false, t.id, t.key, t.red, t.left, p);
          t := t.right;
          tmpnode := tmpnode.right;
          steps := steps + 1;
          continue;
        }
        FoundEntry(t, p);
        return tmpnode, steps;
      }
      MissingEntry(p, key);
      return null, steps;
    }

    lemma TopFocus()
      requires Valid()
      ensures Focus(root, shape, Top) && Plug(Top, shape) == shape && PathNodes(Top) == {}
      ensures Before(Top) == [] && After(Top) == [] && IsRedBlack(shape)
      ensures (root == sentinel) == shape.Leaf? && !sentinel.red
    {
    }
  }
}
