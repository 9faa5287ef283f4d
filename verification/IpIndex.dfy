/**
 The red-black tree seen as a finite map from keys to nodes, and iprbtree.c, the ip/port to policy index.
 */
module EntryMaps {
  import opened RbNodes
  import opened RbShape

  /** Keys are strictly increasing, so each key occurs once. */
  ghost predicate Strict(s: seq<Entry>)
  {
    forall i, j :: 0 <= i < j < |s| ==> s[i].key < s[j].key
  }

  ghost function ToMap(s: seq<Entry>): map<Key, RbNode>
  {
    if s == [] then map[] else ToMap(s[1..])[s[0].key := s[0].id]
  }

  lemma StrictTail(s: seq<Entry>)
    requires Strict(s) && s != []
    ensures Strict(s[1..]) && s[0] !in s[1..]
    ensures AllAbove(s[1..], s[0].key)
    ensures forall e :: e in s <==> e == s[0] || e in s[1..]
  {}

  lemma {:induction false} ToMapKeys(s: seq<Entry>)
    requires Strict(s)
    ensures forall k :: k in ToMap(s) <==> exists e :: e in s && e.key == k
    ensures forall e :: e in s ==> ToMap(s)[e.key] == e.id
    ensures |ToMap(s)| == |s|
  {
    hide Strict;
    if s != [] {
      var m := ToMap(s[1..]);
      StrictTail(s);
      ToMapKeys(s[1..]);
      assert s[0] in s && s[0].key !in m;
      forall e | e in s ensures e.key in ToMap(s) && ToMap(s)[e.key] == e.id {
        if e != s[0] { assert e in s[1..] && e.key in m; }
      }
      forall k | k in ToMap(s) ensures exists e :: e in s && e.key == k {
        if k in m {
          var e :| e in s[1..] && e.key == k;
          assert e in s;
        }
      }
    }
  }

  lemma InsertedEntries(s: seq<Entry>, e: Entry)
    ensures forall x :: x in Inserted(s, e) <==> x == e || x in s
  {}

  lemma InsertedStrict(s: seq<Entry>, e: Entry)
    requires Strict(s) && Sorted(Inserted(s, e)) && (forall x :: x in s ==> x.key != e.key)
    ensures Strict(Inserted(s, e))
  {}

  /** Inserting a key that is not there. */
  lemma InsertedMap(s: seq<Entry>, e: Entry)
    requires Strict(s) && Sorted(Inserted(s, e)) && e.key !in ToMap(s)
    ensures Strict(Inserted(s, e)) && ToMap(Inserted(s, e)) == ToMap(s)[e.key := e.id]
  {
    hide Strict, Inserted, ToMap, Sorted;
    ToMapKeys(s);
    InsertedStrict(s, e);
    InsertedEntries(s, e);
    ToMapKeys(Inserted(s, e));
    var m, m' := ToMap(s), ToMap(Inserted(s, e));
    forall k | k in m' ensures k in m[e.key := e.id] && m'[k] == m[e.key := e.id][k] {
      var x :| x in Inserted(s, e) && x.key == k;
    }
    forall k | k in m[e.key := e.id] ensures k in m' {
      if k == e.key { assert e in Inserted(s, e); }
      else { var x :| x in s && x.key == k; assert x in Inserted(s, e); }
    }
  }

  lemma {:induction false} WithoutEntries(s: seq<Entry>, n: RbNode)
    ensures forall x :: x in Without(s, n) <==> x in s && x.id != n
  {
    if s != [] {
      WithoutEntries(s[1..], n);
      assert forall x :: x in s <==> x == s[0] || x in s[1..];
    }
  }

  lemma {:induction false} WithoutStrict(s: seq<Entry>, n: RbNode)
    requires Strict(s)
    ensures Strict(Without(s, n))
  {
    if s != [] {
      StrictTail(s);
      WithoutStrict(s[1..], n);
      WithoutAbove(s[1..], n, s[0].key);
      StrictCons(s[0], Without(s[1..], n));
    }
  }

  lemma {:induction false} WithoutAbove(s: seq<Entry>, n: RbNode, k: Key)
    requires AllAbove(s, k)
    ensures AllAbove(Without(s, n), k)
  {
    if s != [] { WithoutAbove(s[1..], n, k); }
  }

  lemma StrictCons(e: Entry, s: seq<Entry>)
    requires Strict(s) && AllAbove(s, e.key)
    ensures Strict([e] + s)
  {}

  /** Removing the only entry of the node `e.id`. */
  lemma WithoutMap(s: seq<Entry>, e: Entry)
    requires Strict(s) && e in s && (forall x :: x in s && x.id == e.id ==> x == e)
    ensures Strict(Without(s, e.id)) && ToMap(Without(s, e.id)) == ToMap(s) - {e.key}
  {
    hide Strict, Without, ToMap;
    SameKey(s, e);
    WithoutStrict(s, e.id);
    WithoutEntries(s, e.id);
    ToMapKeys(s);
    ToMapKeys(Without(s, e.id));
    var m, w := ToMap(s), ToMap(Without(s, e.id));
    forall k | k in w ensures k in m - {e.key} && w[k] == m[k] {
      var x :| x in Without(s, e.id) && x.key == k;
    }
    forall k | k in m - {e.key} ensures k in w {
      var x :| x in s && x.key == k;
      assert x in Without(s, e.id);
    }
  }

  lemma SameKey(s: seq<Entry>, e: Entry)
    requires Strict(s) && e in s
    ensures forall x :: x in s && x.key == e.key ==> x == e
  {}
}

module TreeIndex {
  import opened RbNodes
  import opened RbShape
  import opened RedBlack
  import opened EntryMaps

  /** A tree whose keys occur once. */
  class Index {
    const tree: RbTree

    ghost function Map(): map<Key, RbNode>
      reads tree
    {
      ToMap(tree.Order())
    }

    ghost function Repr(): (r: set<object>)
      reads tree
      ensures tree in r && tree.sentinel in r && Nodes(tree.shape) <= r
    {
      {tree, tree.sentinel} + Nodes(tree.shape)
    }

    ghost predicate Valid()
      reads tree, tree.sentinel, Nodes(tree.shape)
    {
      tree.Valid() && Strict(tree.Order())
    }

    /** rbtree_init */
    constructor ()
      ensures Valid() && Map() == map[] && fresh(tree) && fresh(Repr())
    {
      tree := new RbTree();
      new;
      EmptyTree(tree);
    }

    lemma Opened()
      requires Valid()
      ensures tree.Valid() && Strict(tree.Order()) && Sorted(tree.Order())
      ensures forall k :: k in Map() <==> exists e :: e in tree.Order() && e.key == k
      ensures forall e :: e in tree.Order() ==> Map()[e.key] == e.id
    {
      ToMapKeys(tree.Order());
    }

    lemma Closed()
      requires tree.Valid() && Strict(tree.Order())
      ensures Valid()
    {
    }

    /** The nodes of the map are those of the tree, and hold their keys. */
    lemma Mapped(k: Key)
      requires Valid() && k in Map()
      ensures Map()[k] in Nodes(tree.shape) && Map()[k].key == k
    {
      Opened();
      var e :| e in tree.Order() && e.key == k;
      tree.KeysAt(tree.root, tree.shape, null, e);
    }

    /** rbtree_find */
    method Find(key: Key) returns (node: RbNode?)
      requires Valid()
      ensures Valid() && node == if key in Map() then Map()[key] else null
    {
      var found, _ := tree.Find(key);
      node := found;
      ToMapKeys(tree.Order());
    }

    /** rbtree_insert of a key that is not there. */
    method Insert(node: RbNode)
      requires Valid() && node.key !in Map() && node !in Repr()
      modifies Repr(), node
      ensures Valid() && node.key == old(node.key)
      ensures Map() == old(Map())[node.key := node] && Repr() == old(Repr()) + {node}
    {
      hide Valid, RbTree.Valid, ToMap, Strict, Sorted, Inserted, Nodes;
      ghost var e := Entry(node, node.key);
      Opened();
      tree.Insert(node);
      tree.Sortedness();
      InsertedMap(old(tree.Order()), e);
      Closed();
    }

    /** rbtree_delete */
    method Delete(node: RbNode)
      requires Valid() && node.key in Map() && Map()[node.key] == node
      modifies Repr()
      ensures Valid() && Map() == old(Map()) - {old(node.key)} && Repr() <= old(Repr())
    {
      hide Valid, RbTree.Valid, ToMap, Strict, Sorted, Without, Nodes;
      Opened();
      Mapped(node.key);
      ghost var e :| e in tree.Order() && e.key == node.key;
      OneEntry(node, e);
      WithoutMap(tree.Order(), e);
      tree.Delete(node);
      Closed();
    }

    /** The entry of a node is the only one for that node. */
    lemma OneEntry(node: RbNode, e: Entry)
      requires tree.Valid() && e in tree.Order() && e.id == node && e.key == node.key
      ensures forall x :: x in tree.Order() && x.id == node ==> x == e
    {
      forall x | x in tree.Order() && x.id == node ensures x == e {
        tree.KeysAt(tree.root, tree.shape, null, x);
      }
    }
  }

  lemma EmptyTree(t: RbTree)
    requires t.shape == Leaf && t.root == t.sentinel && !t.sentinel.red
    ensures t.Valid() && t.Order() == []
  {
    assert Balanced(Leaf, 0);
  }
}

module IpIndex {
  import opened RbNodes
  import opened RbShape
  import opened TreeIndex

  /** The policies behind the nodes. */
  ghost function DataOf(m: map<Key, RbNode>): map<Key, object?> {
    map k | k in m :: m[k].data
  }

  lemma DataInsert(m: map<Key, RbNode>, k: Key, n: RbNode)
    ensures DataOf(m[k := n]) == DataOf(m)[k := n.data]
  {}

  lemma DataRemove(m: map<Key, RbNode>, k: Key)
    ensures DataOf(m - {k}) == DataOf(m) - {k}
    ensures k in m ==> |m - {k}| == |m| - 1
    ensures k !in m ==> m - {k} == m
  {}

  lemma DataSize(m: map<Key, RbNode>)
    ensures |DataOf(m)| == |m| && DataOf(m).Keys == m.Keys
  {}

  class IpBiTree {
    var total_ipitem: int
    const index: Index

    /** The map from ip/port to policy. */
    ghost function Map(): map<Key, object?>
      reads index.tree
    {
      DataOf(index.Map())
    }

    ghost function Repr(): (r: set<object>)
      reads index.tree
      ensures this in r && index.Repr() <= r
    {
      {this} + index.Repr()
    }

    ghost predicate Valid()
      reads this, index.tree, index.tree.sentinel, Nodes(index.tree.shape)
      ensures Valid() ==> total_ipitem == |Map()|
    {
      DataSize(index.Map());
      index.Valid() && total_ipitem == |index.Map()|
    }

    /** init_rbtree */
    constructor ()
      ensures Valid() && Map() == map[] && fresh(Repr())
    {
      index := new Index();
      total_ipitem := 0;
      new;
      NotMine();
    }

    /** The counter is no part of the tree. */
    lemma NotMine()
      ensures this as object !in Nodes(index.tree.shape) && this as object != index.tree
      ensures this as object != index.tree.sentinel
    {}

    /** find_policy_in_rbtree */
    method Find(ipport: Key) returns (policy: object?)
      requires Valid()
      ensures Valid() && policy == if ipport in Map() then Map()[ipport] else null
    {
      DataSize(index.Map());
      var node := index.Find(ipport);
      return if node == null then null else node.data;
    }

    /** delete_policy_from_rbtree */
    method Delete(ipport: Key) returns (ret: int)
      requires Valid()
      modifies Repr()
      ensures Valid() && Map() == old(Map()) - {ipport} && Repr() <= old(Repr())
      ensures ret == if ipport in old(Map()) then 0 else -1
    {
      hide Index.Valid, Index.Map, DataOf;
      ghost var m := index.Map();
      DataSize(m);
      DataRemove(m, ipport);
      var node := index.Find(ipport);
      if node == null {
        return -1;
      }
      index.Mapped(ipport);
      DeleteNode(node);
      return 0;
    }

    method DeleteNode(node: RbNode)
      requires Valid() && node.key in index.Map() && index.Map()[node.key] == node
      modifies Repr()
      ensures Valid() && Map() == old(Map()) - {old(node.key)} && Repr() <= old(Repr())
    {
      hide Index.Valid, Index.Map, DataOf;
      DataRemove(index.Map(), node.key);
      index.Delete(node);
      NotMine();
      total_ipitem := total_ipitem - 1;
    }

    /** insert_policy_to_rbtree: an existing entry for the key is deleted first. */
    method Insert(ipport: Key, policy: object?) returns (ret: int)
      requires Valid()
      modifies Repr()
      ensures Valid() && Map() == old(Map())[ipport := policy] && fresh(Repr() - old(Repr()))
      ensures ret == 0
    {
      hide Index.Valid, Index.Map, Index.Repr, Valid, DataOf, Map;
      RemoveExisting(ipport);
      ghost var m := Map();
      assert allocated(Repr());
      var node := new RbNode(ipport, policy);
      InsertFresh(node);
      assert m[ipport := policy] == old(Map())[ipport := policy];
      return 0;
    }

    method RemoveExisting(ipport: Key)
      requires Valid()
      modifies Repr()
      ensures Valid() && Map() == old(Map()) - {ipport} && Repr() <= old(Repr())
    {
      hide Index.Valid, Index.Map, DataOf;
      ghost var m := index.Map();
      DataSize(m);
      DataRemove(m, ipport);
      var existed := index.Find(ipport);
      if existed != null {
        var _ := Delete(ipport);
      }
    }

    method InsertFresh(node: RbNode)
      requires Valid() && node.key !in Map() && node !in Repr()
      modifies Repr(), node
      ensures Valid() && Map() == old(Map())[old(node.key) := node.data] && Repr() == old(Repr()) + {node}
    {
      hide Index.Valid, Index.Map, DataOf;
      ghost var m := index.Map();
      DataSize(m);
      DataInsert(m, node.key, node);
      index.Insert(node);
      NotMine();
      total_ipitem := total_ipitem + 1;
    }
  }
}
