/**
 dns_parse.c, the queries: which connection waits for which reply.
 */
module DnsPending {
  import opened Bytes
  import opened RbNodes
  import opened RbShape
  import opened RedBlack
  import opened EntryMaps
  import opened TreeIndex
  import opened EchoBlocks

  /** The keys are 32 bits wide, and 0 is skipped. */
  const KEYS: nat := 0x1_0000_0000

  /** The key of the n-th query. */
  function KeyFor(n: nat): (k: Key)
    ensures 0 < k < KEYS
  {
    n % (KEYS - 1) + 1
  }

  lemma NextKeyIs(n: nat)
    ensures KeyFor(n + 1) == if KeyFor(n) + 1 == KEYS then 1 else KeyFor(n) + 1
  {}

  /** Two queries have the same key exactly when a multiple of 2^32 - 1 queries lies between them. */
  lemma KeyClash(m: nat, n: nat)
    ensures KeyFor(m) == KeyFor(n) <==> (m - n) % (KEYS - 1) == 0
  {}

  /** Arithmetic on uint32_t. */
  function Wrapped(n: int): nat { n % KEYS }

  lemma WrappedStep(n: int, m: int)
    ensures m == n + 1 ==> Wrapped(Wrapped(n) + 1) == Wrapped(m)
    ensures m == n - 1 ==> Wrapped(Wrapped(n) - 1) == Wrapped(m)
  {}

  /** connection_t: its node in the tree, and whether the name it asked for is stored. */
  class Conn {
    var rbnode: RbNode?
    var context: bool
    ghost var serial: nat
    ghost var asked: nat
    ghost var woken: nat

    constructor ()
      ensures rbnode == null && !context && asked == 0 && woken == 0
    {
      rbnode, context := null, false;
      serial, asked, woken := 0, 0, 0;
    }
  }

  /** The 32-bit key of a reply, in the byte order of the host. */
  function KeyOf(pkt: seq<byte>): (k: nat)
    requires |pkt| == DNS_ECHO_LEN
    ensures k < KEYS
  {
    ((pkt[3] as int * 0x100 + pkt[2] as int) * 0x100 + pkt[1] as int) * 0x100 + pkt[0] as int
  }

  /** What happens to the connection of a reply: it connects, it is closed because the connect fails or because
      there is no address, or nothing. */
  datatype Wake = Connect(ip: seq<byte>) | ConnectFails(ip: seq<byte>) | Close | NoHost

  /** dns_wakeup_conn: what a reply means for its connection. `up` says whether backend_conn_connect succeeds. */
  function WakeOf(context: bool, ip: seq<byte>, up: bool): Wake {
    if !context then NoHost
    else if ip == [0, 0, 0, 0] then Close
    else if up then Connect(ip)
    else ConnectFails(ip)
  }

  /** A key as dns_send_query copies it into the request, and the DNS process back into the reply. */
  function KeyBytes(k: nat): seq<byte>
    requires k < KEYS
  {
    [k % 0x100, k / 0x100 % 0x100, k / 0x1_0000 % 0x100, k / 0x100_0000]
  }

  /** The reply to a query carries the key of the query, and every packet is the reply to one key. */
  lemma KeyReturned(k: nat, pkt: seq<byte>)
    requires k < KEYS && |pkt| == DNS_ECHO_LEN
    ensures KeyOf(pkt) == k <==> pkt[..4] == KeyBytes(k)
  {
    var k0, k1, k2, k3 := k % 0x100, k / 0x100 % 0x100, k / 0x1_0000 % 0x100, k / 0x100_0000;
    assert k / 0x1_0000 == k / 0x100 / 0x100 && k / 0x100_0000 == k / 0x1_0000 / 0x100;
    assert k == ((k3 * 0x100 + k2) * 0x100 + k1) * 0x100 + k0;
    if KeyOf(pkt) == k {
      Digits(pkt[0], pkt[1], pkt[2], pkt[3], k0, k1, k2, k3);
    }
    if pkt[..4] == KeyBytes(k) {
      assert pkt[..4][0] == k0 && pkt[..4][1] == k1 && pkt[..4][2] == k2 && pkt[..4][3] == k3;
    }
  }

  lemma Digits(a: byte, b: byte, c: byte, d: byte, w: byte, x: byte, y: byte, z: byte)
    requires ((d as int * 0x100 + c as int) * 0x100 + b as int) * 0x100 + a as int
      == ((z as int * 0x100 + y as int) * 0x100 + x as int) * 0x100 + w as int
    ensures a == w && b == x && c == y && d == z
  {}

  lemma WakeExact(context: bool, pkt: seq<byte>, up: bool)
    requires |pkt| == DNS_ECHO_LEN
    ensures var w := WakeOf(context, pkt[4..], up);
      && (w == Connect(pkt[4..]) <==> context && up && exists i :: 4 <= i < 8 && pkt[i] != 0)
      && (w == ConnectFails(pkt[4..]) <==> context && !up && exists i :: 4 <= i < 8 && pkt[i] != 0)
      && (w == Close <==> context && forall i :: 4 <= i < 8 ==> pkt[i] == 0)
      && (w == NoHost <==> !context) && (w.ConnectFails? ==> w == ConnectFails(pkt[4..]))
      && (w.Connect? ==> w == Connect(pkt[4..]))
  {
    var ip := pkt[4..];
    assert ip[0] == pkt[4] && ip[1] == pkt[5] && ip[2] == pkt[6] && ip[3] == pkt[7];
    if ip != [0, 0, 0, 0] {
      assert ip[0] != 0 || ip[1] != 0 || ip[2] != 0 || ip[3] != 0;
    }
  }

  lemma PendingSize(m: map<Conn, nat>, c: Conn)
    ensures |m - {c}| == |m| - (if c in m then 1 else 0)
  {
    if c !in m { assert m - {c} == m; }
  }

  class Resolver {
    const tree: RbTree
    var dns_query_key: nat
    var dns_conn_num: nat
    var conns: set<Conn>
    ghost var made: nat
    ghost var failed: nat

    /** The waiting connections, each with the number of its query. */
    ghost function Pending(): map<Conn, nat>
      reads `conns, conns`rbnode, conns`serial
    {
      map c | c in conns && c.rbnode != null :: c.serial
    }

    /** The tree is exact: its entries are those of the waiting connections, one for one. A key may occur more
        than once. */
    ghost predicate Exact()
      reads tree, `conns, conns`rbnode, conns`serial
    {
      Tied(tree.Order())
    }

    ghost predicate Tied(order: seq<Entry>)
      reads `conns, conns`rbnode, conns`serial
    {
      && (forall c <- conns :: c.rbnode != null ==> Entry(c.rbnode, KeyFor(c.serial)) in order && c.rbnode.data == c)
      && (forall e <- order :: Owned(e.id))
    }

    /** The node belongs to a waiting connection. */
    ghost predicate Owned(n: RbNode)
      reads `conns, conns`rbnode
    {
      n.data is Conn && var c := n.data as Conn; c in conns && c.rbnode == n
    }

    /** No connection is woken more often than it asked. */
    ghost predicate Counted()
      reads `conns, conns`rbnode, conns`asked, conns`woken
    {
      forall c <- conns :: c.woken + (if c.rbnode != null then 1 else 0) <= c.asked
    }

    /** No two waiting connections have the number of the same query. */
    ghost predicate Numbered()
      reads `conns, `made, conns`rbnode, conns`serial
    {
      && (forall c <- conns :: c.rbnode != null ==> c.serial < made)
      && (forall c <- conns, d <- conns :: c.rbnode != null && d.rbnode != null && c.serial == d.serial ==> c == d)
    }

    ghost predicate Valid()
      reads this, tree, tree.sentinel, Nodes(tree.shape), conns
    {
      && tree.Valid() && Exact() && Counted() && Numbered()
      && dns_query_key == KeyFor(made) && dns_conn_num == Wrapped(|Pending()| - failed)
    }

    ghost function Repr(): (r: set<object>)
      reads tree
      ensures tree in r && tree.sentinel in r && Nodes(tree.shape) <= r
    {
      {tree, tree.sentinel} + Nodes(tree.shape)
    }

    /** dns_tree_init */
    constructor ()
      ensures Valid() && conns == {} && made == 0 && failed == 0 && fresh(Repr())
    {
      hide RbTree.Valid, RbTree.Order, Exact, Counted, Numbered, Pending, Repr, Wrapped, KeyFor;
      tree := new RbTree();
      dns_query_key, dns_conn_num := 1, 0;
      conns, made, failed := {}, 0, 0;
      new;
      EmptyTree(tree);
      Nobody();
      JustTree();
    }

    lemma JustTree()
      requires tree.shape == Leaf
      ensures Repr() == {tree, tree.sentinel}
    {}

    lemma Nobody()
      requires conns == {} && tree.Order() == []
      ensures Exact() && Counted() && Numbered() && Pending() == map[] && KeyFor(0) == 1
      ensures |Pending()| == 0 && Wrapped(0) == 0
    {}

    /** The tree shares no object with the rest. */
    lemma Apart()
      ensures this as object !in Nodes(tree.shape) && this as object != tree && this as object != tree.sentinel
      ensures forall c <- conns ::
        c as object !in Nodes(tree.shape) && c as object != tree && c as object != tree.sentinel
    {}

    /** connection_new */
    method NewConn() returns (conn: Conn)
      requires Valid()
      modifies this`conns
      ensures Valid() && fresh(conn) && conns == old(conns) + {conn} && Pending() == old(Pending())
      ensures conn.rbnode == null && !conn.context && conn.asked == 0
      ensures Repr() == old(Repr())
    {
      hide RbTree.Valid, Exact, Counted, Numbered, Pending;
      Apart();
      assert allocated(Repr());
      conn := new Conn();
      Welcome(conn);
    }

    method Welcome(conn: Conn)
      requires Exact() && Counted() && Numbered() && conn.rbnode == null && conn.woken == 0
      modifies this`conns
      ensures Exact() && Counted() && Numbered() && conns == old(conns) + {conn} && Pending() == old(Pending())
    {
      hide RbTree.Order;
      conns := conns + {conn};
    }

    /** The node of a waiting connection. */
    lemma NodeOf(c: Conn)
      requires tree.Valid() && Exact() && c in conns && c.rbnode != null
      ensures c.rbnode in Nodes(tree.shape) && c.rbnode.key == KeyFor(c.serial)
    {
      tree.KeysAt(tree.root, tree.shape, null, Entry(c.rbnode, KeyFor(c.serial)));
    }

    /** Everybody but `conn` is numbered and counted. */
    ghost predicate Others(conn: Conn)
      reads `conns, `made, conns`rbnode, conns`serial, conns`asked, conns`woken
    {
      && (forall c <- conns :: c != conn && c.rbnode != null ==> c.serial < made)
      && (forall c <- conns, d <- conns ::
            c != conn && d != conn && c.rbnode != null && d.rbnode != null && c.serial == d.serial ==> c == d)
      && (forall c <- conns :: c.woken + (if c.rbnode != null && c != conn then 1 else 0) <= c.asked)
    }

    lemma OthersOf(conn: Conn)
      requires Counted() && Numbered()
      ensures Others(conn)
    {}

    lemma AllOf(conn: Conn)
      requires Others(conn) && conn.rbnode == null
      ensures Counted() && Numbered()
    {}

    /** dns_tree_addconn */
    method TreeAdd(conn: Conn, key: Key)
      requires tree.Valid() && Exact() && Others(conn) && conn in conns && conn.rbnode == null && key == KeyFor(made)
      modifies conn`rbnode, conn`serial, Repr()
      ensures tree.Valid() && Exact() && Others(conn) && Pending() == old(Pending())[conn := made]
      ensures conn.rbnode != null && conn.serial == made
      ensures fresh(conn.rbnode) && Repr() == old(Repr()) + {conn.rbnode} && unchanged(this)
      ensures forall c <- conns :: c.asked == old(c.asked) && c.woken == old(c.woken) && c.context == old(c.context)
    {
      hide RbTree.Valid, RbTree.Order, Inserted, Tied, Pending, Others, KeyFor, Wrapped;
      Apart();
      ghost var order := tree.Order();
      assert allocated(Repr()) && allocated(order);
      var node := new RbNode(key, conn);
      tree.Insert(node);
      InsertedEntries(order, Entry(node, key));
      Attach(conn, node, order, tree.Order());
    }

    method Attach(conn: Conn, node: RbNode, ghost order: seq<Entry>, ghost neworder: seq<Entry>)
      requires Tied(order) && Others(conn) && conn in conns && conn.rbnode == null && node.data == conn
      requires forall e :: e in neworder <==> e == Entry(node, KeyFor(made)) || e in order
      modifies conn`rbnode, conn`serial
      ensures Tied(neworder) && Others(conn) && Pending() == old(Pending())[conn := made]
      ensures conn.rbnode == node && conn.serial == made
    {
      hide KeyFor;
      conn.rbnode := node;
      conn.serial := made;
    }

    /** The node of a connection leaves the tree. */
    method Unlink(conn: Conn)
      requires tree.Valid() && Exact() && Others(conn) && conn in conns && conn.rbnode != null
      modifies conn`rbnode, Repr()
      ensures tree.Valid() && Exact() && Others(conn) && Pending() == old(Pending()) - {conn}
      ensures conn.rbnode == null && Repr() <= old(Repr()) && unchanged(this)
      ensures forall c <- conns :: c.asked == old(c.asked) && c.woken == old(c.woken) && c.context == old(c.context)
    {
      hide RbTree.Valid, RbTree.Order, Without, Tied, Pending, Others, KeyFor;
      Apart();
      ghost var order, node := tree.Order(), conn.rbnode;
      assert allocated(Repr()) && allocated(order);
      NodeOf(conn);
      tree.Delete(conn.rbnode);
      WithoutEntries(order, node);
      Detach(conn, order, tree.Order());
    }

    method Detach(conn: Conn, ghost order: seq<Entry>, ghost neworder: seq<Entry>)
      requires Tied(order) && Others(conn) && conn in conns && conn.rbnode != null
      requires forall e :: e in neworder <==> e in order && e.id != conn.rbnode
      modifies conn`rbnode
      ensures Tied(neworder) && Others(conn) && Pending() == old(Pending()) - {conn} && conn.rbnode == null
    {
      hide KeyFor;
      conn.rbnode := null;
    }

    /** dns_delconn: also what connection_del does for a waiting connection. */
    method DelConn(conn: Conn)
      requires tree.Valid() && Exact() && Others(conn) && conn in conns
      modifies `dns_conn_num, conn`rbnode, conn`context, Repr()
      ensures tree.Valid() && Exact() && Counted() && Numbered() && Pending() == old(Pending()) - {conn}
      ensures conn.rbnode == null && !conn.context && Repr() <= old(Repr())
      ensures dns_conn_num == if conn in old(Pending()) then Wrapped(old(dns_conn_num) - 1) else old(dns_conn_num)
      ensures unchanged(`conns, `made, `failed, `dns_query_key)
      ensures forall c <- conns :: c.asked == old(c.asked) && c.woken == old(c.woken)
      ensures forall c <- conns :: c != conn ==> c.context == old(c.context)
    {
      hide RbTree.Valid, RbTree.Order, Exact, Wrapped, KeyFor, Others, Counted, Numbered, Pending, Repr;
      Waits(conn);
      if conn.rbnode != null {
        Unlink(conn);
        dns_conn_num := Wrapped(dns_conn_num - 1);
      }
      Apart();
      conn.context := false;
      AllOf(conn);
    }

    lemma Waits(conn: Conn)
      ensures conn in Pending() <==> conn in conns && conn.rbnode != null
      ensures conn !in Pending() ==> Pending() - {conn} == Pending()
    {}

    /** dns_query: the connection waits under the next key. When the request cannot be sent, nobody waits for it,
        the key is not used up and the name is forgotten; only dns_conn_num is one too low from then on. */
    method Query(conn: Conn, sent: bool) returns (ret: int)
      requires Valid() && conn in conns && conn.rbnode == null
      modifies this, conn, Repr()
      ensures Valid() && conns == old(conns) && ret == (if sent then 0 else -1)
      ensures Pending() == if sent then old(Pending())[conn := old(made)] else old(Pending())
      ensures made == old(made) + (if sent then 1 else 0) && failed == old(failed) + (if sent then 0 else 1)
      ensures conn.context == sent && conn.asked == old(conn.asked) + (if sent then 1 else 0)
      ensures conn.woken == old(conn.woken)
      ensures forall o <- Repr() :: o in old(Repr()) || fresh(o)
    {
      hide RbTree.Valid, RbTree.Order, Exact, Wrapped, KeyFor, Others, Counted, Numbered, Pending, Repr;
      Waits(conn);
      WithdrawnMap(Pending(), conn, made);
      Apart();
      OthersOf(conn);
      conn.context := true;
      TreeAdd(conn, dns_query_key);
      if sent {
        Sent(conn);
        return 0;
      }
      Withdraw(conn);
      return -1;
    }

    /** The request cannot be sent. */
    method Withdraw(conn: Conn)
      requires tree.Valid() && Exact() && Others(conn) && conn in conns && conn.rbnode != null
      requires dns_query_key == KeyFor(made) && dns_conn_num == Wrapped(|Pending()| - 1 - failed)
      modifies `dns_conn_num, `failed, conn`rbnode, conn`context, Repr()
      ensures Valid() && Pending() == old(Pending()) - {conn} && failed == old(failed) + 1 && unchanged(`conns, `made)
      ensures !conn.context && Repr() <= old(Repr()) && conn.asked == old(conn.asked) && conn.woken == old(conn.woken)
    {
      hide RbTree.Valid, RbTree.Order, Exact, Wrapped, KeyFor, Others, Counted, Numbered, Pending, Repr;
      Waits(conn);
      PendingSize(Pending(), conn);
      WrappedStep(|Pending()| - 1 - failed, |Pending()| - 2 - failed);
      DelConn(conn);
      Apart();
      failed := failed + 1;
    }

    /** The request is on its way. */
    method Sent(conn: Conn)
      requires tree.Valid() && Exact() && Others(conn) && conn in conns && conn.rbnode != null && conn.serial == made
      requires dns_query_key == KeyFor(made) && dns_conn_num == Wrapped(|Pending()| - 1 - failed)
      modifies `dns_query_key, `dns_conn_num, `made, conn`asked
      ensures Valid() && Pending() == old(Pending()) && made == old(made) + 1 && conn.asked == old(conn.asked) + 1
      ensures Repr() == old(Repr())
    {
      hide RbTree.Valid, RbTree.Order, Exact, Wrapped, KeyFor, Others, Counted, Numbered, Pending, Repr;
      Apart();
      assert allocated(Nodes(tree.shape)) && allocated(tree.sentinel) && allocated(tree.Order());
      NextKeyIs(made);
      WrappedStep(|Pending()| - 1 - failed, |Pending()| - failed);
      dns_conn_num := Wrapped(dns_conn_num + 1);
      dns_query_key := dns_query_key + 1;
      if dns_query_key == KEYS {
        dns_query_key := 1;
      }
      Count(conn);
    }

    ghost method Count(conn: Conn)
      requires Others(conn) && conn in conns && conn.serial == made
      modifies `made, conn`asked
      ensures Counted() && Numbered() && made == old(made) + 1 && conn.asked == old(conn.asked) + 1
    {
      made := made + 1;
      conn.asked := conn.asked + 1;
    }

    /** Whether the counter of waiting connections is right. */
    lemma CountRight()
      requires Valid()
      ensures dns_conn_num == Wrapped(|Pending()|) <==> failed % KEYS == 0
    {
      ModShift(|Pending()|, failed);
    }

    /** dns_handle_pkt: a reply wakes a connection that waits for its key, when there is one, and takes it out of
        the tree, so that no second reply can. */
    method HandlePkt(pkt: seq<byte>, up: bool) returns (ret: int, conn: Conn?, wake: Wake)
      requires Valid() && |pkt| == DNS_ECHO_LEN
      modifies this`dns_conn_num, conns, Repr()
      ensures Valid() && Repr() <= old(Repr()) && unchanged(`conns, `made, `failed)
      ensures conn == null <==> forall c <- old(Pending()) :: KeyFor(old(Pending())[c]) != KeyOf(pkt)
      ensures conn == null ==> ret == -1 && Pending() == old(Pending())
      ensures conn != null ==> conn in old(Pending()) && KeyFor(old(Pending())[conn]) == KeyOf(pkt)
      ensures conn != null ==> Pending() == old(Pending()) - {conn}
      ensures conn != null ==> wake == WakeOf(old(conn.context), pkt[4..], up)
      ensures ret == 0 <==> conn != null && (wake.Connect? || wake.Close?)
      ensures ret == 0 || ret == -1
      ensures conn != null ==> conn.woken == old(conn.woken) + 1
    {
      hide RbTree.Valid, RbTree.Order, Repr, Wrapped, KeyFor, KeyOf, Counted, Numbered, Others, WakeOf;
      var key := KeyOf(pkt);
      wake := NoHost;
      var node, _ := tree.Find(key);
      if node == null {
        return -1, null, NoHost;
      }
      assert Owned(node);
      var data: object? := node.data;
      if data == null {
        return -1, null, NoHost;
      }
      conn := data as Conn?;
      NodeOf(conn);
      wake := WakeOf(conn.context, pkt[4..], up);
      ret := if wake.NoHost? || wake.ConnectFails? then -1 else 0;
      Wakeup(conn);
    }

    /** The reply to the query of a connection, while no other waits under its key: it reaches exactly this connection,
        which connects to the address, or is closed for the address 0 or when the connect fails. */
    method Answer(conn: Conn, pkt: seq<byte>, up: bool) returns (ret: int, wake: Wake)
      requires Valid() && conn in Pending() && |pkt| == DNS_ECHO_LEN && pkt[..4] == KeyBytes(KeyFor(Pending()[conn]))
      requires forall c <- Pending() :: KeyFor(Pending()[c]) == KeyFor(Pending()[conn]) ==> c == conn
      modifies this`dns_conn_num, conns, Repr()
      ensures Valid() && Pending() == old(Pending()) - {conn} && conn.woken == old(conn.woken) + 1
      ensures wake == Connect(pkt[4..]) <==> old(conn.context) && up && exists i :: 4 <= i < 8 && pkt[i] != 0
      ensures wake == ConnectFails(pkt[4..]) <==> old(conn.context) && !up && exists i :: 4 <= i < 8 && pkt[i] != 0
      ensures wake == Close <==> old(conn.context) && forall i :: 4 <= i < 8 ==> pkt[i] == 0
      ensures wake == NoHost <==> !old(conn.context)
      ensures ret == (if wake == NoHost || wake == ConnectFails(pkt[4..]) then -1 else 0)
    {
      hide RbTree.Valid, Valid, Repr, Pending, KeyFor, KeyOf, KeyBytes, WakeOf;
      KeyReturned(KeyFor(Pending()[conn]), pkt);
      var c;
      ret, c, wake := HandlePkt(pkt, up);
      WakeExact(old(conn.context), pkt, up);
    }

    /** dns_delconn of the connection that a reply has woken. */
    method Wakeup(conn: Conn)
      requires Valid() && conn in Pending()
      modifies this`dns_conn_num, conn, Repr()
      ensures Valid() && Repr() <= old(Repr()) && unchanged(`conns, `made, `failed)
      ensures Pending() == old(Pending()) - {conn} && conn.woken == old(conn.woken) + 1
    {
      hide RbTree.Valid, RbTree.Order, Exact, Wrapped, KeyFor, Others, Counted, Numbered, Pending, Repr;
      Waits(conn);
      PendingSize(Pending(), conn);
      WrappedStep(|Pending()| - failed, |Pending()| - 1 - failed);
      OthersOf(conn);
      LessThanAsked(conn);
      DelConn(conn);
      Apart();
      assert allocated(Nodes(tree.shape)) && allocated(tree.sentinel) && allocated(tree.Order());
      Woken(conn);
    }

    lemma LessThanAsked(conn: Conn)
      requires Counted() && conn in conns && conn.rbnode != null
      ensures conn.woken + 1 <= conn.asked
    {}

    /** The ghost count of the wake-ups. */
    ghost method Woken(conn: Conn)
      requires Counted() && conn in conns && conn.woken + 1 <= conn.asked && conn.rbnode == null
      modifies conn`woken
      ensures Counted() && conn.woken == old(conn.woken) + 1
    {
      conn.woken := conn.woken + 1;
    }

    /** While no waiting query is older than the last 2^32 - 1, only one connection waits for a key, so that a reply
        reaches the connection that asked. */
    lemma KeysDistinct(c: Conn, d: Conn)
      requires Valid() && c in Pending() && d in Pending() && KeyFor(Pending()[c]) == KeyFor(Pending()[d])
      requires made - Pending()[c] < KEYS && made - Pending()[d] < KEYS
      ensures c == d
    {
      hide RbTree.Valid, RbTree.Order, Tied, Wrapped, KeyFor;
      KeyClash(Pending()[c], Pending()[d]);
    }

    /** connection_del: afterwards no reply can reach the connection. */
    method ConnectionDel(conn: Conn)
      requires Valid() && conn in conns
      modifies `conns, `dns_conn_num, conn, Repr()
      ensures Valid() && conns == old(conns) - {conn} && Pending() == old(Pending()) - {conn} && Repr() <= old(Repr())
      ensures unchanged(`made, `failed)
    {
      hide RbTree.Valid, RbTree.Order, Exact, Wrapped, KeyFor, Others, Counted, Numbered, Pending, Repr;
      Waits(conn);
      PendingSize(Pending(), conn);
      WrappedStep(|Pending()| - failed, |Pending()| - 1 - failed);
      OthersOf(conn);
      DelConn(conn);
      Apart();
      assert allocated(Nodes(tree.shape)) && allocated(tree.sentinel) && allocated(tree.Order());
      Farewell(conn);
    }

    method Farewell(conn: Conn)
      requires Exact() && Counted() && Numbered() && conn in conns && conn.rbnode == null
      modifies `conns
      ensures Exact() && Counted() && Numbered() && conns == old(conns) - {conn} && Pending() == old(Pending())
    {
      hide RbTree.Order, KeyFor;
      conns := conns - {conn};
    }
  }

  /** The node of a query that could not be sent goes again. */
  lemma WithdrawnMap(m: map<Conn, nat>, c: Conn, n: nat)
    requires c !in m
    ensures |m[c := n]| == |m| + 1 && m[c := n] - {c} == m
  {}

  lemma ModShift(n: nat, failed: nat)
    ensures Wrapped(n - failed) == Wrapped(n) <==> failed % KEYS == 0
  {}

  datatype Event = New | Ask(sent: bool) | Reply(pkt: seq<byte>, up: bool) | Delete

  /** Every run of new connections, queries, replies and deletions keeps the index exact. */
  method Run(events: seq<Event>) returns (r: Resolver)
    requires forall e <- events :: e.Reply? ==> |e.pkt| == DNS_ECHO_LEN
    ensures r.Valid() && r.made + r.failed <= |events|
  {
    hide RbTree.Valid, Resolver.Valid, Resolver.Repr;
    r := new Resolver();
    for i := 0 to |events|
      invariant fresh(r) && r.Valid() && fresh(r.Repr()) && fresh(r.conns) && r.made + r.failed <= i
    {
      match events[i] {
        case New => var c := r.NewConn();
        case Ask(sent) =>
          if c :| c in r.conns && c.rbnode == null {
            var ret := r.Query(c, sent);
          }
        case Reply(pkt, up) =>
          assert events[i] in events;
          var ret, c, wake := r.HandlePkt(pkt, up);
        case Delete =>
          if c :| c in r.conns {
            r.ConnectionDel(c);
          }
      }
    }
  }
  /** Such a run: the first connection still waits when 2^32 - 2 others have asked and gone, and the next one waits
      under the same key. */
  method ClashExample() returns (r: Resolver, c: Conn, d: Conn)
    ensures r.Valid() && c != d && c in r.Pending() && d in r.Pending()
    ensures KeyFor(r.Pending()[c]) == KeyFor(r.Pending()[d]) && r.made == KEYS
  {
    hide RbTree.Valid, Resolver.Valid, Resolver.Repr, Resolver.Pending, KeyFor;
    r := new Resolver();
    c := r.NewConn();
    var ret := r.Query(c, true);
    for i := 0 to KEYS - 2
      invariant fresh(r) && r.Valid() && fresh(r.Repr()) && fresh(r.conns) && r.made == i + 1
      invariant c in r.Pending() && r.Pending()[c] == 0
    {
      var x := r.NewConn();
      assert x !in r.Pending() by { r.Waits(x); }
      ret := r.Query(x, true);
      assert x in r.conns;
      r.ConnectionDel(x);
    }
    d := r.NewConn();
    assert d !in r.Pending() by { r.Waits(d); }
    ret := r.Query(d, true);
    KeyClash(0, KEYS - 1);
  }
}
