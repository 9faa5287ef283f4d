# Verification of the event-driven proxy

A Dafny model of the proxy in `src/proxy/bs/src`, with proofs of what its parts promise. The C code changes
state in place, and so does the model: nodes, buffers, chunks, connections, parsers and caches are classes with
the fields of the C structures, and their methods follow the C functions branch by branch. Each method is proved
against a function on plain values, and the main results are proved about those functions for all inputs.

Run `dafny verify dfyconfig.toml` with Dafny 4.11. The proofs are also meant to fit `--resource-limit 2000000`.

## Files

| file | models |
|---|---|
| `RbShape.dfy`, `RbTree.dfy` | the intrusive red-black tree: shapes and orders as values, then the heap with parent links and the shared sentinel |
| `IpIndex.dfy` | the tree as a map, and the ip/port index on it |
| `Crc32.dfy`, `DnsCache.dfy` | the nibble-table CRC and the two-level cache of host names |
| `Ring.dfy` | the circular lists of `queue.h` and the splice |
| `Chunk.dfy`, `Cursor.dfy` | buffers and chunks, and a parse position in a chunk |
| `Relay.dfy` | reads, splices and writes between a backend and its client |
| `HttpCommand.dfy`, `HttpGrammar.dfy`, `HttpHead.dfy` | the resumable parsers of the request line and the head, and exactly what they accept |
| `Gateway.dfy` | rebuilding length-prefixed messages of the gateway |
| `PolicyFraming.dfy` | printing, framing and dispatching policy messages |
| `JsonFramer.dfy` | the bracket automaton and the reader around it |
| `PeerState.dfy`, `PeerClose.dfy` | what events do to connections and jobs, as functions on values; then the event loop that closes pairs of connections through deferred jobs |
| `DnsEcho.dfy`, `DnsPending.dfy` | reassembly of replies, and the index of waiting connections |

`Ring.dfy` shows that the list macros are operations on sequences; all other files keep a list as a sequence.

## Outside of the model

A read of a socket is any sequence of bytes within the requested size, a write is any accepted number of bytes,
the clock is a parameter that does not go back, events of epoll come in any order, and the handlers of policy
and json messages are parameters.

## Where the code does not do what it seems to

* A PEERCLOSE job can reach a connection that is CLOSED already. The client then returns to CLOSING_WRITE although
  its CLOSE job is pending, and is deleted before its bytes are sent. `PeerClose.LateExample` is such a run;
  `PeerClose.Safety` shows that this is the only way, and `PeerClose.Server.HandlePeerClose` that it happens exactly
  when the status is CLOSED and bytes are left.
* A CLOSE job that a connection without peer adds to its own running job is lost, because the main loop drops that
  job afterwards; `PeerClose.Server.CloseOnItsWay` says exactly when, and `PeerClose.LostExample` is such a run: a
  client turns to another server while its backend is still connecting. The backend stays CLOSED until the next
  event or the timer closes it again.
* An address that comes for a backend closed in the same round puts it back to CONNECTING or WORKING although its
  CLOSE job is pending (`PeerClose.RevivedExample`). The invariant covers such backends, and nothing reaches a
  deleted connection through them.
* After 2^32 - 1 queries the key of a query is used again without a look whether a connection still waits under it,
  and a reply may then wake either. `DnsPending.KeyClash` and `DnsPending.Resolver.KeysDistinct` say when, and
  `DnsPending.ClashExample` is such a run.
* A query that cannot be sent takes one off `dns_conn_num` that was never added
  (`DnsPending.Resolver.CountRight`).
* `dnscache_timeout` stops at the first young entry from the newest on. With a clock that does not go back it
  therefore empties the cache or does nothing (`DnsCache.KeepAll`), and leaves no old entry only under the
  condition of `DnsCache.KeepComplete`; `DnsCache.StaleExample` is a run on which one stays.
* Names in the DNS cache are compared by strncmp, so behind a NUL byte only checksum and length count;
  `NameQueues.IdExact` is the exact statement for other names, and `NameQueues.NulExample` a pair of names that it
  excludes. The cache would store an empty name and never find
  it, but `dns_query` lets none through.
* `http_get_method` compares three letters for POST, so a method named `POS` is taken for POST (`HttpLine.PostNames`).
* In a head, a bare line feed at the start of a line is reported as a field with an empty name and never ends the
  head (`HttpField.BlankLine`).
* When the path of an absolute-form request is empty, removing the authority leaves a request line without `/`
  (`HttpLine.TargetLeft`).
* A CONNECT request in backend mode loses, for every byte of its authority, the first byte of the buffer that holds
  it, although nothing was cut off before. Which bytes are left depends on the buffers (`HttpLine.TunnelExample`),
  how many does not (`HttpLine.RewriteLength`). They are the right ones if and only if the host begins a buffer,
  however the line is cut elsewhere (`HttpLine.TunnelExact`; `HttpLine.LeftExact` for any bytes): then exactly the
  authority goes (`HttpLine.TunnelCut`). With the whole line in one buffer it is never so (`HttpLine.TunnelWhole`,
  `HttpLine.TunnelSpoilt`).
* `conn_io.c` keeps `used_size` by `buffer_mused` on the plain path and by `used` on the SSL path. Each path has its
  own invariant; `Relays.Accounted` selects it by the kind of connection.
* After deleting a root with at most one child the new root keeps a stale parent, so the invariant of the tree says
  nothing about the parent of the root.

## Model

| member | source | states |
|---|---|---|
| `RedBlack.RbTree.LeftRotate` | src/proxy/bs/src/rbtree.c:7-33 | The heap below the node becomes the rotated tree, every parent link below the root included; nothing outside the rotation changes |
| `RedBlack.RbTree.RightRotate` | src/proxy/bs/src/rbtree.c:36-62 | The mirror image of the left rotation |
| `RbShape.LeftRotatedInorder` | src/proxy/bs/src/rbtree.c:7-33 | A left rotation keeps the key order |
| `RbShape.RightRotatedInorder` | src/proxy/bs/src/rbtree.c:36-62 | A right rotation keeps the key order |
| `RedBlack.RbTree.FindPlace` | src/proxy/bs/src/rbtree.c:65-86 | The search loop ends at the empty place where the key belongs, behind all entries with the same or a smaller key |
| `RedBlack.RbTree.InsertStep` | src/proxy/bs/src/rbtree.c:113-155 | One round of the insertion loop keeps search order and black heights, and leaves at most one red pair: a red uncle moves the focus two levels up, and with a black one the loop ends |
| `RedBlack.RbTree.InsertFixup` | src/proxy/bs/src/rbtree.c:113-157 | The insertion loop ends, with a red-black tree of the same entries in the same order |
| `RedBlack.RbTree.Insert` | src/proxy/bs/src/rbtree.c:90-158 | A valid tree with exactly the new entry added in its place, and exactly the new node added to its nodes |
| `RbShape.RecolorKeeps` | src/proxy/bs/src/rbtree.c:118-122 | The red uncle: recolouring moves the only possible fault two levels up and keeps the black heights |
| `RbShape.LiftedKeeps` | src/proxy/bs/src/rbtree.c:130-132 | The black uncle: after recolouring and rotating no fault is left |
| `RbShape.InsertDone` | src/proxy/bs/src/rbtree.c:157 | Painting the root black after the insertion loop gives a red-black tree |
| `RbShape.InsertedSorted` | src/proxy/bs/src/rbtree.c:65-86 | The order with the new entry is sorted again |
| `RedBlack.RbTree.Min` | src/proxy/bs/src/rbtree.c:160-167 | The leftmost node below a node: it has no left child and comes first in the order |
| `RedBlack.RbTree.DeleteRoot` | src/proxy/bs/src/rbtree.c:197-208 | Deleting a root with at most one child; the new root keeps whatever parent it had |
| `RedBlack.RbTree.DeleteDouble` | src/proxy/bs/src/rbtree.c:187-265 | With two children the successor takes the place, the colour and the links of the deleted node, also when it is its own right child |
| `RedBlack.RbTree.DeleteFixup` | src/proxy/bs/src/rbtree.c:269-331 | The deletion loop ends, with a red-black tree of the same entries, starting from a subtree that is one black node short, which may be the sentinel |
| `RedBlack.RbTree.Delete` | src/proxy/bs/src/rbtree.c:169-332 | Deleting any node of a valid tree leaves a valid tree whose order is the old one without that node; the node is cleared |
| `RbShape.RedSiblingKeeps` | src/proxy/bs/src/rbtree.c:274-279 | The red sibling: the rotation keeps the shortage where it is and makes the sibling black |
| `RbShape.BlackNephewsKeeps` | src/proxy/bs/src/rbtree.c:281-283 | Black nephews: the shortage moves one level up |
| `RbShape.NearRedKeeps` | src/proxy/bs/src/rbtree.c:286-291 | Only the near nephew is red: afterwards the far one is |
| `RbShape.FarRedKeeps` | src/proxy/bs/src/rbtree.c:293-297 | The far nephew is red: the shortage is gone |
| `RbShape.DeleteDone` | src/proxy/bs/src/rbtree.c:331 | Painting the focus black at the end of the deletion loop gives a red-black tree |
| `RbShape.SuccessorOrder` | src/proxy/bs/src/rbtree.c:223-255 | The successor in the place of the deleted node: the order is the old one without that node |
| `RedBlack.RbTree.Find` | src/proxy/bs/src/rbtree.c:334-359 | A node with the key, or null exactly when no entry has it, after a number of steps k with 2^k at most (n + 1)^2 |
| `RbShape.SearchCost` | src/proxy/bs/src/rbtree.c:334-359 | In a red-black tree of n entries a search takes at most 2 * log2(n + 1) steps |
| `EntryMaps.InsertedMap` | src/proxy/bs/src/rbtree.c:90-158 | Inserting a missing key adds one binding to the map of the tree |
| `EntryMaps.WithoutMap` | src/proxy/bs/src/rbtree.c:169-332 | Deleting a node removes exactly the binding of its key |
| `TreeIndex.Index.Insert` | src/proxy/bs/src/rbtree.c:90-158 | The map of the index gains exactly the binding of the key to the node |
| `TreeIndex.Index.Delete` | src/proxy/bs/src/rbtree.c:169-332 | The map of the index loses exactly the key of the node |
| `TreeIndex.Index.Find` | src/proxy/bs/src/rbtree.c:334-359 | The index answers as its map does |
| `IpIndex.IpBiTree.constructor` | src/proxy/bs/src/iprbtree.c:25-31 | The empty map, and a counter that agrees with it |
| `IpIndex.IpBiTree.Insert` | src/proxy/bs/src/iprbtree.c:33-63 | The map from ip/port to policy with the new binding, replacing an old one; total_ipitem stays the size of the map |
| `IpIndex.IpBiTree.Delete` | src/proxy/bs/src/iprbtree.c:65-92 | The map without the key, and -1 exactly when it was not there; total_ipitem stays the size of the map |
| `IpIndex.IpBiTree.Find` | src/proxy/bs/src/iprbtree.c:94-110 | The policy bound to the key, or null |
| `Crc32.TwoNibbles` | src/proxy/bs/src/dnscache.c:11-16 | Two steps through the table of 16 equal eight steps of the bit-at-a-time reflected CRC-32 |
| `Crc32.TableIsBits4` | src/proxy/bs/src/dnscache.c:11-16 | Every table entry is four bit steps |
| `Crc32.Crc32Short` | src/proxy/bs/src/dnscache.c:18-32 | For every byte string the result is the CRC-32 of section 8 of RFC 1952 |
| `NameQueues.IdExact` | src/proxy/bs/src/dnscache.c:131-149 | For a name without NUL bytes, what a lookup compares (checksum, length, strncmp) agrees exactly for the same name |
| `NameQueues.NulExample` | src/proxy/bs/src/dnscache.c:131-149 | Two different names with NUL bytes that a lookup takes for the same: their checksums collide |
| `NameQueues.StrnEqual` | src/proxy/bs/src/dnscache.c:143 | strncmp of two names of one length: equal up to a NUL byte |
| `DnsCache.Cache.constructor` | src/proxy/bs/src/dnscache.c:56-64 | The empty cache |
| `DnsCache.Cache.FindHash` | src/proxy/bs/src/dnscache.c:122-129 | The node of the checksum; without one no name in the queue has that checksum |
| `DnsCache.Cache.FindName` | src/proxy/bs/src/dnscache.c:131-149 | The entry of the name among those of its checksum; without one no entry of the whole queue answers for the name |
| `DnsCache.Cache.Find` | src/proxy/bs/src/dnscache.c:153-164 | The lookup agrees with the map of the cache: null exactly when the name has no address, otherwise the address last inserted |
| `DnsCache.Cache.NodeNew` | src/proxy/bs/src/dnscache.c:100-111 | Exactly one new checksum node, in the tree and with an empty list; the counter of nodes stays exact |
| `DnsCache.Cache.NameNew` | src/proxy/bs/src/dnscache.c:72-84 | The new entry stands at the end of the queue and of its checksum list; both counters stay exact |
| `DnsCache.Cache.NameFree` | src/proxy/bs/src/dnscache.c:86-98 | The entry leaves the queue and its checksum list, and nothing else does |
| `DnsCache.Cache.NodeFree` | src/proxy/bs/src/dnscache.c:113-120 | A checksum node goes exactly when it has no names left |
| `DnsCache.Cache.Insert` | src/proxy/bs/src/dnscache.c:166-187 | The map changes for this name only; an old entry of the same name is replaced, the others keep their order, and no checksum node is left empty |
| `DnsCache.Cache.Del` | src/proxy/bs/src/dnscache.c:189-199 | The map loses exactly this name, and the checksum node goes with its last name |
| `DnsCache.Cache.Timeout` | src/proxy/bs/src/dnscache.c:201-214 | The queue becomes what the walk from the newest entry leaves of it |
| `DnsCache.KeepOld` | src/proxy/bs/src/dnscache.c:201-214 | What the walk removes is a suffix of the queue in which every entry is older than the limit, so a young entry is never removed |
| `DnsCache.KeepAll` | src/proxy/bs/src/dnscache.c:201-214 | With a clock that never goes back, the walk removes everything or nothing: nothing as soon as the newest entry is young |
| `DnsCache.KeepComplete` | src/proxy/bs/src/dnscache.c:201-214 | It leaves no entry over the limit if and only if the newest entry is over the limit or the oldest is not |
| `DnsCache.KeepStale` | src/proxy/bs/src/dnscache.c:201-214 | An input on which an entry over the limit stays: a young one was added behind it |
| `DnsCache.StaleExample` | src/proxy/bs/src/dnscache.c:201-214 | The same as a run: an address two minutes old is still held after the walk of a minute |
| `DnsCache.Cache.Empty` | src/proxy/bs/src/dnscache.c:216-219 | Nothing is left: both counters are 0 and queue, lists and tree are empty |
| `DnsCache.Cache.Handle` | src/proxy/bs/src/dnscache.c:153-219 | Any operation keeps the invariant and the order of the queue by time; no address is ever wrong, and only expiry forgets one |
| `DnsCache.Run` | src/proxy/bs/src/dnscache.c:153-219 | On every run with a clock that does not go back, the cache holds, entry by entry, what the reference run on values holds, also after expiry; no address is ever wrong, and only expiry forgets one |
| `Ring.InsertHead` | src/proxy/bs/src/queue.h:47-51 | The ring gains the node right behind its head |
| `Ring.InsertTail` | src/proxy/bs/src/queue.h:54-58 | The ring gains the node at its end |
| `Ring.Remove` | src/proxy/bs/src/queue.h:84-87 | The node leaves the ring, the others keep their order, and it is a ring of its own |
| `Ring.Split` | src/proxy/bs/src/queue.h:90-96 | The ring is cut in two before a node |
| `Ring.Add` | src/proxy/bs/src/queue.h:99-103 | Two rings become one, in order |
| `Ring.Splice` | src/proxy/bs/src/conn_common.c:192-197 | Four assignments and an init move all nodes of one ring to the end of the other and leave the first one empty |
| `Ring.IsEmpty` | src/proxy/bs/src/queue.h:39-40 | True exactly when nothing follows the head |
| `Ring.SplitThenAdd` | src/proxy/bs/src/queue.h:90-103 | queue_add undoes queue_split |
| `Ring.OneRing` | src/proxy/bs/src/queue.h:24-28 | The links determine the sequence of the nodes |
| `Chunks.Buffer.constructor` | src/proxy/bs/src/buffer.c:14-37 | The capacity is the least multiple of 64 that is no smaller than the request |
| `Chunks.Buffer.Resize` | src/proxy/bs/src/buffer.c:72-96 | The content is kept, the live bytes stand at the front, and the buffer is at least as large as asked for; a smaller size only moves the bytes |
| `Chunks.ShiftToFront` | src/proxy/bs/src/buffer.c:79-83 | The byte loop moves the live bytes to the front although source and target overlap |
| `Chunks.Chunk.Put` | src/proxy/bs/src/chunk.c:60-69 | The bytes of the chunk are followed by those of the buffer; num, total_size and used_size (by buffer_mused) grow accordingly |
| `Chunks.Chunk.PutHead` | src/proxy/bs/src/chunk.c:71-80 | The same at the front |
| `Chunks.Chunk.Get` | src/proxy/bs/src/chunk.c:92-103 | The first buffer leaves with its bytes; the counters shrink accordingly |
| `Chunks.Chunk.DelBuffer` | src/proxy/bs/src/chunk.c:222-232 | Exactly this buffer leaves the queue; used_size shrinks by its live bytes |
| `Chunks.Chunk.Erase` | src/proxy/bs/src/chunk.c:244-265 | Exactly the first size bytes are dropped, or all there are; 1 exactly when bytes are left; used_size shrinks by the dropped bytes |
| `Chunks.Chunk.Merge` | src/proxy/bs/src/chunk.c:267-304 | The bytes of the chunk stay the same; the merge succeeds if and only if enough bytes follow, and then the buffer holds the requested size; num shrinks by one for every buffer that is emptied |
| `Chunks.Chunk.Split` | src/proxy/bs/src/chunk.c:306-350 | The bytes of the chunk stay the same; the returned buffer holds exactly the first offset bytes, and at most half of the bytes were copied |
| `Chunks.SplitBuffer` | src/proxy/bs/src/chunk.c:322-347 | The shorter side moves to the new buffer, the other one stays in place |
| `Chunks.MergeFirst` | src/proxy/bs/src/chunk.c:267-304 | The same for the first buffer, with used_size kept in step with the bytes of the chunk |
| `Relays.ChunkIoRead` | src/proxy/bs/src/conn_io.c:19-87 | What is read is exactly the first bytes found, as many as the system announces and there is room for, rounded up to the buffer; they follow the bytes of the chunk, and the read chunk and the write chunk of the peer stay within two limits and 63 bytes |
| `Relays.StoredMost` | src/proxy/bs/src/conn_io.c:19-87 | A read takes the longest prefix of what has arrived that is bounded by the least multiple of 64 no smaller than what is announced or what there is room for |
| `Relays.Gather` | src/proxy/bs/src/conn_io.c:357-367 | The vector offered to writev is the bytes of the first buffers, at most 1024 |
| `Relays.Consume` | src/proxy/bs/src/conn_io.c:393-415 | Exactly the written bytes leave the chunk, whole buffers through buffer_get |
| `Relays.ChunkIoWrite` | src/proxy/bs/src/conn_io.c:352-424 | Exactly as many bytes as the socket takes are sent, always a prefix of the chunk, and exactly the rest is kept; used_size stays the sum of buffer_mused and never underflows |
| `Relays.ChunkSslWrite` | src/proxy/bs/src/conn_io.c:428-492 | With used_size the sum of used, the SSL path merges, sends exactly as many bytes as the attempts of ssl_write take, keeps exactly the rest, and answers by the last attempt; otherwise it refuses |
| `Relays.SslSend` | src/proxy/bs/src/conn_io.c:445-456 | The attempts of ssl_write: no two neighbours are refused unless they are the last two, and the loop ends when everything is taken or the last two were refused; what is sent is the sum of the positive answers |
| `Relays.SslTakenExact` | src/proxy/bs/src/conn_io.c:445-456 | A number of bytes is sent if and only if it is the sum of the positive answers of attempts of this kind |
| `Relays.AttemptsOnce` | src/proxy/bs/src/conn_io.c:445-456 | The answers of the SSL layer determine the attempts |
| `Relays.Relay.ReadBackend` | src/proxy/bs/src/conn_io.c:19-87 | A read on the backend adds exactly what the socket delivers to what was received, and keeps the conservation law |
| `Relays.Relay.SpliceAll` | src/proxy/bs/src/conn_common.c:186-206 | The splice keeps the conservation law: the read chunk is empty and its buffers stand at the end of the write chunk, with the counters moved |
| `Relays.Relay.WriteClient` | src/proxy/bs/src/conn_io.c:561-622 | A write to the client, plain or SSL, adds exactly the taken prefix to what was sent, and keeps the conservation law; OK means that nothing is left |
| `Relays.Relay.Run` | src/proxy/bs/src/conn_io.c:19-622 | On every run the received and the sent bytes, and the buffers of both chunks, are what the reference makes of the events: every read takes what the socket has and there is room for, every write sends what the socket takes; what was read is what was sent, then the content of the write chunk, then that of the read chunk, and the two chunks stay within 2 * CHUNKSIZE_LIMIT + 63 bytes |
| `Relays.Relay.Step` | src/proxy/bs/src/conn_io.c:19-622 | One event changes what was received and sent, and the buffers, as the step of the reference does |
| `Relays.Carry` | src/proxy/bs/src/conn_io.c:19-622 | From new connections on, the bytes received and sent are those of the reference |
| `Relays.FlowGrows` | src/proxy/bs/src/conn_io.c:19-622 | In the reference, what was received and what was sent only grow |
| `Relays.Relay.SentFirst` | src/proxy/bs/src/conn_common.c:186-206 | What was sent is always a prefix of what was read, and all of it once both chunks are empty |
| `Cursors.DeleteFirst` | src/proxy/bs/src/http_parse.c:136-142 | The first byte of the buffer goes, whichever byte was read; the position still names the same byte, and the other buffers keep their bytes |
| `Cursors.SplitAndDelete` | src/proxy/bs/src/http_parse.c:144-149 | The byte just read goes through a split at the position, and what follows it stands at the start of a buffer |
| `HttpLine.AbsoluteFormRewritten` | src/proxy/bs/src/http_parse.c:300-586 | An absolute-form line whose parts fit loses exactly the scheme and the authority, and the fields hold what the line says (sections 5.3.1 and 5.3.2 of RFC 7230) |
| `HttpLine.AbsoluteFormAccepted` | src/proxy/bs/src/http_parse.c:300-586 | An absolute-form line is accepted if and only if all its parts fit their buffers, the scheme is known and the port is missing, empty or in range |
| `HttpLine.TargetLeft` | src/proxy/bs/src/http_parse.c:300-533 | What is left of an absolute-form line has a target that begins with a slash if and only if the line had a path |
| `HttpLine.PostNames` | src/proxy/bs/src/http_parse.c:28-77 | The method is POST if and only if its name is POST or POS |
| `HttpLine.MethodExact` | src/proxy/bs/src/http_parse.c:28-77 | For all 21 methods: it is that method if and only if the name is its name, or POS for POST |
| `HttpLine.SchemeExact` | src/proxy/bs/src/http_parse.c:79-97 | http for no scheme and for http, https for https, ftp for ftp, and nothing else |
| `HttpLine.PortExact` | src/proxy/bs/src/http_parse.c:99-114 | The port is n if and only if the text is missing and n is 80, or it is a decimal numeral of n with at most five digits, leading zeros included, and n is from 1 to 65535 |
| `HttpLine.DecimalExact` | src/proxy/bs/src/http_parse.c:109-111 | Digits have the value n if and only if they are a numeral of n |
| `HttpLine.AbsoluteFormMeans` | src/proxy/bs/src/http_parse.c:300-586 | An accepted absolute-form line is a request of the method that it names, for the host that it names, in lower case, and the port that it prints, or 80 |
| `HttpGrammar.LineExact` | src/proxy/bs/src/http_parse.c:263-586 | Any bytes are accepted if and only if they begin with line ends and a request line in origin form, absolute form or of CONNECT, whose parts fit their buffers, whose scheme is known and whose port is in range: every other byte anywhere is refused |
| `HttpGrammar.ParseLine` | src/proxy/bs/src/http_parse.c:186-586 | The same for every segmentation into calls and buffers |
| `HttpGrammar.RequestExample` | src/proxy/bs/src/http_parse.c:186-586 | A request byte by byte: its method, host and port, and the line that is left |
| `HttpLine.OriginFormKept` | src/proxy/bs/src/http_parse.c:300-309 | A request in origin form loses no byte |
| `HttpLine.ScanResumes` | src/proxy/bs/src/http_parse.c:263-586 | Parsing a part and then the rest from the state that was left is parsing all of it |
| `HttpLine.ScanDecided` | src/proxy/bs/src/http_parse.c:263-586 | A verdict does not depend on the bytes behind it |
| `HttpLine.ScanKeeps` | src/proxy/bs/src/http_parse.c:136-149 | In frontend mode no byte is deleted; in backend mode what is kept and not yet read is what arrived with some bytes taken out |
| `HttpLine.ScanBounded` | src/proxy/bs/src/http_parse.c:116-126 | No field ever outgrows its buffer, whatever the answer is |
| `HttpLine.RewriteLength` | src/proxy/bs/src/http_parse.c:136-149 | For every method, the number of bytes that a parse leaves in the chunk does not depend on the buffers that held them |
| `HttpLine.RewriteAligned` | src/proxy/bs/src/http_parse.c:230-263 | For every method but CONNECT, and for all of them in frontend mode, the bytes left do not depend on the buffers either: every deleted byte is the first of what is left of its buffer |
| `HttpLine.LeftExact` | src/proxy/bs/src/http_parse.c:136-142 | In backend mode, for every list of buffers, the bytes left are those of the reference if and only if the method is not CONNECT, or no byte is deleted, or the first deleted byte begins a buffer |
| `HttpLine.TunnelExact` | src/proxy/bs/src/http_parse.c:450-499 | The bytes left of a CONNECT request with a host are those of the reference if and only if the host begins a buffer, whatever follows and however the line is cut elsewhere |
| `HttpLine.TunnelCut` | src/proxy/bs/src/http_parse.c:450-499 | A CONNECT line in backend mode whose authority begins a buffer loses exactly its authority, in as many buffers as the line is cut into |
| `HttpLine.TunnelWhole` | src/proxy/bs/src/http_parse.c:450-499 | A CONNECT line in one buffer loses as many bytes from the front of the buffer as its authority has |
| `HttpLine.TunnelSpoilt` | src/proxy/bs/src/http_parse.c:450-499 | And what is then left is never the line without its authority |
| `HttpLine.TunnelExample` | src/proxy/bs/src/http_parse.c:450-499 | "CONNECT ab " loses "CO" in one buffer, and "ab" when the host begins a second one |
| `HttpCommand.HttpReq.Feed` | src/proxy/bs/src/http_parse.c:269-565 | One byte changes the fields as the step of the reference does |
| `HttpCommand.ParseByte` | src/proxy/bs/src/http_parse.c:265-567 | One byte of the chunk changes the fields as the step of the reference does, the position is right afterwards, and the chunk will come to the same bytes as before |
| `HttpCommand.ParseCommand` | src/proxy/bs/src/http_parse.c:186-586 | The answer and the fields depend only on the bytes from the position on, not on the buffers; the bytes left in the chunk are exactly those of the rewriting of the buffers. Behind the end of a shrunk last buffer the call changes nothing and waits |
| `HttpCommand.Call` | src/proxy/bs/src/http_parse.c:230-263 | One more call after more buffers arrived continues the parse of everything that arrived so far, in its answer, its fields and the bytes left |
| `HttpCommand.ParseStream` | src/proxy/bs/src/http_parse.c:186-586 | Every segmentation into calls and buffers gives the verdict and the fields of one parse of the whole stream; the bytes left are those of the rewriting, always as many as that parse leaves, and they are the same if and only if the mode is not backend, the method is not CONNECT, or the buffers are cut where the first byte is deleted |
| `HttpCommand.ReadRequest` | src/proxy/bs/src/http_parse.c:186-586 | Every segmentation of an absolute-form request for a port that is printed with or without leading zeros, or missing: the fields are its method, scheme, host and exactly that port number |
| `HttpField.FieldReported` | src/proxy/bs/src/http_parse.c:704-834 | A field line, with or without a colon and a value and with any number of CR before its LF, is reported as its name in lower case and its value without blanks, cut to 63 bytes; nothing behind the line is read (section 3.2 of RFC 7230) |
| `HttpField.HeadReported` | src/proxy/bs/src/http_parse.c:631-841 | The calls on a head report exactly its fields in order and then its end, and leave the content length of its last line; a POST without content length is refused there |
| `HttpField.HeadRefused` | src/proxy/bs/src/http_parse.c:704-803 | A head is refused at its first bad line, when all fields before it are reported: a byte that no name can have, a name of 64 bytes, or a CR that neither CR nor LF follows |
| `HttpField.AnswerExact` | src/proxy/bs/src/http_parse.c:704-841 | A call answers if and only if a field line, a bare line feed, the end of the head or a bad line is there; otherwise it waits |
| `HttpField.BlankLine` | src/proxy/bs/src/http_parse.c:704-714 | At the start of a line CR LF is what ends the head, and a bare LF is reported as the field with an empty name, the only one |
| `HttpField.LengthExact` | src/proxy/bs/src/http_parse.c:597-619 | A content length is accepted if and only if it is a decimal number of at most 20 digits that fits in 64 bits, and then it is that number |
| `HttpField.LengthPrinted` | src/proxy/bs/src/http_parse.c:597-619 | The content length is n if and only if its text is a decimal numeral of n with at most 20 digits and n fits in 64 bits |
| `HttpField.RunResumes` | src/proxy/bs/src/http_parse.c:631-841 | Resumption over any number of fields |
| `HttpField.HeadStaysBounded` | src/proxy/bs/src/http_parse.c:124-134 | Name and value never outgrow their buffers |
| `HttpHead.FeedHead` | src/proxy/bs/src/http_parse.c:704-803 | One byte changes the head fields as the step of the reference does |
| `HttpHead.ParseHead` | src/proxy/bs/src/http_parse.c:631-841 | The answer, the field and the place of the next call depend only on the bytes from the position on. Behind the end of a shrunk last buffer the call changes nothing and waits |
| `HttpHead.ReadFields` | src/proxy/bs/src/http_parse.c:631-841 | Calling again after every field reports the fields of everything that arrived, and leaves its head state, with the content length, also at the end of the head |
| `HttpHead.ReadStream` | src/proxy/bs/src/http_parse.c:631-841 | Every segmentation into calls and buffers gives the same fields, the same last answer and the same content length as the whole stream |
| `GatewayFrames.FramesAppend` | src/proxy/bs/src/gateway_interface.c:406-443 | The greedy cut of a longer stream is the cut so far and that of the rest with what follows |
| `GatewayFrames.FramesCover` | src/proxy/bs/src/gateway_interface.c:406-443 | Frames and rest together are the stream, and no whole message is left |
| `GatewayFrames.JoinedFrames` | src/proxy/bs/src/gateway_interface.c:406-443 | Any messages with right length fields, joined, are found again one by one |
| `GatewayFrames.EntriesFound` | src/proxy/bs/src/gateway_interface.c:28-32 | Printed entry messages (begin mark, type, version, the whole length with its high byte first, and a body of any bytes) and the beginning of one more: exactly the printed ones are found, one by one |
| `GatewayFrames.EntryExact` | src/proxy/bs/src/gateway_interface.c:255-257 | Bytes are one message of their own if and only if they are such a printed message |
| `Gateway.Rebuilder.AnalyzeHeader` | src/proxy/bs/src/gateway_interface.c:224-298 | However much of the header a buffer holds, the scratch, the new message and the fields account for every byte of it |
| `Gateway.Rebuilder.ReadData` | src/proxy/bs/src/gateway_interface.c:299-335 | The bytes of the buffer that the message misses are behind those it has, the rest stays in the buffer |
| `Gateway.Rebuilder.Round` | src/proxy/bs/src/gateway_interface.c:209-335 | A round of the two reading states loses no byte, whichever part of a header or a message the buffer holds |
| `Gateway.Rebuilder.PutBack` | src/proxy/bs/src/gateway_interface.c:347-388 | An unfinished message goes back to the chunk with all its bytes |
| `Gateway.Rebuilder.TryRead` | src/proxy/bs/src/gateway_interface.c:195-403 | Hands out exactly the first message, or puts everything back when there is none |
| `Gateway.Rebuilder.GatewayRead` | src/proxy/bs/src/gateway_interface.c:406-443 | Exactly the whole messages are handed on in order, and the unfinished suffix is what the chunk holds |
| `Gateway.ReadStream` | src/proxy/bs/src/gateway_interface.c:195-443 | Every segmentation into calls and non-empty buffers: the messages are the greedy cut of the whole stream |
| `Gateway.ReadEntries` | src/proxy/bs/src/gateway_interface.c:195-443 | However a stream of printed entry messages is cut into calls and buffers, exactly these messages are handed on, and the beginning of the next one waits in the chunk |
| `PolicyMessages.HeadLength` | src/proxy/bs/src/message.c:5-25 | The length read from a printed head is the length printed, for every length of 32 bits |
| `PolicyMessages.HeadVersion` | src/proxy/bs/src/message.c:5-25 | The head has the type, major version 1, and minor version 4 for requests of policy version 14 and 3 otherwise |
| `PolicyMessages.RoundTrip` | src/proxy/bs/src/msg_policy.c:399-460 | Printed messages that the handler accepts are dispatched as exactly those messages, and an incomplete one behind them waits |
| `PolicyMessages.PolicyReaches` | src/proxy/bs/src/msg_policy.c:308-333 | A printed response reaches the handler with exactly its serial number and its policy |
| `PolicyMessages.HandledExact` | src/proxy/bs/src/msg_policy.c:335-371 | A message is accepted if and only if its version is 1.3 or 1.4, its type is 14, and its body is a response whose serial number and policy the handler accepts |
| `PolicyMessages.PoliciesAccepted` | src/proxy/bs/src/msg_policy.c:308-371 | Messages with policies are all accepted if and only if the handler accepts each serial number and policy in turn |
| `PolicyMessages.LengthRefused` | src/proxy/bs/src/msg_policy.c:411-446 | An unfinished message is refused at once if and only if its head announces more than an int holds or more than the chunk may hold; otherwise it waits |
| `PolicyMessages.NothingAnnounced` | src/proxy/bs/src/msg_policy.c:411-446 | A head that announces no body is refused |
| `PolicyMessages.DispatchResumes` | src/proxy/bs/src/msg_policy.c:399-460 | What later calls do with more bytes is what one call does with all of them |
| `PolicyFraming.MsgAddHead` | src/proxy/bs/src/message.c:5-25 | The seven bytes of the head are written and no other |
| `PolicyFraming.PlcyParseMsg` | src/proxy/bs/src/msg_policy.c:335-371 | The message is brought into one buffer without changing the bytes of the chunk, and answered as the reference does |
| `PolicyFraming.MsgGetBodylen` | src/proxy/bs/src/msg_policy.c:374-397 | The length field of the first bytes |
| `PolicyFraming.ParseOne` | src/proxy/bs/src/msg_policy.c:411-455 | One round dispatches and erases the first message, waits for it, or refuses it |
| `PolicyFraming.PolicyParseData` | src/proxy/bs/src/msg_policy.c:399-460 | Dispatches exactly the whole messages at the front and leaves the rest; the loop ends because every round erases bytes |
| `PolicyFraming.ReadStream` | src/proxy/bs/src/msg_policy.c:399-460 | Every segmentation into calls and buffers dispatches exactly the messages of the whole stream |
| `JsonBrackets.Deterministic` | src/proxy/bs/src/msg_rpc.c:6-73 | An answer other than 0 on a prefix stays the same whatever follows |
| `JsonBrackets.ScanExact` | src/proxy/bs/src/msg_rpc.c:6-73 | A found message is found on exactly its own bytes and on no shorter prefix |
| `JsonBrackets.ObjectFound` | src/proxy/bs/src/msg_rpc.c:6-73 | Every printed object of nested brackets and strings with escapes, after blanks, is found with exactly its length |
| `JsonBrackets.RefusedExact` | src/proxy/bs/src/msg_rpc.c:6-73 | The answer is minus a place if and only if the byte there is the first wrong one and no message ends before it: in front of the first bracket anything but a blank, a backslash outside of a string, or a bracket too deep for 29 bits |
| `JsonBrackets.EndExact` | src/proxy/bs/src/msg_rpc.c:6-73 | A message ends at a place if and only if the last open bracket is closed there and nothing before it is wrong |
| `JsonBrackets.GarbageRefused` | src/proxy/bs/src/msg_rpc.c:59-72 | What is neither a blank nor an opening bracket is refused in front of the first bracket, at its place |
| `JsonBrackets.BackslashRefused` | src/proxy/bs/src/msg_rpc.c:40-44 | A backslash between the members of an object is refused at its place |
| `JsonBrackets.FirstByte` | src/proxy/bs/src/msg_rpc.c:6-73 | For each of the 256 bytes: the first byte is refused unless it is one of five blanks or an opening brace |
| `JsonBrackets.StringExample` | src/proxy/bs/src/msg_rpc.c:6-73 | An object whose string holds a brace and an escaped quote is found |
| `JsonBrackets.MessagesAppend` | src/proxy/bs/src/msg_rpc.c:75-116 | Refills do not change which messages are found |
| `RpcReader.JsonResloveOne` | src/proxy/bs/src/msg_rpc.c:6-73 | The loop computes the automaton |
| `RpcReader.RpcConn.Compact` | src/proxy/bs/src/fdrw.c:76-82 | The unread bytes move to the front unchanged |
| `RpcReader.RpcConn.ReadfdCommon` | src/proxy/bs/src/fdrw.c:57-138 | Exactly the bytes that the socket has and there is room for follow the unread ones; the answer is an error if and only if nothing is announced, or the read fails or brings nothing although there was room |
| `RpcReader.DeliveredMost` | src/proxy/bs/src/fdrw.c:57-138 | A read brings all bytes there are, up to what is announced and what there is room for |
| `RpcReader.RpcConn.RpcMsgReslove` | src/proxy/bs/src/msg_rpc.c:75-116 | The first message leaves the buffer with exactly its bytes, or nothing does |
| `RpcReader.RpcConn.RpcHandleRead` | src/proxy/bs/src/fd_rpc.c:36-70 | One event reads, handles, keeps and closes exactly as the reference says: the drain loop handles the messages in order, and stops at a pause, a refusal or a hopeless rest |
| `RpcReader.Serve` | src/proxy/bs/src/fd_rpc.c:36-70 | Over any events, what is read, handled and kept, and whether the connection closes, is what the reference says |
| `RpcReader.OnlyBytesMatter` | src/proxy/bs/src/fd_rpc.c:36-70 | With a handler that takes every message, what is handled and what is left depend only on the byte stream, however it was cut into events, reads and compactions |
| `RpcReader.StreamKept` | src/proxy/bs/src/fd_rpc.c:36-70 | Whatever the handler answers, the handled messages and those still in the buffer are the messages of the stream |
| `RpcReader.ClosedWhen` | src/proxy/bs/src/fdrw.c:57-138 | The connection closes exactly when the socket breaks, or when the unfinished message is wrong or fills the buffer |
| `RpcReader.GarbageCloses` | src/proxy/bs/src/fd_rpc.c:45-48 | A connection whose first bytes are no message closes with the first wrong byte, in whatever pieces it is read, and nothing is handled |
| `PeerClose.Server.JobAddconn` | src/proxy/bs/src/job.c:138-163 | The events join the last job when it is for the same connection, otherwise a new job; nothing else changes |
| `PeerClose.Server.JobDelconn` | src/proxy/bs/src/job.c:184-199 | Exactly the jobs of the connection are marked |
| `PeerClose.Server.JobClear` | src/proxy/bs/src/job.c:79-101 | Exactly the unmarked jobs stay |
| `PeerStates.RoundsMean` | src/proxy/bs/src/forward.c:641-994 | For any number of rounds that all succeed: the last backend holds what it held and the bytes of all rounds since it was made, with a job to send them when it works; every backend dropped on the way keeps its bytes, is PEERCLOSED without a peer and has its job; only the client and its backends change |
| `PeerStates.AllGo` | src/proxy/bs/src/forward.c:641-994 | All rounds succeed if and only if each finds what it needs when its turn comes: a backend that can be made, one that works or is on its way, or for a body just one |
| `PeerStates.ClientFate` | src/proxy/bs/src/conn_client.c:110-196 | When an event leaves a client closed, as an if-and-only-if over status, events, rounds and bytes left, and how many bytes it leaves to send |
| `PeerStates.BackendFate` | src/proxy/bs/src/conn_backend.c:19-101 | What an event does to a backend, its client and the queue: status, bytes and jobs of all connections |
| `PeerStates.HandledEnds` | src/proxy/bs/src/conn_client.c:118-137 | A connection is deleted if and only if its events say CLOSE, or PEERCLOSE when nothing is left to send; then it has no live job, and everybody else is as before |
| `PeerStates.ClosedMeans` | src/proxy/bs/src/conn_peer.c:9-32 | Closing: the connection is CLOSED, its peer is PEERCLOSED and detached, exactly their two jobs are added, and nobody else notices |
| `PeerStates.ClientWrites` | src/proxy/bs/src/conn_client.c:172-188 | A write closes a client if and only if it was only written to and nothing is left; a client in use wakes its peer when nothing is left |
| `PeerStates.BackendWrites` | src/proxy/bs/src/conn_backend.c:68-93 | A write closes a backend that is neither connected nor on its way; any other is connected now and wakes its peer when nothing is left |
| `PeerStates.ReplyMeans` | src/proxy/bs/src/dns_parse.c:27-93 | A reply connects the backend, or closes it; it waits no longer |
| `PeerClose.Server.SignalThisClose` | src/proxy/bs/src/conn_peer.c:21-32 | Closing one side keeps the invariant, detaches the peer before anything can reach it through the pair, and changes nothing else |
| `PeerClose.Server.CloseOnItsWay` | src/proxy/bs/src/conn_peer.c:21-32 | The CLOSE job of a connection is pending if and only if it was not added to the running job of a connection without peer, which the main loop drops |
| `PeerClose.Server.HandlePeerClose` | src/proxy/bs/src/conn_peer.c:35-43 | CLOSING_WRITE exactly when bytes are left; the only late case is a connection that was closed already |
| `PeerClose.Server.HandleThisClose` | src/proxy/bs/src/conn_peer.c:46-53 | Deleting a connection keeps the invariant: its jobs are marked and nobody relies on it |
| `PeerClose.Server.ClientHandle` | src/proxy/bs/src/conn_client.c:110-196 | An event on a client does to all connections and to the queue what the reference says, keeps the invariant, and deletes the client exactly for CLOSE and for PEERCLOSE with nothing left to send |
| `PeerClose.Server.ClientIn` | src/proxy/bs/src/conn_io.c:272-349 | A client in use is parsed round by round for as long as rounds succeed: connections and queue are those of the fold over all rounds, and it is accepted if and only if every round succeeded and more bytes are awaited; any other client is left as it is and reported as failed |
| `PeerClose.Server.ParseStep` | src/proxy/bs/src/forward.c:837-971 | One round of parsing does what the reference says: a new backend when the server changes or there is none, a refusal when the backend still waits for its address, and the bytes of a request or of a body to the backend |
| `PeerClose.Server.ParseAndForward` | src/proxy/bs/src/forward.c:641-994 | The loop: connections and queue are those of the fold over all rounds, and it ends at the first round that fails |
| `PeerClose.Server.ClientOut` | src/proxy/bs/src/conn_client.c:172-188 | A write to a client does what the reference says: bytes taken from it, the close of a client that is only written to, and the job that wakes its peer |
| `PeerClose.Server.BackendHandle` | src/proxy/bs/src/conn_backend.c:19-101 | An event on a backend does to all connections and to the queue what the reference says, and keeps the invariant |
| `PeerClose.Server.BackendIn` | src/proxy/bs/src/conn_common.c:171-210 | Bytes are moved only to a client that still points back, and exactly as many as were read |
| `PeerClose.Server.Connect` | src/proxy/bs/src/forward.c:188-244 | A new backend, connected, on its way or waiting for its address, is paired with its client |
| `PeerClose.Server.RunJob` | src/proxy/bs/src/server.c:361-370 | Running a job does what its handler does and marks the job, whatever is added to the queue meanwhile, and keeps the invariant |
| `PeerClose.Server.EpollEvent` | src/proxy/bs/src/server.c:352-359 | An event of epoll, also {IN, OUT}, does to connections and queue what its handler says, and keeps the invariant |
| `PeerClose.Server.Close` | src/proxy/bs/src/timehandle.c:101-121 | Closing a connection from outside, as the timer and the policy server do, closes it like its own handler and keeps the invariant |
| `PeerClose.Server.Reply` | src/proxy/bs/src/dns_parse.c:25-93 | The address of a waiting backend, or the lack of one, does what the reference says and keeps the invariant, also when the backend was closed in the meantime |
| `PeerClose.Server.EndJobs` | src/proxy/bs/src/server.c:361-371 | After the job loop the queue is empty and every closed connection that had a peer is deleted |
| `PeerClose.Run` | src/proxy/bs/src/server.c:342-372 | Every run of the main loop, with closes by the timer and late addresses, stopped anywhere, keeps the invariant |
| `PeerClose.Safety` | src/proxy/bs/src/conn_peer.c:9-53 | What the invariant means: a connection neither CLOSED nor revived has no peer or a live one, not CLOSED, that points back; no unmarked job names a deleted connection; a client in CLOSING_WRITE has a CLOSE job only after a late peer-close; the peer of a connection whose next job does not delete it is still there |
| `PeerClose.LateExample` | src/proxy/bs/src/server.c:342-372 | The late peer-close happens: a run to a client in CLOSING_WRITE, five bytes to send and a pending CLOSE |
| `PeerClose.LostExample` | src/proxy/bs/src/server.c:342-372 | The lost CLOSE happens: a run to a connection that is CLOSED with no job left |
| `PeerClose.RevivedExample` | src/proxy/bs/src/dns_parse.c:25-66 | The late address happens: a run to a backend that is connecting again with a job that deletes it |
| `EchoBlocks.BlockPlaces` | src/proxy/bs/src/dns_parse.c:95-153 | Block i is exactly the i-th eight bytes of the stream, and fewer than eight bytes are left |
| `EchoBlocks.BlocksAppend` | src/proxy/bs/src/dns_parse.c:95-153 | The blocks of a longer stream are those so far and those of the rest with what follows |
| `DnsEcho.Continue` | src/proxy/bs/src/dns_parse.c:106-126 | A started packet takes exactly the bytes it misses, or all there are |
| `DnsEcho.SetAside` | src/proxy/bs/src/dns_parse.c:129-137 | Too few bytes for a packet are set aside |
| `DnsEcho.Whole` | src/proxy/bs/src/dns_parse.c:138-149 | A whole packet is handled and only its bytes leave the chunk |
| `DnsEcho.ParseEcho` | src/proxy/bs/src/dns_parse.c:95-153 | The packets handled are the blocks of what was held and what the chunk holds; the chunk is emptied and the rest is held |
| `DnsEcho.ReadStream` | src/proxy/bs/src/dns_parse.c:95-153 | Every segmentation: the packets are the consecutive blocks of the whole stream, and the context holds exactly the rest |
| `DnsPending.Resolver.Query` | src/proxy/bs/src/dns_parse.c:221-248 | The connection waits under the key of the next number, all others as before; when the request cannot be sent nobody waits in addition and the number is not used up |
| `DnsPending.Resolver.TreeAdd` | src/proxy/bs/src/dns_parse.c:161-182 | The tree gains exactly the node of the connection, also when its key is there already |
| `DnsPending.Resolver.HandlePkt` | src/proxy/bs/src/dns_parse.c:27-93 | A reply wakes a connection that waits under its key, if and only if there is one, and takes exactly that one out of the tree, so at most once for every query; the answer is an error exactly when nobody waits, the name is missing or the connect fails |
| `DnsPending.Resolver.Answer` | src/proxy/bs/src/dns_parse.c:27-93 | A reply with the key of a query, while no other connection waits under it, reaches exactly the connection that asked: it connects to the address, or is closed for the address 0 or when the connect fails |
| `DnsPending.KeyReturned` | src/proxy/bs/src/dns_parse.c:68-71 | The key of a reply is k if and only if its first four bytes are those of k, the lowest first |
| `DnsPending.Resolver.KeysDistinct` | src/proxy/bs/src/dns_parse.c:239-242 | While no waiting query is older than the last 2^32 - 1, no two wait under one key, so a reply reaches the connection that asked |
| `DnsPending.KeyClash` | src/proxy/bs/src/dns_parse.c:239-242 | Two queries have the same key if and only if a multiple of 2^32 - 1 queries lies between them |
| `DnsPending.ClashExample` | src/proxy/bs/src/dns_parse.c:221-262 | Such a run: two connections wait under one key after 2^32 queries |
| `DnsPending.Resolver.CountRight` | src/proxy/bs/src/dns_parse.c:221-262 | dns_conn_num is the number of waiting connections, modulo 2^32, if and only if the number of queries that could not be sent is a multiple of 2^32 |
| `DnsPending.Resolver.DelConn` | src/proxy/bs/src/dns_parse.c:251-262 | The connection no longer waits, and all others still do |
| `DnsPending.Resolver.ConnectionDel` | src/proxy/bs/src/connection.c:113-135 | No reply can reach a deleted connection |
| `DnsPending.Run` | src/proxy/bs/src/dns_parse.c:68-262 | On every run the tree entries and the waiting connections correspond one to one, and no connection is woken more often than it asked |

## Left out

- HttpLine.AbsoluteFormRewritten: not for ftp, whose lookahead for user and password (`check_at_forward`) is not modelled; a line with scheme ftp ends with a code of its own.
- Gateway.ReadStream: for streams in which no length field is below 5, and for non-empty buffers; with a smaller length the C code copies a negative size.
- DnsPending.Resolver.Query: for a connection that does not wait yet, as the only caller guarantees with a new one; the check for a missing name and the request itself are left out.
- DnsCache.Cache.Find: for names with a NUL byte it answers for what strncmp compares, not for the whole name.
- Chunks.Chunk.Merge: does not claim total_size and used_size, and Chunks.Chunk.Split claims no counter, because the code does not maintain them there.
- PeerClose.Server.CloseOnItsWay: exact for the state right after the signal; that every pending job is reached is the business of `PeerClose.Server.EndJobs`.
- `deel_gw_buffer`, `plcy_parse_plcy` and the json handlers: the bodies behind the framing; a policy body is judged by a parameter.
- `forward.c`: choosing a server, splitting bodies and rewriting heads; a round of parsing is a request, the head of a request with a body, or a piece of a body, each with its number of bytes, and the parser decides which as a parameter.
- Clients that forward unread bytes to an SSL server with a client certificate (`conn_client.c:158-159`): the same effect on the pair as forwarding a parsed request.
- `http_save_req_head` and `http_head_host_split`: copying heads for later use.
- The statuses HTTPCONNECT and of the SSL handshake, and waking the sleeping backend through the wait queue, which is a boolean outcome here.
- `conn_add_queue`, `conn_del_queue`, `conn_timeupdate`: plain list membership and timestamps.
- PeerClose.Run: the connections to the resolver, the policy, audit and ip filter servers and of the gateway, which have no peer; their jobs only write or close and are no jobs of this model.
- Allocation failure, the allocated length of a name, freeing of memory, logging.
- `timers`, sockets, epoll, SSL, iptables and the json library; their sources are not part of this model.
- `hash_table.c`, `hexstr.c`, `compare2url.c`, `ipt_redirect.c`, `get_port_from_url.c`: easy, or without a promise to prove.
- Aliasing of the list links inside buffers, connections and cache entries: outside of `Ring.dfy` a list is a sequence field, so stale links of removed elements are not captured.
- The other trees of the repository: `src/old`, `src/server`, `src/proxy/proxy*` and `src/proxy/ps`.
