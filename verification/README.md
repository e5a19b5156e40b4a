# Mycelium node and C interface, modelled in Dafny

Mycelium is a peer-to-peer content-exchange node built on libp2p. It uses gossipsub for topic broadcast, mDNS for discovery and a request-response protocol for signed reactions. This project models the two parts of it that make decisions of their own:

- **The core node** (`core/src/network/node.rs`, module `Node` in `node.dfy`). `MyNode` keeps the set of topics it has subscribed to and drives a libp2p swarm. The swarm is foreign. The model keeps an append-only log of the calls the node makes on it (dial, publish, subscribe, send request or response, listen, spawn the drain loop). The outcome of each fallible swarm call is a parameter. Three pieces of library code are supplied as the functions of a `Libp2p` record: multiaddress parsing, peer-id parsing and protobuf encoding of a post. Every operation is a pure function returning the result and the next node. `Command`, `Apply` and `Run` chain operations so that the topic set can be described over whole runs.
- **The C interface of the p2p crate** (`mycelium-p2p/src/ffi.rs`, module `Ffi` in `ffi.dfy`). The `NODE_THREAD` slot is either empty or holds the handle of the thread running the node. Every exported call checks its pointer arguments in a fixed order, and `with_node` and `node_json` map outcomes to `bool` or pointer sentinels. The strings handed to the caller stay owned by the caller until `mycelium_p2p_free_string`. The node this layer drives is opaque: the model records each call made on it while the lock is held. Whether a lock is obtained is a parameter, because a poisoned `std::sync::Mutex` refuses it.
- **JSON text** (module `Json` in `json.dfy`). This is the part of `serde_json::to_string` used by `node_json`: string escaping and compact string arrays, plus a reader for that output. It shows that the interior-NUL check in `node_json` can never fail for the three query calls. It also shows that the caller can read back exactly the ids that were serialised.
- `Base` (`base.dfy`) holds `Option`, `Result` and `byte`.

Two facts about the code shape the model:

- A duplicate subscribe returns `Err`, like any other failure (`core/src/network/node.rs:114-116`).
- The core `start` keeps no running state (`core/src/network/node.rs:175-206`), so nothing in `start` refuses a second call. In the source that second call then waits for the swarm lock held by the first drain loop, which the model leaves out (`Node.StartHasNoGuard`). The only running-state guard is the thread slot of the C interface (`Ffi.NodeStart`).

## Model

| member | source | states |
|---|---|---|
| Node.New | core/src/network/node.rs:31-88 | Construction fails exactly when the swarm builder fails; a new node has an empty topic set and has made no swarm call. |
| Node.ConnectToPeer | core/src/network/node.rs:90-94 | A malformed address is an error and leaves the node untouched; otherwise exactly one dial of the parsed address is made; success iff the address parses and the dial succeeds, and a failed dial is reported as a dial error; topics unchanged. |
| Node.PublishPost | core/src/network/node.rs:96-111 | A post that fails to encode is an error with no swarm call; otherwise one gossipsub publish of the encoded bytes on the topic; success iff encoding and publishing succeed, and a failed publish is reported as a publish error; topics never consulted nor changed. |
| Node.SubscribeTopic | core/src/network/node.rs:113-126 | A topic already in the set is rejected with no gossipsub call and an unchanged node; a new topic is passed to gossipsub, and the set becomes old set plus exactly that topic iff gossipsub succeeds; on gossipsub failure the error propagates and the set is unchanged. |
| Node.SendReaction | core/src/network/node.rs:128-141 | A malformed peer id is an error before any request; otherwise exactly one request to the parsed peer is queued and the call succeeds. |
| Node.SendAck | core/src/network/node.rs:143-154 | Exactly one response is sent on the channel; on failure the ack is returned to the caller; topics unchanged. |
| Node.Start | core/src/network/node.rs:175-206 | A malformed address is an error with no listen; a listen failure is an error after one listen call and before any drain loop; success iff both succeed, after which exactly one listen and one drain-loop spawn were added. |
| Node.Stop | core/src/network/node.rs:208-211 | Always succeeds and changes nothing. |
| Node.ApplyGrows | core/src/network/node.rs:90-211 | For every operation the topic set only grows, the swarm log is only appended to, every recorded topic keeps a gossipsub subscribe behind it, and the set changes only by an accepted subscribe adding exactly its topic. |
| Node.RunTopics | core/src/network/node.rs:113-126 | After any sequence of operations the topic set equals the starting set plus the topics of the subscribes gossipsub accepted; no operation removes a topic. |
| Node.FreshNodeTopics | core/src/network/node.rs:84-87 | A node built from scratch ends any run with exactly the accepted topics, each subscribed through gossipsub. |
| Node.SubscribeTwice | core/src/network/node.rs:114-116 | Subscribing a second time after a successful subscribe is rejected as already subscribed, without a gossipsub call, whatever gossipsub would answer. |
| Node.PublishIgnoresTopics | core/src/network/node.rs:96-111 | Two nodes differing only in their topic sets publish identically, so publishing to a topic never subscribed is not rejected. |
| Node.StartHasNoGuard | core/src/network/node.rs:175-206 | `start` keeps no running state, so nothing in it refuses a second call: with the swarm lock abstracted, two starts in a row both succeed and issue two listens and two drain-loop spawns. |
| Ffi.ReadCStr | mycelium-p2p/src/ffi.rs:71-80 | A C string argument is accepted iff it is non-null valid UTF-8; null is reported before invalid UTF-8. |
| Ffi.ReadCStrData | mycelium-p2p/src/ffi.rs:99-118 | The string is checked (null, then UTF-8) before the data pointer; both must be present for success, which yields the text and the bytes. |
| Ffi.WithNode | mycelium-p2p/src/ffi.rs:210-227 | True iff the node lock is obtained and the closure returns Ok; without the lock the node is not touched. |
| Ffi.NodeJson | mycelium-p2p/src/ffi.rs:229-261 | Non-null iff the lock is obtained, serialisation succeeds and the text has no NUL; a non-null pointer is a fresh id owning that text and advances the next id by one; without the lock nothing changes; the slot, threads and earlier strings are never touched. |
| Ffi.NodeStart | mycelium-p2p/src/ffi.rs:17-49 | True iff the address is non-null valid UTF-8, the slot lock is obtained and no thread is running; on false nothing changes; on true one thread is spawned with that address and its handle fills the slot. |
| Ffi.NodeStop | mycelium-p2p/src/ffi.rs:51-68 | True iff the slot lock is obtained and a thread is running; on true that thread is joined and the slot emptied; on false nothing changes. |
| Ffi.ConnectToPeer | mycelium-p2p/src/ffi.rs:70-91 | True iff the address is non-null valid UTF-8 and the node lock is obtained; then exactly one connect reaches the node; otherwise the node is not touched. |
| Ffi.PublishMessage | mycelium-p2p/src/ffi.rs:93-124 | True iff the topic is valid, the data pointer non-null and the node lock obtained; then one publish of those bytes reaches the node; otherwise nothing changes. |
| Ffi.SubscribeTopic | mycelium-p2p/src/ffi.rs:126-148 | True iff the topic is non-null valid UTF-8 and the node lock is obtained; then one subscribe reaches the node; otherwise nothing changes. |
| Ffi.SendReactionCall | mycelium-p2p/src/ffi.rs:150-178 | True iff the peer string is valid, the data pointer non-null and the node lock obtained; then one send-reaction reaches the node; otherwise nothing changes. |
| Ffi.LocalPeerIdCall | mycelium-p2p/src/ffi.rs:180-183 | Non-null exactly when the node lock is obtained, and the returned JSON reads back as the peer id. Without the lock nothing changes; with it, one call reaches the node, the slot, threads and strings handed out earlier are untouched, and a non-null result adds exactly one fresh string and advances the next id by one. |
| Ffi.ConnectedPeersCall | mycelium-p2p/src/ffi.rs:185-192 | Non-null exactly when the node lock is obtained, and the returned JSON array reads back as the connected peer ids. Without the lock nothing changes; with it, one call reaches the node, the slot, threads and strings handed out earlier are untouched, and a non-null result adds exactly one fresh string and advances the next id by one. |
| Ffi.DiscoveredNodesCall | mycelium-p2p/src/ffi.rs:194-201 | Non-null exactly when the node lock is obtained, and the returned JSON array reads back as the discovered peer ids. Without the lock nothing changes; with it, one call reaches the node, the slot, threads and strings handed out earlier are untouched, and a non-null result adds exactly one fresh string and advances the next id by one. |
| Ffi.FreeString | mycelium-p2p/src/ffi.rs:203-208 | Freeing null is a no-op; freeing a handed-out string removes exactly that string and leaves the others as they were; the slot, threads, joined count, node calls and next id are unchanged. |
| Ffi.StartStopRestart | mycelium-p2p/src/ffi.rs:31-67 | From an empty slot: start succeeds, a second start is refused without spawning or replacing the handle, stop succeeds and empties the slot, and a later start succeeds again. |
| Ffi.FreeUndoesNodeJson | mycelium-p2p/src/ffi.rs:204-261 | Freeing the pointer a string call returned restores the caller-owned strings to what they were before the call. |
| Ffi.CommandsAnswerTheLock | mycelium-p2p/src/ffi.rs:70-178 | With valid arguments, connect, publish, subscribe and send_reaction answer true exactly when the node lock is obtained, whatever the node does. |
| Ffi.StepsValid | mycelium-p2p/src/ffi.rs:15-67 | Every sequence of exported calls, including frees of handed-out strings, keeps each spawned thread either joined or the one in the slot, so at most one thread is ever unjoined, and keeps string ids fresh. |
| Ffi.InitialValid | mycelium-p2p/src/ffi.rs:15 | The empty initial slot satisfies that invariant, so every run from it does too. |
| Json.StrNoNul | mycelium-p2p/src/ffi.rs:244-258 | The JSON text of any string has no NUL, so the C-string conversion cannot fail for it. |
| Json.StrArrayNoNul | mycelium-p2p/src/ffi.rs:244-258 | The JSON text of any list of strings has no NUL, so the C-string conversion cannot fail for it. |
| Json.ReadStrOfStr | mycelium-p2p/src/ffi.rs:244-250 | The JSON text of a string reads back as that string. |
| Json.ReadStrArrayOfStrArray | mycelium-p2p/src/ffi.rs:244-250 | The JSON text of a list of strings reads back as that list. |

## Left out

- Swarm construction (transport, Noise, Yamux, the gossipsub configuration, mDNS, request-response): foreign configuration. `Node.New` reduces it to whether building succeeds.
- The content-addressed gossipsub message id: it is an unspecified hash. Deduplication is not modelled.
- Ffi.StepsValid: a free of a pointer the library did not hand out, or freed already, is undefined behaviour in the source; the runs treat it as doing nothing.
- Node.StartHasNoGuard: holds only because the swarm lock is abstracted. In the source the first drain loop keeps the swarm lock for good, so a second `start` normally waits forever at its `listen_on`.
- The event-drain loop spawned by `start` and the shared `Arc<Mutex<Swarm>>`. `Node.Start` records only that a loop is spawned. The loop keeps the swarm lock for its whole life, so in the source a later operation on a started node would wait for that lock forever. That is concurrency and is not modelled.
- `local_peer_id`, `connected_peers` and `discovered_nodes` of the core node only read foreign swarm state. `Node.Command` has them as `Query`, which changes nothing.
- Multiaddress and peer-id parsing, protobuf encoding, and the `to_string` of a gossipsub topic are library code. The first three are functions of `Node.Libp2p`. The topic key recorded is taken to be the topic name.
- `CStr::from_ptr` and UTF-8 validation: `Ffi.CStr` keeps only the three cases the checks distinguish.
- Thread spawning and joining in the C interface: a spawn is recorded as the address the thread will start the node on, and a join is a counter. A join that never returns is not modelled.
- The p2p crate's own node type is not part of this model. Calls on it are recorded as `Ffi.NodeCall`. The results of connect, publish, subscribe and send_reaction are not used, since the source discards them; the answers of the three queries are parameters of the query calls. Its lazy construction, which panics if creation fails, is not modelled either.
- The wire codec (`core/src/network/protocol.rs`): a thin wrapper over generated protobuf code, with no local logic.
- The core crate's own C interface (`core/src/ffi.rs`): panic catching and runtime plumbing around the same node operations.
- Diagnostic output (`eprintln!`, `log::debug!`) is not modelled.
- The other repository files are event loops that only print, stub service responses, configuration loading, task orchestration and build scripts. None of them is part of this model.
