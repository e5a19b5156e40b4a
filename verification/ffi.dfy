/** The C interface of the p2p crate: a process-wide node behind a lock, a
    process-wide slot holding the join handle of the thread that runs the
    node, argument checks on every exported call, and the strings it hands
    to the caller until they are freed.

    The node this layer drives is opaque here: each call made on it is
    recorded, in order, in `nodeCalls`. Whether a lock is obtained (a
    `std::sync::Mutex` is poisoned once a holder panicked) is a parameter. */
module Ffi {
  import opened Base
  import Json

  /** A `*const c_char` argument, as `CStr::from_ptr(p).to_str()` sees it. */
  datatype CStr = NullPtr | NotUtf8 | Utf8(text: string)

  /** A `(*const u8, usize)` argument pair. */
  datatype Data = NullData | Slice(bytes: seq<byte>)

  /** Which argument check failed. */
  datatype ArgError = NullPointer | InvalidUtf8 | NullDataPointer

  /** `Option<JoinHandle<()>>`: empty, or the handle of the given thread. */
  datatype Slot = Empty | Running(thread: nat)

  /** A call made on the node while its lock is held. */
  datatype NodeCall =
    | Connect(addr: string)
    | Publish(topic: string, payload: seq<byte>)
    | Subscribe(topic: string)
    | SendReaction(peer: string, data: seq<byte>)
    | LocalPeerId
    | ConnectedPeers
    | DiscoveredNodes

  /** A `*mut c_char` returned to the caller: null, or the string with the
      given allocation id. */
  datatype CPtr = Null | Owned(id: nat)

  /** Process-wide state: the thread slot; the listen address of every
      thread spawned so far, in order; how many of them were joined; the
      calls made on the node; and the strings the caller owns. */
  datatype FfiState = FfiState(
    slot: Slot,
    threads: seq<string>,
    joined: nat,
    nodeCalls: seq<NodeCall>,
    strings: map<nat, string>,
    nextId: nat)

  /** A `bool`-returning call's answer and the state after it. */
  datatype BoolCall = BoolCall(ok: bool, st: FfiState)

  /** A string-returning call's answer and the state after it. */
  datatype PtrCall = PtrCall(ptr: CPtr, st: FfiState)

  /** The state before any call: `NODE_THREAD` initialises to `None`. */
  const Initial: FfiState := FfiState(Empty, [], 0, [], map[], 0)

  /** Every spawned thread is either the one in the slot or was joined, the
      slot holds the latest thread, and every live string has an id below
      the next one to be handed out. */
  ghost predicate Valid(st: FfiState)
  {
    && |st.threads| == st.joined + (if st.slot.Running? then 1 else 0)
    && (st.slot.Running? ==> st.slot.thread == st.joined)
    && forall id :: id in st.strings ==> id < st.nextId
  }

  // ---------------------------------------------------------------------
  // Argument checks

  /** Reads a C string argument: the null check comes first, then UTF-8. */
  function ReadCStr(p: CStr): (r: Result<string, ArgError>)
    ensures r.Ok? <==> p.Utf8?
    ensures r.Ok? ==> r.value == p.text
    ensures p.NullPtr? ==> r == Err(NullPointer)
    ensures p.NotUtf8? ==> r == Err(InvalidUtf8)
  {
    match p
    case NullPtr => Err(NullPointer)
    case NotUtf8 => Err(InvalidUtf8)
    case Utf8(s) => Ok(s)
  }

  /** Reads a C string and a data buffer: the string is checked in full
      before the data pointer is looked at. */
  function ReadCStrData(p: CStr, d: Data): (r: Result<(string, seq<byte>), ArgError>)
    ensures r.Ok? <==> p.Utf8? && d.Slice?
    ensures r.Ok? ==> r.value == (p.text, d.bytes)
    ensures !p.Utf8? ==> r == Err(ReadCStr(p).error)
    ensures p.Utf8? && d.NullData? ==> r == Err(NullDataPointer)
  {
    match ReadCStr(p)
    case Err(e) => Err(e)
    case Ok(s) =>
      match d
      case NullData => Err(NullDataPointer)
      case Slice(bytes) => Ok((s, bytes))
  }

  // ---------------------------------------------------------------------
  // Lock wrappers

  /** `with_node`: when the node lock is obtained the closure runs (its
      call is made on the node) and its `Ok` maps to true, its `Err` to
      false; when the lock is not obtained nothing runs and the answer is
      false. */
  function WithNode(st: FfiState, locked: bool, call: NodeCall, closure: Result<(), string>)
    : (r: BoolCall)
    ensures r.ok <==> locked && closure.Ok?
    ensures !locked ==> r.st == st
    ensures locked ==> r.st == st.(nodeCalls := st.nodeCalls + [call])
  {
    if !locked then BoolCall(false, st)
    else BoolCall(closure.Ok?, st.(nodeCalls := st.nodeCalls + [call]))
  }

  /** `node_json`: under the node lock, make the call, serialise its data
      (`json` is `None` when serialisation fails) and hand the text to the
      caller as a C string, which cannot hold an interior NUL. Any failure
      gives a null pointer. */
  function NodeJson(st: FfiState, locked: bool, call: NodeCall, json: Option<string>)
    : (r: PtrCall)
    ensures r.ptr.Owned? <==> locked && json.Some? && '\0' !in json.value
    ensures !locked ==> r.st == st
    ensures locked ==> r.st.nodeCalls == st.nodeCalls + [call]
    ensures r.ptr.Null? ==> r.st.strings == st.strings
    ensures r.ptr.Owned? ==>
              r.ptr.id == st.nextId && r.st.strings == st.strings[st.nextId := json.value]
    ensures r.st.slot == st.slot && r.st.threads == st.threads && r.st.joined == st.joined
    ensures r.st.nextId == if r.ptr.Owned? then st.nextId + 1 else st.nextId
    ensures Valid(st) ==> Valid(r.st)
  {
    if !locked then PtrCall(Null, st)
    else
      var st1 := st.(nodeCalls := st.nodeCalls + [call]);
      match json
      case None => PtrCall(Null, st1)
      case Some(text) =>
        if '\0' in text then PtrCall(Null, st1)
        else PtrCall(Owned(st.nextId),
                     st1.(strings := st.strings[st.nextId := text], nextId := st.nextId + 1))
  }

  // ---------------------------------------------------------------------
  // Exported calls

  /** `mycelium_p2p_node_start`: check the address, take the slot lock,
      refuse when a thread is already running, otherwise spawn a thread
      that starts the node on the address and keep its handle. */
  function NodeStart(st: FfiState, listenAddr: CStr, slotLocked: bool): (r: BoolCall)
    ensures r.ok <==> listenAddr.Utf8? && slotLocked && st.slot.Empty?
    ensures !r.ok ==> r.st == st
    ensures r.ok ==> r.st == st.(slot := Running(|st.threads|),
                                 threads := st.threads + [listenAddr.text])
    ensures Valid(st) ==> Valid(r.st)
  {
    match ReadCStr(listenAddr)
    case Err(_) => BoolCall(false, st)
    case Ok(addr) =>
      if !slotLocked then BoolCall(false, st)
      else if st.slot.Running? then BoolCall(false, st)
      else BoolCall(true, st.(slot := Running(|st.threads|), threads := st.threads + [addr]))
  }

  /** `mycelium_p2p_node_stop`: take the slot lock; if a thread is running,
      take its handle, join it and answer true, otherwise answer false. */
  function NodeStop(st: FfiState, slotLocked: bool): (r: BoolCall)
    ensures r.ok <==> slotLocked && st.slot.Running?
    ensures !r.ok ==> r.st == st
    ensures r.ok ==> r.st == st.(slot := Empty, joined := st.joined + 1)
    ensures Valid(st) ==> Valid(r.st)
  {
    if !slotLocked then BoolCall(false, st)
    else match st.slot
      case Running(_) => BoolCall(true, st.(slot := Empty, joined := st.joined + 1))
      case Empty => BoolCall(false, st)
  }

  /** `mycelium_p2p_connect_to_peer`. */
  function ConnectToPeer(st: FfiState, addr: CStr, locked: bool): (r: BoolCall)
    ensures r.ok <==> addr.Utf8? && locked
    ensures r.ok ==> r.st == st.(nodeCalls := st.nodeCalls + [Connect(addr.text)])
    ensures !r.ok ==> r.st == st
    ensures Valid(st) ==> Valid(r.st)
  {
    match ReadCStr(addr)
    case Err(_) => BoolCall(false, st)
    case Ok(s) => WithNode(st, locked, Connect(s), Ok(()))
  }

  /** `mycelium_p2p_publish_message`. */
  function PublishMessage(st: FfiState, topic: CStr, data: Data, locked: bool): (r: BoolCall)
    ensures r.ok <==> topic.Utf8? && data.Slice? && locked
    ensures r.ok ==> r.st == st.(nodeCalls := st.nodeCalls + [Publish(topic.text, data.bytes)])
    ensures !r.ok ==> r.st == st
    ensures Valid(st) ==> Valid(r.st)
  {
    match ReadCStrData(topic, data)
    case Err(_) => BoolCall(false, st)
    case Ok((t, payload)) => WithNode(st, locked, Publish(t, payload), Ok(()))
  }

  /** `mycelium_p2p_subscribe_topic`. */
  function SubscribeTopic(st: FfiState, topic: CStr, locked: bool): (r: BoolCall)
    ensures r.ok <==> topic.Utf8? && locked
    ensures r.ok ==> r.st == st.(nodeCalls := st.nodeCalls + [Subscribe(topic.text)])
    ensures !r.ok ==> r.st == st
    ensures Valid(st) ==> Valid(r.st)
  {
    match ReadCStr(topic)
    case Err(_) => BoolCall(false, st)
    case Ok(t) => WithNode(st, locked, Subscribe(t), Ok(()))
  }

  /** `mycelium_p2p_send_reaction`. */
  function SendReactionCall(st: FfiState, peer: CStr, data: Data, locked: bool): (r: BoolCall)
    ensures r.ok <==> peer.Utf8? && data.Slice? && locked
    ensures r.ok ==> r.st == st.(nodeCalls := st.nodeCalls + [SendReaction(peer.text, data.bytes)])
    ensures !r.ok ==> r.st == st
    ensures Valid(st) ==> Valid(r.st)
  {
    match ReadCStrData(peer, data)
    case Err(_) => BoolCall(false, st)
    case Ok((p, bytes)) => WithNode(st, locked, SendReaction(p, bytes), Ok(()))
  }

  /** `mycelium_p2p_local_peer_id`: the node's peer id as a JSON string.
      Its JSON text never holds a NUL, so only the lock can make it null,
      and the caller reads back exactly the id. */
  function LocalPeerIdCall(st: FfiState, locked: bool, peerId: string): (r: PtrCall)
    ensures r.ptr.Owned? <==> locked
    ensures r.ptr.Owned? ==> r.ptr.id in r.st.strings &&
                             Json.ReadStr(r.st.strings[r.ptr.id]) == Some(peerId)
    ensures !locked ==> r.st == st
    ensures locked ==> r.st.nodeCalls == st.nodeCalls + [LocalPeerId]
    ensures r.st.slot == st.slot && r.st.threads == st.threads && r.st.joined == st.joined
    ensures r.ptr.Null? ==> r.st.strings == st.strings
    ensures r.ptr.Owned? ==> r.ptr.id == st.nextId &&
                             r.st.strings == st.strings[st.nextId := r.st.strings[st.nextId]]
    ensures r.st.nextId == if r.ptr.Owned? then st.nextId + 1 else st.nextId
    ensures Valid(st) ==> Valid(r.st)
  {
    Json.StrNoNul(peerId);
    Json.ReadStrOfStr(peerId);
    NodeJson(st, locked, LocalPeerId, Some(Json.Str(peerId)))
  }

  /** `mycelium_p2p_connected_peers`: the connected peer ids as a JSON
      array; null only when the lock is not obtained. */
  function ConnectedPeersCall(st: FfiState, locked: bool, peers: seq<string>): (r: PtrCall)
    ensures r.ptr.Owned? <==> locked
    ensures r.ptr.Owned? ==> r.ptr.id in r.st.strings &&
                             Json.ReadStrArray(r.st.strings[r.ptr.id]) == Some(peers)
    ensures !locked ==> r.st == st
    ensures locked ==> r.st.nodeCalls == st.nodeCalls + [ConnectedPeers]
    ensures r.st.slot == st.slot && r.st.threads == st.threads && r.st.joined == st.joined
    ensures r.ptr.Null? ==> r.st.strings == st.strings
    ensures r.ptr.Owned? ==> r.ptr.id == st.nextId &&
                             r.st.strings == st.strings[st.nextId := r.st.strings[st.nextId]]
    ensures r.st.nextId == if r.ptr.Owned? then st.nextId + 1 else st.nextId
    ensures Valid(st) ==> Valid(r.st)
  {
    Json.StrArrayNoNul(peers);
    Json.ReadStrArrayOfStrArray(peers);
    NodeJson(st, locked, ConnectedPeers, Some(Json.StrArray(peers)))
  }

  /** `mycelium_p2p_discovered_nodes`: the mDNS-discovered peer ids as a
      JSON array; null only when the lock is not obtained. */
  function DiscoveredNodesCall(st: FfiState, locked: bool, peers: seq<string>): (r: PtrCall)
    ensures r.ptr.Owned? <==> locked
    ensures r.ptr.Owned? ==> r.ptr.id in r.st.strings &&
                             Json.ReadStrArray(r.st.strings[r.ptr.id]) == Some(peers)
    ensures !locked ==> r.st == st
    ensures locked ==> r.st.nodeCalls == st.nodeCalls + [DiscoveredNodes]
    ensures r.st.slot == st.slot && r.st.threads == st.threads && r.st.joined == st.joined
    ensures r.ptr.Null? ==> r.st.strings == st.strings
    ensures r.ptr.Owned? ==> r.ptr.id == st.nextId &&
                             r.st.strings == st.strings[st.nextId := r.st.strings[st.nextId]]
    ensures r.st.nextId == if r.ptr.Owned? then st.nextId + 1 else st.nextId
    ensures Valid(st) ==> Valid(r.st)
  {
    Json.StrArrayNoNul(peers);
    Json.ReadStrArrayOfStrArray(peers);
    NodeJson(st, locked, DiscoveredNodes, Some(Json.StrArray(peers)))
  }

  /** `mycelium_p2p_free_string`: a null pointer is ignored; otherwise the
      string, which must be one this library handed out and not yet
      freed, is released. */
  function FreeString(st: FfiState, p: CPtr): (r: FfiState)
    requires p.Owned? ==> p.id in st.strings
    ensures p.Null? ==> r == st
    ensures p.Owned? ==> r.strings.Keys == st.strings.Keys - {p.id}
    ensures forall id :: id in r.strings ==> id in st.strings && r.strings[id] == st.strings[id]
    ensures r.slot == st.slot && r.threads == st.threads && r.nodeCalls == st.nodeCalls
    ensures r.joined == st.joined && r.nextId == st.nextId
    ensures Valid(st) ==> Valid(r)
  {
    match p
    case Null => st
    case Owned(id) => st.(strings := st.strings - {id})
  }

  // ---------------------------------------------------------------------
  // Properties

  /** Start, start again, stop, start: the second start is refused without
      spawning, the stop empties the slot after joining the first thread,
      and the last start runs a second thread. */
  lemma StartStopRestart(st: FfiState, a: string, b: string)
    requires Valid(st) && st.slot.Empty?
    ensures var s1 := NodeStart(st, Utf8(a), true);
            var s2 := NodeStart(s1.st, Utf8(b), true);
            var s3 := NodeStop(s2.st, true);
            var s4 := NodeStart(s3.st, Utf8(b), true);
            && s1.ok && !s2.ok && s2.st == s1.st
            && s3.ok && s3.st.slot.Empty?
            && s4.ok && s4.st.threads == st.threads + [a, b] && s4.st.joined == st.joined + 1
            && Valid(s4.st)
  {
  }

  /** Handing out a string and freeing it leaves the caller-owned strings
      as they were. */
  lemma FreeUndoesNodeJson(st: FfiState, locked: bool, call: NodeCall, json: Option<string>)
    requires Valid(st)
    ensures var r := NodeJson(st, locked, call, json);
            r.ptr.Owned? ==> r.ptr.id in r.st.strings
    ensures var r := NodeJson(st, locked, call, json);
            FreeString(r.st, r.ptr).strings == st.strings
  {
    var r := NodeJson(st, locked, call, json);
    if r.ptr.Owned? {
      assert st.nextId !in st.strings;
      assert r.st.strings - {st.nextId} == st.strings;
    }
  }

  /** Once its arguments check out, each of the four node commands answers
      true exactly when the node lock is obtained, whatever the node does
      with the call. */
  lemma CommandsAnswerTheLock(st: FfiState, s: string, bytes: seq<byte>, locked: bool)
    ensures ConnectToPeer(st, Utf8(s), locked).ok == locked
    ensures PublishMessage(st, Utf8(s), Slice(bytes), locked).ok == locked
    ensures SubscribeTopic(st, Utf8(s), locked).ok == locked
    ensures SendReactionCall(st, Utf8(s), Slice(bytes), locked).ok == locked
  {
  }

  /** An exported call. Freeing a pointer this library did not hand out,
      or freed already, is undefined behaviour in the source; `Step` treats
      it as doing nothing. */
  datatype Export =
    | StartNode(listenAddr: CStr, slotLocked: bool)
    | StopNode(slotLocked: bool)
    | ConnectPeer(addr: CStr, locked: bool)
    | PublishMsg(topic: CStr, data: Data, locked: bool)
    | SubscribeTo(topic: CStr, locked: bool)
    | React(peer: CStr, data: Data, locked: bool)
    | QueryLocalId(locked: bool, peerId: string)
    | QueryConnected(locked: bool, peers: seq<string>)
    | QueryDiscovered(locked: bool, peers: seq<string>)
    | Free(p: CPtr)

  /** The state after one exported call. */
  function Step(st: FfiState, e: Export): FfiState
  {
    match e
    case StartNode(addr, l) => NodeStart(st, addr, l).st
    case StopNode(l) => NodeStop(st, l).st
    case ConnectPeer(addr, l) => ConnectToPeer(st, addr, l).st
    case PublishMsg(topic, data, l) => PublishMessage(st, topic, data, l).st
    case SubscribeTo(topic, l) => SubscribeTopic(st, topic, l).st
    case React(peer, data, l) => SendReactionCall(st, peer, data, l).st
    case QueryLocalId(l, id) => LocalPeerIdCall(st, l, id).st
    case QueryConnected(l, peers) => ConnectedPeersCall(st, l, peers).st
    case QueryDiscovered(l, peers) => DiscoveredNodesCall(st, l, peers).st
    case Free(p) => if p.Owned? && p.id !in st.strings then st else FreeString(st, p)
  }

  /** The state after a sequence of exported calls. */
  function Steps(st: FfiState, es: seq<Export>): FfiState
    decreases |es|
  {
    if es == [] then st else Steps(Step(st, es[0]), es[1..])
  }

  /** From the initial state, any sequence of exported calls keeps every
      spawned thread accounted for: at most one is unjoined, and it is the
      one in the slot. */
  lemma {:induction false} StepsValid(st: FfiState, es: seq<Export>)
    requires Valid(st)
    ensures Valid(Steps(st, es))
    ensures |Steps(st, es).threads| - Steps(st, es).joined <= 1
    decreases |es|
  {
    if es != [] {
      var next := Step(st, es[0]);
      assert Valid(next);
      StepsValid(next, es[1..]);
    }
  }

  /** The initial state is valid, so the above holds of every run. */
  lemma InitialValid(es: seq<Export>)
    ensures Valid(Initial)
    ensures Valid(Steps(Initial, es))
  {
    StepsValid(Initial, es);
  }
}
