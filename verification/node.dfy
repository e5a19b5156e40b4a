/** The node of the core crate: a libp2p swarm (gossipsub, mDNS and a
    request-response protocol for reactions) plus the set of topics the node
    has subscribed to.

    The swarm itself is foreign. The model records the calls the node makes
    on it, in order, as an append-only log, and takes the outcome of each
    fallible swarm call as a parameter. Parsing of multiaddresses and peer
    ids and the protobuf encoding of a post are library code too: they are
    supplied as the functions of a `Libp2p` record. */
module Node {
  import opened Base

  /** A parsed multiaddress. */
  datatype Multiaddr = Multiaddr(text: string)

  /** A parsed peer identifier. */
  datatype PeerId = PeerId(text: string)

  /** The protobuf messages of the application, as opaque field bytes. */
  datatype SignedPost = SignedPost(fields: seq<byte>)
  datatype SignedReaction = SignedReaction(fields: seq<byte>)
  datatype SignedAck = SignedAck(fields: seq<byte>)

  /** The channel on which an inbound reaction request is answered. */
  datatype ResponseChannel = ResponseChannel(id: nat)

  /** The library functions the node relies on: `str::parse` into a
      `Multiaddr` or a `PeerId`, and `prost::Message::encode` of a post. */
  datatype Libp2p = Libp2p(
    parseMultiaddr: string -> Option<Multiaddr>,
    parsePeerId: string -> Option<PeerId>,
    encodePost: SignedPost -> Option<seq<byte>>)

  /** A call the node makes on its swarm. */
  datatype SwarmCall =
    | Dial(addr: Multiaddr)
    | GossipPublish(topic: string, data: seq<byte>)
    | GossipSubscribe(topic: string)
    | SendRequest(peer: PeerId, reaction: SignedReaction)
    | SendResponse(channel: ResponseChannel, ack: SignedAck)
    | ListenOn(addr: Multiaddr)
    | SpawnDrainLoop

  /** The distinct errors the node's operations return. */
  datatype NodeError =
    | BuildFailed
    | AlreadySubscribed
    | BadMultiaddr
    | BadPeerId
    | EncodeFailed
    | DialFailed
    | PublishFailed
    | SubscribeFailed
    | ListenFailed

  /** `MyNode`: the subscribed-topic set, and the calls made on the swarm. */
  datatype MyNode = MyNode(topics: set<string>, swarm: seq<SwarmCall>)

  /** What an operation returns, paired with the node after it. */
  datatype Reply<+E> = Reply(result: Result<(), E>, node: MyNode)

  /** `MyNode::new`: builds the swarm (`buildOk` is whether the transport,
      gossipsub and mDNS builders all succeed) and starts with no topics. */
  function New(buildOk: bool): (r: Result<MyNode, NodeError>)
    ensures r.Ok? <==> buildOk
    ensures r.Ok? ==> r.value.topics == {} && r.value.swarm == []
    ensures r.Err? ==> r.error == BuildFailed
  {
    if buildOk then Ok(MyNode({}, [])) else Err(BuildFailed)
  }

  /** `connect_to_peer`: parse the address, then dial it. */
  function ConnectToPeer(n: MyNode, lib: Libp2p, addr: string, dialOk: bool): (r: Reply<NodeError>)
    ensures lib.parseMultiaddr(addr).None? ==> r == Reply(Err(BadMultiaddr), n)
    ensures lib.parseMultiaddr(addr).Some? ==>
              r.node.swarm == n.swarm + [Dial(lib.parseMultiaddr(addr).value)]
    ensures r.result.Ok? <==> lib.parseMultiaddr(addr).Some? && dialOk
    ensures lib.parseMultiaddr(addr).Some? && !dialOk ==> r.result == Err(DialFailed)
    ensures r.node.topics == n.topics
  {
    match lib.parseMultiaddr(addr)
    case None => Reply(Err(BadMultiaddr), n)
    case Some(a) =>
      var n' := n.(swarm := n.swarm + [Dial(a)]);
      if dialOk then Reply(Ok(()), n') else Reply(Err(DialFailed), n')
  }

  /** `publish_post`: encode the post and publish it on the topic. The
      topic set is not consulted. */
  function PublishPost(n: MyNode, lib: Libp2p, topic: string, post: SignedPost, publishOk: bool)
    : (r: Reply<NodeError>)
    ensures lib.encodePost(post).None? ==> r == Reply(Err(EncodeFailed), n)
    ensures lib.encodePost(post).Some? ==>
              r.node.swarm == n.swarm + [GossipPublish(topic, lib.encodePost(post).value)]
    ensures r.result.Ok? <==> lib.encodePost(post).Some? && publishOk
    ensures lib.encodePost(post).Some? && !publishOk ==> r.result == Err(PublishFailed)
    ensures r.node.topics == n.topics
  {
    match lib.encodePost(post)
    case None => Reply(Err(EncodeFailed), n)
    case Some(bytes) =>
      var n' := n.(swarm := n.swarm + [GossipPublish(topic, bytes)]);
      if publishOk then Reply(Ok(()), n') else Reply(Err(PublishFailed), n')
  }

  /** `subscribe_topic`: reject a topic already in the set, otherwise ask
      gossipsub and record the topic only once gossipsub accepted it. */
  function SubscribeTopic(n: MyNode, topic: string, subscribeOk: bool): (r: Reply<NodeError>)
    ensures topic in n.topics ==> r == Reply(Err(AlreadySubscribed), n)
    ensures topic !in n.topics ==> r.node.swarm == n.swarm + [GossipSubscribe(topic)]
    ensures r.result.Ok? <==> topic !in n.topics && subscribeOk
    ensures r.result.Ok? ==> r.node.topics == n.topics + {topic}
    ensures r.result.Err? ==> r.node.topics == n.topics
    ensures topic !in n.topics && !subscribeOk ==> r.result == Err(SubscribeFailed)
  {
    if topic in n.topics then
      Reply(Err(AlreadySubscribed), n)
    else
      var n' := n.(swarm := n.swarm + [GossipSubscribe(topic)]);
      if subscribeOk then Reply(Ok(()), n'.(topics := n.topics + {topic}))
      else Reply(Err(SubscribeFailed), n')
  }

  /** `send_reaction`: parse the peer id, then queue the request; queuing
      cannot fail. */
  function SendReaction(n: MyNode, lib: Libp2p, peer: string, reaction: SignedReaction)
    : (r: Reply<NodeError>)
    ensures lib.parsePeerId(peer).None? ==> r == Reply(Err(BadPeerId), n)
    ensures lib.parsePeerId(peer).Some? ==>
              r.node.swarm == n.swarm + [SendRequest(lib.parsePeerId(peer).value, reaction)]
    ensures r.result.Ok? <==> lib.parsePeerId(peer).Some?
    ensures r.node.topics == n.topics
  {
    match lib.parsePeerId(peer)
    case None => Reply(Err(BadPeerId), n)
    case Some(p) => Reply(Ok(()), n.(swarm := n.swarm + [SendRequest(p, reaction)]))
  }

  /** `send_ack`: answer an inbound request; on failure the ack is handed
      back to the caller. */
  function SendAck(n: MyNode, channel: ResponseChannel, ack: SignedAck, sendOk: bool)
    : (r: Reply<SignedAck>)
    ensures r.node.swarm == n.swarm + [SendResponse(channel, ack)]
    ensures r.node.topics == n.topics
    ensures r.result.Ok? <==> sendOk
    ensures r.result.Err? ==> r.result.error == ack
  {
    var n' := n.(swarm := n.swarm + [SendResponse(channel, ack)]);
    if sendOk then Reply(Ok(()), n') else Reply(Err(ack), n')
  }

  /** `start`: parse the address, listen on it, then spawn the event-drain
      loop. The node keeps no running state, so nothing here refuses a
      second call. */
  function Start(n: MyNode, lib: Libp2p, addr: string, listenOk: bool): (r: Reply<NodeError>)
    ensures lib.parseMultiaddr(addr).None? ==> r == Reply(Err(BadMultiaddr), n)
    ensures r.result.Ok? <==> lib.parseMultiaddr(addr).Some? && listenOk
    ensures r.result.Ok? ==>
              r.node.swarm == n.swarm + [ListenOn(lib.parseMultiaddr(addr).value), SpawnDrainLoop]
    ensures lib.parseMultiaddr(addr).Some? && !listenOk ==>
              r == Reply(Err(ListenFailed), n.(swarm := n.swarm + [ListenOn(lib.parseMultiaddr(addr).value)]))
    ensures r.node.topics == n.topics
  {
    match lib.parseMultiaddr(addr)
    case None => Reply(Err(BadMultiaddr), n)
    case Some(a) =>
      var listening := n.(swarm := n.swarm + [ListenOn(a)]);
      if !listenOk then Reply(Err(ListenFailed), listening)
      else Reply(Ok(()), listening.(swarm := listening.swarm + [SpawnDrainLoop]))
  }

  /** `stop`: not implemented in the source; it succeeds and does nothing. */
  function Stop(n: MyNode): (r: Reply<NodeError>)
    ensures r.result.Ok?
    ensures r.node == n
  {
    Reply(Ok(()), n)
  }

  /** One caller-issued operation, with the outcomes of its foreign calls.
      `Query` stands for `local_peer_id`, `connected_peers` and
      `discovered_nodes`, which only read the swarm. */
  datatype Command =
    | Connect(addr: string, dialOk: bool)
    | Publish(topic: string, post: SignedPost, publishOk: bool)
    | Subscribe(topic: string, subscribeOk: bool)
    | React(peer: string, reaction: SignedReaction)
    | Ack(channel: ResponseChannel, ack: SignedAck, sendOk: bool)
    | Listen(addr: string, listenOk: bool)
    | Halt
    | Query

  /** The node after one command. */
  function Apply(n: MyNode, lib: Libp2p, c: Command): MyNode
  {
    match c
    case Connect(addr, ok) => ConnectToPeer(n, lib, addr, ok).node
    case Publish(topic, post, ok) => PublishPost(n, lib, topic, post, ok).node
    case Subscribe(topic, ok) => SubscribeTopic(n, topic, ok).node
    case React(peer, reaction) => SendReaction(n, lib, peer, reaction).node
    case Ack(channel, ack, ok) => SendAck(n, channel, ack, ok).node
    case Listen(addr, ok) => Start(n, lib, addr, ok).node
    case Halt => Stop(n).node
    case Query => n
  }

  /** The node after a sequence of commands, applied in order. */
  function Run(n: MyNode, lib: Libp2p, cmds: seq<Command>): MyNode
    decreases |cmds|
  {
    if cmds == [] then n else Run(Apply(n, lib, cmds[0]), lib, cmds[1..])
  }

  /** Reference definition of the topics a command sequence adds: those of
      every subscribe command whose gossipsub call would succeed. */
  function AcceptedTopics(cmds: seq<Command>): set<string>
  {
    set i | 0 <= i < |cmds| && cmds[i].Subscribe? && cmds[i].subscribeOk :: cmds[i].topic
  }

  /** Every recorded topic was subscribed through gossipsub. */
  ghost predicate Consistent(n: MyNode)
  {
    forall t :: t in n.topics ==> GossipSubscribe(t) in n.swarm
  }

  // ---------------------------------------------------------------------
  // Properties

  /** One command: the topic set only grows, the swarm log is only
      appended to, consistency is kept, and the topic set changes only
      through an accepted subscription of exactly that topic. */
  lemma ApplyGrows(n: MyNode, lib: Libp2p, c: Command)
    ensures n.topics <= Apply(n, lib, c).topics
    ensures n.swarm <= Apply(n, lib, c).swarm
    ensures Consistent(n) ==> Consistent(Apply(n, lib, c))
    ensures Apply(n, lib, c).topics == n.topics + AcceptedTopics([c])
    ensures Apply(n, lib, c).topics != n.topics ==>
              c.Subscribe? && c.subscribeOk && Apply(n, lib, c).topics == n.topics + {c.topic}
  {
    assert [c][0] == c;
  }

  /** `AcceptedTopics` distributes over splitting off the first command. */
  lemma AcceptedTopicsCons(cmds: seq<Command>)
    requires cmds != []
    ensures AcceptedTopics(cmds) == AcceptedTopics([cmds[0]]) + AcceptedTopics(cmds[1..])
  {
    var tail := cmds[1..];
    forall t | t in AcceptedTopics(cmds)
      ensures t in AcceptedTopics([cmds[0]]) + AcceptedTopics(tail)
    {
      var i :| 0 <= i < |cmds| && cmds[i].Subscribe? && cmds[i].subscribeOk && cmds[i].topic == t;
      if i == 0 {
        assert [cmds[0]][0] == cmds[0];
      } else {
        assert tail[i - 1] == cmds[i];
      }
    }
    forall t | t in AcceptedTopics(tail)
      ensures t in AcceptedTopics(cmds)
    {
      var i :| 0 <= i < |tail| && tail[i].Subscribe? && tail[i].subscribeOk && tail[i].topic == t;
      assert cmds[i + 1] == tail[i];
    }
    forall t | t in AcceptedTopics([cmds[0]])
      ensures t in AcceptedTopics(cmds)
    {
      assert [cmds[0]][0] == cmds[0];
    }
  }

  /** After any sequence of commands the topic set is exactly the starting
      set plus the topics of the accepted subscriptions: no operation ever
      removes a topic. */
  lemma {:induction false} RunTopics(n: MyNode, lib: Libp2p, cmds: seq<Command>)
    ensures Run(n, lib, cmds).topics == n.topics + AcceptedTopics(cmds)
    ensures n.swarm <= Run(n, lib, cmds).swarm
    ensures Consistent(n) ==> Consistent(Run(n, lib, cmds))
    decreases |cmds|
  {
    if cmds != [] {
      var n1 := Apply(n, lib, cmds[0]);
      ApplyGrows(n, lib, cmds[0]);
      RunTopics(n1, lib, cmds[1..]);
      AcceptedTopicsCons(cmds);
    }
  }

  /** A node built from scratch subscribes exactly the accepted topics, and
      every one of them went through gossipsub. */
  lemma FreshNodeTopics(lib: Libp2p, cmds: seq<Command>)
    ensures New(true).Ok?
    ensures Run(New(true).value, lib, cmds).topics == AcceptedTopics(cmds)
    ensures Consistent(Run(New(true).value, lib, cmds))
  {
    RunTopics(New(true).value, lib, cmds);
  }

  /** Subscribing to a topic a second time after it succeeded is rejected
      without calling gossipsub, whatever gossipsub would answer. */
  lemma SubscribeTwice(n: MyNode, topic: string, ok1: bool, ok2: bool)
    requires SubscribeTopic(n, topic, ok1).result.Ok?
    ensures var n1 := SubscribeTopic(n, topic, ok1).node;
            SubscribeTopic(n1, topic, ok2) == Reply(Err(AlreadySubscribed), n1)
  {
  }

  /** Publishing does not depend on the topic set: two nodes that differ
      only in their topics get the same answer and make the same call, so
      publishing to a topic never subscribed is not rejected. */
  lemma PublishIgnoresTopics(n: MyNode, other: set<string>, lib: Libp2p, topic: string,
                             post: SignedPost, publishOk: bool)
    ensures var a := PublishPost(n, lib, topic, post, publishOk);
            var b := PublishPost(n.(topics := other), lib, topic, post, publishOk);
            a.result == b.result && a.node.swarm == b.node.swarm
    ensures topic !in n.topics && lib.encodePost(post).Some? && publishOk ==>
              PublishPost(n, lib, topic, post, publishOk).result.Ok?
  {
  }

  /** With the swarm lock abstracted, starting twice succeeds twice: the
      node keeps no running state of its own, so it listens twice and
      spawns two drain loops. (In the source the first loop holds the swarm
      lock for good, so the second call would wait for it.) */
  lemma StartHasNoGuard(n: MyNode, lib: Libp2p, addr: string)
    requires lib.parseMultiaddr(addr).Some?
    ensures var first := Start(n, lib, addr, true);
            var second := Start(first.node, lib, addr, true);
            var a := lib.parseMultiaddr(addr).value;
            first.result.Ok? && second.result.Ok? &&
            second.node.swarm == n.swarm + [ListenOn(a), SpawnDrainLoop, ListenOn(a), SpawnDrainLoop]
  {
  }
}
