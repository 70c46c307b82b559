/** The per-node consensus state machine of `PaxListener`: the node's
    fields, the handler run for each received message, the two broadcast
    entry points and the operator overrides. Each received message is
    handled atomically; sending a message appends it to the outgoing list. */
module PaxListener {
  import opened JavaTypes
  import opened PaxProtocol

  /** The listener's consensus fields. */
  datatype Node = Node(
    price: int32,
    sequence: int32,
    agreedPrice: Option<int32>,
    agreedSequence: Option<int32>,
    agreeCount: int32,
    agreeCommitCount: int32,
    agreeCommitEnded: bool,
    proposalEnded: bool)

  /** What the listener is given at start-up and never changes: the port it
      listens on and the ports of the network. */
  datatype Config = Config(selfPort: int32, networkPorts: seq<int32>)

  /** One call of `sendProto(msg, to)`. */
  datatype Send = Send(to: int32, msg: Msg)

  /** The new fields and the messages sent, in sending order. */
  datatype Effect = Effect(node: Node, sent: seq<Send>)

  /** `Optional.get()` on an empty `agreedPrice`. */
  datatype Fault = NoSuchElement

  /** A handled message, or a worker that threw before changing anything. */
  datatype StepResult = Handled(effect: Effect) | Crashed(fault: Fault)

  /** `agreedPrice` and `agreedSequence` are both present or both absent. */
  predicate PairInvariant(n: Node)
  {
    n.agreedSequence.Some? <==> n.agreedPrice.Some?
  }

  /** The node has already agreed to a sequence higher than `s`. */
  predicate Stale(n: Node, s: int)
  {
    n.agreedSequence.Some? && n.agreedSequence.value > s
  }

  /** The largest vote count that is not yet a majority of the network. */
  function MajorityBound(cfg: Config): int32
  {
    ListSize(cfg.networkPorts) / 2
  }

  /** A freshly constructed listener. */
  function Init(): (n: Node)
    ensures n.price == 1 && n.sequence == 1
    ensures n.agreedPrice.None? && n.agreedSequence.None?
    ensures PairInvariant(n)
    ensures n.agreeCount == 0 && n.agreeCommitCount == 0
    ensures !n.proposalEnded && !n.agreeCommitEnded
  {
    Node(1, 1, None, None, 0, 0, false, false)
  }

  /** One message of `action` to every network port, in list order, each
      with the destination as its `port` field. */
  function Broadcast(ports: seq<int32>, action: string, price: int32, sequence: int32, self: int32): (r: seq<Send>)
    ensures |r| == |ports|
    ensures forall k :: 0 <= k < |r| ==>
      r[k].to == ports[k] && r[k].msg == NewProtocol(ports[k], action, price, sequence, self)
  {
    if |ports| == 0 then []
    else [Send(ports[0], NewProtocol(ports[0], action, price, sequence, self))]
         + Broadcast(ports[1..], action, price, sequence, self)
  }

  /** `proposePrice`: opens a new proposal round and sends PROPOSE to every
      network port. Only the round latch and the AGREE counter change. */
  function ProposePrice(n: Node, cfg: Config, price: int32, sequence: int32): (r: Effect)
    ensures !r.node.proposalEnded && r.node.agreeCount == 0
    ensures r.node.(proposalEnded := n.proposalEnded, agreeCount := n.agreeCount) == n
    ensures |r.sent| == |cfg.networkPorts|
    ensures forall k :: 0 <= k < |r.sent| ==>
      && r.sent[k].to == cfg.networkPorts[k]
      && r.sent[k].msg.port == cfg.networkPorts[k]
      && r.sent[k].msg.action == PROPOSE
      && r.sent[k].msg.proposedPrice == price
      && r.sent[k].msg.sequence == sequence
      && r.sent[k].msg.sourcePort == cfg.selfPort
  {
    Effect(n.(proposalEnded := false, agreeCount := 0),
           Broadcast(cfg.networkPorts, PROPOSE, price, sequence, cfg.selfPort))
  }

  /** `sendCommits`: opens a new commit round and sends COMMIT of `price` at
      the node's own current sequence to every network port. Only the
      commit latch changes. */
  function SendCommits(n: Node, cfg: Config, price: int32): (r: Effect)
    ensures !r.node.agreeCommitEnded
    ensures r.node.(agreeCommitEnded := n.agreeCommitEnded) == n
    ensures |r.sent| == |cfg.networkPorts|
    ensures forall k :: 0 <= k < |r.sent| ==>
      && r.sent[k].to == cfg.networkPorts[k]
      && r.sent[k].msg.port == cfg.networkPorts[k]
      && r.sent[k].msg.action == COMMIT
      && r.sent[k].msg.proposedPrice == price
      && r.sent[k].msg.sequence == n.sequence
      && r.sent[k].msg.sourcePort == cfg.selfPort
  {
    Effect(n.(agreeCommitEnded := false),
           Broadcast(cfg.networkPorts, COMMIT, price, n.sequence, cfg.selfPort))
  }

  /** A reply: its `port` field and its `sourcePort` are both the node's own port. */
  function Reply(cfg: Config, action: string, price: int32, sequence: int32): Msg
  {
    NewProtocol(cfg.selfPort, action, price, sequence, cfg.selfPort)
  }

  /** Answer a stale PROPOSE or COMMIT with REJECT of the node's own agreed
      pair; `agreedPrice.get()` is evaluated first and throws when empty. */
  function RejectStale(n: Node, m: Msg, cfg: Config): StepResult
    requires n.agreedSequence.Some?
  {
    if n.agreedPrice.None? then Crashed(NoSuchElement)
    else Handled(Effect(n, [Send(m.sourcePort, Reply(cfg, REJECT, n.agreedPrice.value, n.agreedSequence.value))]))
  }

  function OnPropose(n: Node, m: Msg, cfg: Config): StepResult
  {
    if Stale(n, m.sequence) then RejectStale(n, m, cfg)
    else
      Handled(Effect(
        n.(agreedPrice := Some(m.proposedPrice), agreedSequence := Some(m.sequence)),
        [Send(m.sourcePort, Reply(cfg, AGREE, m.proposedPrice, m.sequence))]))
  }

  function OnAgree(n: Node, m: Msg, cfg: Config): StepResult
  {
    var count := Inc(n.agreeCount);
    if count > MajorityBound(cfg) && !n.proposalEnded then
      Handled(SendCommits(n.(agreeCount := 0, proposalEnded := true), cfg, m.proposedPrice))
    else
      Handled(Effect(n.(agreeCount := count), []))
  }

  function OnReject(n: Node, m: Msg, cfg: Config): StepResult
  {
    var adopted := n.(agreeCommitEnded := false, agreeCount := 0, agreeCommitCount := 0,
                      proposalEnded := false,
                      sequence := m.sequence, price := m.proposedPrice,
                      agreedPrice := Some(m.proposedPrice), agreedSequence := Some(m.sequence));
    Handled(ProposePrice(adopted, cfg, m.proposedPrice, m.sequence))
  }

  function OnCommit(n: Node, m: Msg, cfg: Config): StepResult
  {
    if Stale(n, m.sequence) then RejectStale(n, m, cfg)
    else
      Handled(Effect(
        n.(price := m.proposedPrice, sequence := m.sequence),
        [Send(m.sourcePort, Reply(cfg, AGREE_COMMIT, m.proposedPrice, m.sequence))]))
  }

  function OnAgreeCommit(n: Node, m: Msg, cfg: Config): StepResult
  {
    var count := Inc(n.agreeCommitCount);
    if count > MajorityBound(cfg) && !n.agreeCommitEnded then
      Handled(Effect(
        n.(agreeCommitEnded := true, agreeCommitCount := 0,
           agreedPrice := Some(m.proposedPrice), agreedSequence := Some(m.sequence),
           sequence := m.sequence, price := m.proposedPrice),
        []))
    else
      Handled(Effect(n.(agreeCommitCount := count), []))
  }

  /** The worker would throw: a stale PROPOSE or COMMIT reaches a node whose
      agreed sequence is present but whose agreed price is empty. */
  predicate Crashes(n: Node, m: Msg)
  {
    (m.action == PROPOSE || m.action == COMMIT) && Stale(n, m.sequence) && n.agreedPrice.None?
  }

  /** The handler run on one received message, dispatched on its action tag;
      an unrecognised action does nothing. */
  function Step(n: Node, m: Msg, cfg: Config): (r: StepResult)
    ensures r.Crashed? <==> Crashes(n, m)
    ensures PairInvariant(n) ==> r.Handled? && PairInvariant(r.effect.node)
    ensures r.Handled? && (r.effect.node.agreedPrice != n.agreedPrice || r.effect.node.agreedSequence != n.agreedSequence) ==>
      r.effect.node.agreedPrice.Some? && r.effect.node.agreedSequence.Some?
    ensures r.Handled? ==> forall k :: 0 <= k < |r.effect.sent| ==>
      && r.effect.sent[k].msg.sourcePort == cfg.selfPort
      && (r.effect.sent[k].to == m.sourcePort || r.effect.sent[k].to in cfg.networkPorts)
  {
    match ParseAction(m.action)
    case None => Handled(Effect(n, []))
    case Some(Propose) => OnPropose(n, m, cfg)
    case Some(Agree) => OnAgree(n, m, cfg)
    case Some(Reject) => OnReject(n, m, cfg)
    case Some(Commit) => OnCommit(n, m, cfg)
    case Some(AgreeCommit) => OnAgreeCommit(n, m, cfg)
  }

  /** Operator override `setPrice`: only `price` changes. */
  function SetPrice(n: Node, price: int32): (r: Node)
    ensures r.price == price && r.(price := n.price) == n
  {
    n.(price := price)
  }

  /** Operator override `setSequence`: only `sequence` changes. */
  function SetSequence(n: Node, sequence: int32): (r: Node)
    ensures r.sequence == sequence && r.(sequence := n.sequence) == n
  {
    n.(sequence := sequence)
  }

  /** Operator override `setAgreedPrice`: only `agreedPrice` changes. */
  function SetAgreedPrice(n: Node, price: int32): (r: Node)
    ensures r.agreedPrice == Some(price) && r.(agreedPrice := n.agreedPrice) == n
  {
    n.(agreedPrice := Some(price))
  }

  /** Operator override `setAgreedSequence`: only `agreedSequence` changes. */
  function SetAgreedSequence(n: Node, sequence: int32): (r: Node)
    ensures r.agreedSequence == Some(sequence) && r.(agreedSequence := n.agreedSequence) == n
  {
    n.(agreedSequence := Some(sequence))
  }
}
