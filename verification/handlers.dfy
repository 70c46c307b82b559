/** What each handler of the listener does to the node and what it sends,
    stated per action tag over `Step`. */
module Handlers {
  import opened JavaTypes
  import opened PaxProtocol
  import opened PaxListener

  /** A PROPOSE not below the node's agreed sequence (or reaching a node
      that has agreed to nothing) is accepted: the agreed pair becomes the
      proposal and exactly one AGREE of it goes back to the sender. */
  lemma ProposeAccepted(n: Node, m: Msg, cfg: Config)
    requires m.action == PROPOSE
    requires n.agreedSequence.None? || n.agreedSequence.value <= m.sequence
    ensures Step(n, m, cfg).Handled?
    ensures var e := Step(n, m, cfg).effect;
      && e.node.agreedPrice == Some(m.proposedPrice)
      && e.node.agreedSequence == Some(m.sequence)
      && e.node.(agreedPrice := n.agreedPrice, agreedSequence := n.agreedSequence) == n
      && e.sent == [Send(m.sourcePort, NewProtocol(cfg.selfPort, AGREE, m.proposedPrice, m.sequence, cfg.selfPort))]
  {
  }

  /** A PROPOSE below the node's agreed sequence leaves the node unchanged and
      is answered with one REJECT carrying the node's own agreed pair. */
  lemma ProposeRejected(n: Node, m: Msg, cfg: Config)
    requires m.action == PROPOSE
    requires PairInvariant(n)
    requires n.agreedSequence.Some? && n.agreedSequence.value > m.sequence
    ensures Step(n, m, cfg).Handled?
    ensures var e := Step(n, m, cfg).effect;
      && e.node == n
      && e.sent == [Send(m.sourcePort, NewProtocol(cfg.selfPort, REJECT, n.agreedPrice.value, n.agreedSequence.value, cfg.selfPort))]
  {
  }

  /** PROPOSE and COMMIT never lower the agreed sequence and never let it
      become absent. */
  lemma AcceptorNeverLowers(n: Node, m: Msg, cfg: Config)
    requires m.action == PROPOSE || m.action == COMMIT
    requires n.agreedSequence.Some?
    ensures Step(n, m, cfg).Handled? ==>
      && Step(n, m, cfg).effect.node.agreedSequence.Some?
      && Step(n, m, cfg).effect.node.agreedSequence.value >= n.agreedSequence.value
  {
  }

  /** A COMMIT below the node's agreed sequence leaves the node unchanged and
      is answered with REJECT of the node's agreed pair; any other COMMIT
      adopts the committed price and sequence and is answered with
      AGREE_COMMIT. Either way the agreed pair, counters and latches stay. */
  lemma CommitOutcome(n: Node, m: Msg, cfg: Config)
    requires m.action == COMMIT
    requires PairInvariant(n)
    ensures Step(n, m, cfg).Handled?
    ensures var e := Step(n, m, cfg).effect;
      && e.node.(price := n.price, sequence := n.sequence) == n
      && |e.sent| == 1 && e.sent[0].to == m.sourcePort
      && (Stale(n, m.sequence) ==>
            && e.node == n
            && e.sent[0].msg == NewProtocol(cfg.selfPort, REJECT, n.agreedPrice.value, n.agreedSequence.value, cfg.selfPort))
      && (!Stale(n, m.sequence) ==>
            && e.node.price == m.proposedPrice && e.node.sequence == m.sequence
            && e.sent[0].msg == NewProtocol(cfg.selfPort, AGREE_COMMIT, m.proposedPrice, m.sequence, cfg.selfPort))
  {
  }

  /** AGREE counts one vote (with Java's wrap-around). The commit broadcast
      fires exactly when the count passes half the network and the proposal
      round is still open; it closes the round, resets the count, reopens
      the commit round and carries the AGREE's price with the node's own
      sequence. Price, sequence and the agreed pair never change. */
  lemma AgreeOutcome(n: Node, m: Msg, cfg: Config)
    requires m.action == AGREE
    ensures Step(n, m, cfg).Handled?
    ensures var e := Step(n, m, cfg).effect;
      var fires := Inc(n.agreeCount) > MajorityBound(cfg) && !n.proposalEnded;
      && e.node.price == n.price && e.node.sequence == n.sequence
      && e.node.agreedPrice == n.agreedPrice && e.node.agreedSequence == n.agreedSequence
      && e.node.agreeCommitCount == n.agreeCommitCount
      && (fires ==>
            && e.node.agreeCount == 0 && e.node.proposalEnded && !e.node.agreeCommitEnded
            && e.sent == Broadcast(cfg.networkPorts, COMMIT, m.proposedPrice, n.sequence, cfg.selfPort))
      && (!fires ==>
            && e.node == n.(agreeCount := Inc(n.agreeCount))
            && e.sent == [])
  {
  }

  /** Once the proposal round is closed, an AGREE only counts: nothing is sent. */
  lemma AgreeAfterLatch(n: Node, m: Msg, cfg: Config)
    requires m.action == AGREE
    requires n.proposalEnded
    ensures Step(n, m, cfg) == Handled(Effect(n.(agreeCount := Inc(n.agreeCount)), []))
  {
  }

  /** AGREE_COMMIT counts one vote and sends nothing. When the count passes
      half the network and the commit round is open, the round closes, the
      count resets and the node adopts the committed pair as both its agreed
      and its current price and sequence. */
  lemma AgreeCommitOutcome(n: Node, m: Msg, cfg: Config)
    requires m.action == AGREE_COMMIT
    ensures Step(n, m, cfg).Handled?
    ensures var e := Step(n, m, cfg).effect;
      var fires := Inc(n.agreeCommitCount) > MajorityBound(cfg) && !n.agreeCommitEnded;
      && e.sent == []
      && e.node.agreeCount == n.agreeCount && e.node.proposalEnded == n.proposalEnded
      && (fires ==>
            && e.node.agreeCommitEnded && e.node.agreeCommitCount == 0
            && e.node.agreedPrice == Some(m.proposedPrice) && e.node.agreedSequence == Some(m.sequence)
            && e.node.price == m.proposedPrice && e.node.sequence == m.sequence)
      && (!fires ==> e.node == n.(agreeCommitCount := Inc(n.agreeCommitCount)))
  {
  }

  /** REJECT aborts both rounds, adopts the rejecting pair as the node's
      current and agreed pair, and re-proposes that same pair (not a higher
      sequence) to every network port. */
  lemma RejectOutcome(n: Node, m: Msg, cfg: Config)
    requires m.action == REJECT
    ensures Step(n, m, cfg).Handled?
    ensures var e := Step(n, m, cfg).effect;
      && e.node == Node(m.proposedPrice, m.sequence, Some(m.proposedPrice), Some(m.sequence), 0, 0, false, false)
      && e.sent == Broadcast(cfg.networkPorts, PROPOSE, m.proposedPrice, m.sequence, cfg.selfPort)
  {
  }

  /** A message whose action is none of the five tags changes nothing and
      sends nothing. */
  lemma UnknownActionIgnored(n: Node, m: Msg, cfg: Config)
    requires forall a: Action :: Tag(a) != m.action
    ensures Step(n, m, cfg) == Handled(Effect(n, []))
  {
  }

  /** A reply to PROPOSE or COMMIT goes to the sender only. */
  lemma RepliesGoToSender(n: Node, m: Msg, cfg: Config)
    requires m.action == PROPOSE || m.action == COMMIT
    ensures Step(n, m, cfg).Handled? ==>
      |Step(n, m, cfg).effect.sent| == 1 && Step(n, m, cfg).effect.sent[0].to == m.sourcePort
  {
  }

  /** The operator overrides are the only way to break the agreed-pair
      invariant: setting one half of the pair on a node that has no agreed
      pair does. */
  lemma OverrideBreaksPair(n: Node, p: int32, s: int32)
    requires n.agreedPrice.None? && n.agreedSequence.None?
    ensures PairInvariant(n)
    ensures !PairInvariant(SetAgreedPrice(n, p))
    ensures !PairInvariant(SetAgreedSequence(n, s))
  {
  }

  /** Setting one half on a node that holds both halves keeps the invariant. */
  lemma OverrideKeepsFullPair(n: Node, p: int32, s: int32)
    requires n.agreedPrice.Some? && n.agreedSequence.Some?
    ensures PairInvariant(SetAgreedPrice(n, p))
    ensures PairInvariant(SetAgreedSequence(n, s))
  {
  }

  /** Setting both halves restores the invariant on any node, broken or not. */
  lemma OverrideBothRestoresPair(n: Node, p: int32, s: int32)
    ensures PairInvariant(SetAgreedSequence(SetAgreedPrice(n, p), s))
    ensures PairInvariant(SetAgreedPrice(SetAgreedSequence(n, s), p))
  {
  }
}
