/** A node handling a finite sequence of received messages one at a time,
    and what holds over such runs. */
module Delivery {
  import opened JavaTypes
  import opened PaxProtocol
  import opened PaxListener

  /** The effect of one message on a running node: a worker that throws
      changes nothing and sends nothing, and the node keeps listening. */
  function Absorb(n: Node, r: StepResult): Effect
  {
    match r
    case Handled(e) => e
    case Crashed(_) => Effect(n, [])
  }

  /** Handle `msgs` in order; the messages sent are concatenated in order. */
  function Deliver(n: Node, msgs: seq<Msg>, cfg: Config): (r: Effect)
    ensures PairInvariant(n) ==> PairInvariant(r.node)
    ensures forall k :: 0 <= k < |r.sent| ==> r.sent[k].msg.sourcePort == cfg.selfPort
    decreases |msgs|
  {
    if |msgs| == 0 then Effect(n, [])
    else
      var first := Absorb(n, Step(n, msgs[0], cfg));
      var rest := Deliver(first.node, msgs[1..], cfg);
      Effect(rest.node, first.sent + rest.sent)
  }

  predicate AllTagged(msgs: seq<Msg>, action: string)
  {
    forall k :: 0 <= k < |msgs| ==> msgs[k].action == action
  }

  /** Acceptor safety: along any run of PROPOSE and COMMIT messages an
      agreed sequence, once present, stays present and never decreases, and
      the counters and latches are left as they were. */
  lemma {:induction false} AcceptorMonotone(n: Node, msgs: seq<Msg>, cfg: Config)
    requires forall k :: 0 <= k < |msgs| ==> msgs[k].action == PROPOSE || msgs[k].action == COMMIT
    ensures var r := Deliver(n, msgs, cfg);
      && (n.agreedSequence.Some? ==> r.node.agreedSequence.Some?)
      && (n.agreedSequence.Some? ==> r.node.agreedSequence.value >= n.agreedSequence.value)
      && r.node.agreeCount == n.agreeCount && r.node.agreeCommitCount == n.agreeCommitCount
      && r.node.proposalEnded == n.proposalEnded && r.node.agreeCommitEnded == n.agreeCommitEnded
    decreases |msgs|
  {
    if |msgs| > 0 {
      var first := Absorb(n, Step(n, msgs[0], cfg));
      AcceptorMonotone(first.node, msgs[1..], cfg);
    }
  }

  /** With the proposal round closed, AGREEs only count and send nothing. */
  lemma {:induction false} AgreesWhileLatched(n: Node, msgs: seq<Msg>, cfg: Config)
    requires AllTagged(msgs, AGREE)
    requires n.proposalEnded
    requires 0 <= n.agreeCount && n.agreeCount + |msgs| <= MaxInt32
    ensures var r := Deliver(n, msgs, cfg);
      r.sent == [] && r.node == n.(agreeCount := n.agreeCount + |msgs|)
    decreases |msgs|
  {
    if |msgs| > 0 {
      var next := n.(agreeCount := n.agreeCount + 1);
      assert Step(n, msgs[0], cfg) == Handled(Effect(next, []));
      AgreesWhileLatched(next, msgs[1..], cfg);
    }
  }

  /** While the proposal round is open, the AGREE count lies between zero and
      `MajorityBound`: the state `AgreesWhileOpen` starts from. */
  predicate OpenRoundBounded(n: Node, cfg: Config)
  {
    !n.proposalEnded ==> 0 <= n.agreeCount <= MajorityBound(cfg)
  }

  /** `proposePrice` opens a round in a bounded state. */
  lemma ProposeOpensBounded(n: Node, cfg: Config, price: int32, sequence: int32)
    ensures OpenRoundBounded(ProposePrice(n, cfg, price, sequence).node, cfg)
  {
  }

  /** Every received message, handled or thrown, keeps the open round bounded. */
  lemma StepKeepsOpenRoundBounded(n: Node, m: Msg, cfg: Config)
    requires OpenRoundBounded(n, cfg)
    ensures OpenRoundBounded(Absorb(n, Step(n, m, cfg)).node, cfg)
  {
  }

  /** With the proposal round open and `c` votes counted, a run of AGREEs
      sends nothing until the vote that passes half the network; that vote
      (message number `MajorityBound - c`) triggers one COMMIT broadcast of its
      price, and every later AGREE only counts. */
  lemma {:induction false} AgreesWhileOpen(n: Node, msgs: seq<Msg>, cfg: Config)
    requires AllTagged(msgs, AGREE)
    requires !n.proposalEnded
    requires 0 <= n.agreeCount <= MajorityBound(cfg)
    requires n.agreeCount + |msgs| <= MaxInt32
    ensures var r := Deliver(n, msgs, cfg);
      var c := n.agreeCount;
      var q := MajorityBound(cfg);
      && (c + |msgs| <= q ==> r.sent == [] && r.node == n.(agreeCount := c + |msgs|))
      && (c + |msgs| > q ==>
            && r.sent == Broadcast(cfg.networkPorts, COMMIT, msgs[q - c].proposedPrice, n.sequence, cfg.selfPort)
            && r.node == n.(agreeCount := c + |msgs| - q - 1, proposalEnded := true, agreeCommitEnded := false))
    decreases |msgs|
  {
    if |msgs| > 0 {
      var c := n.agreeCount;
      if c + 1 > MajorityBound(cfg) {
        var fired := SendCommits(n.(agreeCount := 0, proposalEnded := true), cfg, msgs[0].proposedPrice);
        assert Step(n, msgs[0], cfg) == Handled(fired);
        AgreesWhileLatched(fired.node, msgs[1..], cfg);
        assert fired.sent + [] == fired.sent;
      } else {
        var next := n.(agreeCount := c + 1);
        assert Step(n, msgs[0], cfg) == Handled(Effect(next, []));
        AgreesWhileOpen(next, msgs[1..], cfg);
        if c + |msgs| > MajorityBound(cfg) {
          assert msgs[1..][MajorityBound(cfg) - (c + 1)] == msgs[MajorityBound(cfg) - c];
        }
      }
    }
  }

  /** After `proposePrice`, a run of k AGREEs broadcasts COMMIT exactly once,
      on the AGREE that makes the count exceed `MajorityBound`, with that AGREE's price and the node's
      sequence: one COMMIT per network port if k passes half the network,
      none otherwise. */
  lemma {:induction false} QuorumFiresOnce(n: Node, cfg: Config, price: int32, sequence: int32, agrees: seq<Msg>)
    requires AllTagged(agrees, AGREE)
    requires |agrees| <= MaxInt32
    ensures var p := ProposePrice(n, cfg, price, sequence);
      var r := Deliver(p.node, agrees, cfg);
      var q := MajorityBound(cfg);
      && (|agrees| <= q ==> r.sent == [] && !r.node.proposalEnded)
      && (|agrees| > q ==>
            && r.sent == Broadcast(cfg.networkPorts, COMMIT, agrees[q].proposedPrice, n.sequence, cfg.selfPort)
            && r.node.proposalEnded)
  {
    var start := n.(proposalEnded := false, agreeCount := 0);
    assert ProposePrice(n, cfg, price, sequence).node == start;
    AgreesWhileOpen(start, agrees, cfg);
    var r := Deliver(start, agrees, cfg);
    if |agrees| > MajorityBound(cfg) {
      assert r.node.proposalEnded;
    } else {
      assert !r.node.proposalEnded;
    }
  }
}
