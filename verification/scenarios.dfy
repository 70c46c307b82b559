/** Concrete runs of the protocol between listeners. */
module Scenarios {
  import opened JavaTypes
  import opened PaxProtocol
  import opened PaxListener
  import opened Delivery

  /** Three nodes A, B, C on ports 1, 2, 3, each knowing the other two. */
  const CfgA: Config := Config(1, [2, 3])
  const CfgB: Config := Config(2, [1, 3])
  const CfgC: Config := Config(3, [1, 2])

  /** A fresh node after agreeing to price 100 at sequence 1. */
  function Agreed(): Node
  {
    Init().(agreedPrice := Some(100), agreedSequence := Some(1))
  }

  /** A proposes 100 at sequence 1; B and C, having agreed to nothing,
      answer AGREE; A's second AGREE passes half its network and it
      broadcasts COMMIT at its own sequence 1; B and C adopt 100 and answer
      AGREE_COMMIT; A's second AGREE_COMMIT finalises 100 at 1 on A. */
  lemma ThreeNodeAgreement()
    ensures ProposePrice(Init(), CfgA, 100, 1)
      == Effect(Init(), [Send(2, Msg(2, PROPOSE, 100, 1, 1)), Send(3, Msg(3, PROPOSE, 100, 1, 1))])
    ensures Step(Init(), Msg(2, PROPOSE, 100, 1, 1), CfgB)
      == Handled(Effect(Agreed(), [Send(1, Msg(2, AGREE, 100, 1, 2))]))
    ensures Step(Init(), Msg(3, PROPOSE, 100, 1, 1), CfgC)
      == Handled(Effect(Agreed(), [Send(1, Msg(3, AGREE, 100, 1, 3))]))
    ensures Deliver(Init(), [Msg(2, AGREE, 100, 1, 2), Msg(3, AGREE, 100, 1, 3)], CfgA)
      == Effect(Init().(proposalEnded := true), [Send(2, Msg(2, COMMIT, 100, 1, 1)), Send(3, Msg(3, COMMIT, 100, 1, 1))])
    ensures Step(Agreed(), Msg(2, COMMIT, 100, 1, 1), CfgB)
      == Handled(Effect(Agreed().(price := 100), [Send(1, Msg(2, AGREE_COMMIT, 100, 1, 2))]))
    ensures Step(Agreed(), Msg(3, COMMIT, 100, 1, 1), CfgC)
      == Handled(Effect(Agreed().(price := 100), [Send(1, Msg(3, AGREE_COMMIT, 100, 1, 3))]))
    ensures Deliver(Init().(proposalEnded := true), [Msg(2, AGREE_COMMIT, 100, 1, 2), Msg(3, AGREE_COMMIT, 100, 1, 3)], CfgA)
      == Effect(Agreed().(price := 100, proposalEnded := true, agreeCommitEnded := true), [])
  {
    var agrees := [Msg(2, AGREE, 100, 1, 2), Msg(3, AGREE, 100, 1, 3)];
    var once := Init().(agreeCount := 1);
    var closed := Init().(proposalEnded := true);
    var commits := [Send(2, Msg(2, COMMIT, 100, 1, 1)), Send(3, Msg(3, COMMIT, 100, 1, 1))];
    assert Step(Init(), agrees[0], CfgA) == Handled(Effect(once, []));
    assert Step(once, agrees[1], CfgA) == Handled(Effect(closed, commits));
    assert Deliver(once, agrees[1..], CfgA) == Effect(closed, commits);

    var acks := [Msg(2, AGREE_COMMIT, 100, 1, 2), Msg(3, AGREE_COMMIT, 100, 1, 3)];
    var acked := closed.(agreeCommitCount := 1);
    var decided := Agreed().(price := 100, proposalEnded := true, agreeCommitEnded := true);
    assert Step(closed, acks[0], CfgA) == Handled(Effect(acked, []));
    assert Step(acked, acks[1], CfgA) == Handled(Effect(decided, []));
    assert Deliver(acked, acks[1..], CfgA) == Effect(decided, []);
  }

  /** A node that agreed to (9, 5) answers PROPOSE(price 7, sequence 3) with
      REJECT of its own pair (9, 5) and stays as it was. */
  lemma StaleProposalRejected()
    ensures
      var n := Init().(agreedPrice := Some(9), agreedSequence := Some(5));
      Step(n, Msg(1, PROPOSE, 7, 3, 2), CfgA)
        == Handled(Effect(n, [Send(2, Msg(1, REJECT, 9, 5, 1))]))
  {
  }

  /** A node that agreed to sequence 5 answers COMMIT at sequence 3 with
      REJECT and keeps its price and sequence. */
  lemma StaleCommitRejected()
    ensures
      var n := Init().(agreedPrice := Some(9), agreedSequence := Some(5));
      Step(n, Msg(1, COMMIT, 7, 3, 2), CfgA)
        == Handled(Effect(n, [Send(2, Msg(1, REJECT, 9, 5, 1))]))
  {
  }

  /** REJECT(price 42, sequence 5) makes the node adopt 42 at 5 and
      re-propose 42 at 5 to all its peers. */
  lemma RejectAdoption()
    ensures
      var r := Step(Init(), Msg(1, REJECT, 42, 5, 2), CfgA);
      && r.Handled?
      && r.effect.node.price == 42 && r.effect.node.sequence == 5
      && r.effect.sent == [Send(2, Msg(2, PROPOSE, 42, 5, 1)), Send(3, Msg(3, PROPOSE, 42, 5, 1))]
  {
  }

  /** The agreed sequence is not monotone over a node's lifetime: a REJECT
      carrying a lower sequence than the one the node has agreed to
      overwrites it. */
  lemma RejectLowersAgreedSequence()
    ensures
      var n := Init().(agreedPrice := Some(9), agreedSequence := Some(10));
      var r := Step(n, Msg(1, REJECT, 4, 5, 2), CfgA);
      r.Handled? && r.effect.node.agreedSequence == Some(5)
  {
  }
}
