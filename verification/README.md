# simple-paxos listener, modelled in Dafny

This project models the per-node consensus state machine of simple-paxos. Each node is both proposer and acceptor. The nodes agree on one integer "price" through five kinds of message: `propose`, `agree`, `reject`, `commit` and `agreecommit`. The protocol resembles Paxos, but an acceptor promises and accepts in one step.

The model is functional:

- `PaxListener.Node` holds the listener's fields.
- `PaxListener.Step(node, msg, cfg)` is the handler run for one received message. It returns the new node and the messages sent, or a crash.
- `PaxListener.ProposePrice` and `PaxListener.SendCommits` are the two broadcast entry points.
- `Delivery.Deliver` runs a node over a finite sequence of received messages.

Each message is handled atomically. A send is one `Send(to, msg)` appended to the outgoing list. `to` is the port passed to `sendProto`, which need not equal the message's own `port` field. A reply carries the replying node's own port in both `port` and `sourcePort`. A broadcast carries the destination in `port`.

The listener's state is read through the fields of `Node`, which stand in for the getters `getPrice` and `getSequence`. The operator overrides are the `Set…` functions.

Java's `int` is the subset type `int32`. The vote counters' `++` wraps from `Integer.MAX_VALUE` to `Integer.MIN_VALUE` (`JavaTypes.Inc`). `List.size()` is capped at `Integer.MAX_VALUE` (`JavaTypes.ListSize`). A node passes the majority test when its vote count is greater than `size / 2`, using Java's integer division.

`agreedPrice.get()` on an empty optional throws. This can only happen after an operator override sets `agreedSequence` without `agreedPrice`. The model does not require this case away: `Step` returns `Crashed(NoSuchElement)`. The throw happens before any field is written, so in a run of deliveries the crashed message changes nothing and the node keeps listening.

Where the code departs from what a Paxos-style protocol leads one to expect, the model follows the code:

- **Agreed sequence can go down.** A Paxos acceptor never lowers the sequence it has promised. This code overwrites `agreedSequence` unconditionally on REJECT (PaxListener.java:102-103) and on a decided AGREE_COMMIT (PaxListener.java:134-135), so it can go down. `Scenarios.RejectLowersAgreedSequence` shows an input where it does. The monotonicity that does hold is for runs of PROPOSE and COMMIT only (`Delivery.AcceptorMonotone`).
- **AGREE counts votes from any round.** AGREE messages are counted without looking at their sequence.
- **COMMIT carries the node's current sequence.** The COMMIT broadcast uses the node's current `sequence` field, not the sequence of the AGREE that reached the majority.

## Model

| member | source | states |
|---|---|---|
| PaxProtocol.ParseAction | src/main/java/com/meyermt/paxos/PaxListener.java:63-139 | the `equals` chain picks a handler only for an action equal to that handler's tag, and no handler exactly when the action equals none of the five tags |
| PaxProtocol.TagsSelectOwnHandler | src/main/java/com/meyermt/paxos/PaxProtocol.java:9-13 | the five tags are pairwise distinct, so each tag selects its own handler and no other |
| PaxProtocol.NewProtocol | src/main/java/com/meyermt/paxos/PaxProtocol.java:32-58 | `getPort`, `getAction`, `getProposedPrice`, `getSequence` and `getSourcePort` return exactly the constructor's arguments |
| JavaTypes.Inc | src/main/java/com/meyermt/paxos/PaxListener.java:87 | Java's `++` on an `int`: the successor taken modulo 2^32 in two's complement, so `Integer.MAX_VALUE` goes to `Integer.MIN_VALUE` |
| JavaTypes.ListSize | src/main/java/com/meyermt/paxos/PaxListener.java:88 | the number of elements, or `Integer.MAX_VALUE` when the list is longer |
| Delivery.ProposeOpensBounded | src/main/java/com/meyermt/paxos/PaxListener.java:153-160 | `proposePrice` leaves an open round with an AGREE count between 0 and size/2 |
| Delivery.StepKeepsOpenRoundBounded | src/main/java/com/meyermt/paxos/PaxListener.java:85-104 | every received message keeps "round open implies AGREE count between 0 and size/2", so `AgreesWhileOpen`'s requires holds in every reachable open round |
| PaxListener.Init | src/main/java/com/meyermt/paxos/PaxListener.java:26-48 | a new listener has price 1, sequence 1, no agreed pair, zero counters and open latches, and satisfies the agreed-pair invariant |
| PaxListener.Broadcast | src/main/java/com/meyermt/paxos/PaxListener.java:155-158 | one send per network port, in list order, addressed to that port, with the port as the message's `port` field and the node's own port as `sourcePort` |
| PaxListener.ProposePrice | src/main/java/com/meyermt/paxos/PaxListener.java:153-160 | clears `proposalEnded` and `agreeCount`, changes no other field, and sends PROPOSE of the given price and sequence once to every network port in order |
| PaxListener.SendCommits | src/main/java/com/meyermt/paxos/PaxListener.java:166-171 | clears only `agreeCommitEnded`, and sends COMMIT of the given price at the node's current sequence once to every network port in order |
| PaxListener.Step | src/main/java/com/meyermt/paxos/PaxListener.java:62-139 | the handler crashes exactly when a stale PROPOSE or COMMIT meets an empty agreed price; it preserves "agreed price present iff agreed sequence present"; any change to the agreed pair sets both halves; every message sent names the node as source and goes to the sender or a network port |
| PaxListener.SetPrice | src/main/java/com/meyermt/paxos/PaxListener.java:206-208 | overwrites `price` and nothing else |
| PaxListener.SetSequence | src/main/java/com/meyermt/paxos/PaxListener.java:210-212 | overwrites `sequence` and nothing else |
| PaxListener.SetAgreedPrice | src/main/java/com/meyermt/paxos/PaxListener.java:214-216 | makes `agreedPrice` present with the given value and changes nothing else |
| PaxListener.SetAgreedSequence | src/main/java/com/meyermt/paxos/PaxListener.java:218-220 | makes `agreedSequence` present with the given value and changes nothing else |
| Handlers.ProposeAccepted | src/main/java/com/meyermt/paxos/PaxListener.java:63-84 | a PROPOSE at or above the agreed sequence, or reaching a node with no agreed sequence, sets the agreed pair to the proposal, changes nothing else, and sends exactly one AGREE of the proposal to the sender |
| Handlers.ProposeRejected | src/main/java/com/meyermt/paxos/PaxListener.java:65-70 | a PROPOSE below the agreed sequence leaves the node unchanged and sends exactly one REJECT carrying the node's own agreed pair to the sender |
| Handlers.AcceptorNeverLowers | src/main/java/com/meyermt/paxos/PaxListener.java:63-126 | a handled PROPOSE or COMMIT never lowers the agreed sequence and never removes it |
| Handlers.CommitOutcome | src/main/java/com/meyermt/paxos/PaxListener.java:105-126 | a stale COMMIT is answered with REJECT of the agreed pair and the node is unchanged; otherwise the node adopts the committed price and sequence and answers AGREE_COMMIT; the agreed pair, counters and latches never change |
| Handlers.AgreeOutcome | src/main/java/com/meyermt/paxos/PaxListener.java:85-93 | AGREE increments `agreeCount` with wrap-around; the COMMIT broadcast of the AGREE's price at the node's own sequence happens exactly when the new count exceeds half the network and the round is open, and then resets the count and closes the round; price, sequence and agreed pair never change |
| Handlers.AgreeAfterLatch | src/main/java/com/meyermt/paxos/PaxListener.java:87-88 | once `proposalEnded` is set, an AGREE only increments the counter and sends nothing |
| Handlers.AgreeCommitOutcome | src/main/java/com/meyermt/paxos/PaxListener.java:127-138 | AGREE_COMMIT sends nothing; it increments the counter, and exactly when the new count exceeds half the network with the commit round open it closes the round, resets the count and sets agreed and current price and sequence to the message's pair |
| Handlers.RejectOutcome | src/main/java/com/meyermt/paxos/PaxListener.java:94-104 | REJECT resets both counters and both latches, adopts the message's pair as current and agreed pair, and re-proposes that same pair (same sequence) to every network port |
| Handlers.UnknownActionIgnored | src/main/java/com/meyermt/paxos/PaxListener.java:63-139 | an action matching no tag changes nothing and sends nothing |
| Handlers.RepliesGoToSender | src/main/java/com/meyermt/paxos/PaxListener.java:63-126 | PROPOSE and COMMIT are answered with exactly one message, sent to the message's source port |
| Handlers.OverrideBreaksPair | src/main/java/com/meyermt/paxos/PaxListener.java:214-220 | on a node with no agreed pair, setting only one half of it breaks the pair invariant that every protocol handler keeps |
| Handlers.OverrideKeepsFullPair | src/main/java/com/meyermt/paxos/PaxListener.java:214-220 | on a node that holds both halves, setting one half keeps the pair invariant |
| Handlers.OverrideBothRestoresPair | src/main/java/com/meyermt/paxos/PaxListener.java:214-220 | setting both halves, in either order, restores the pair invariant on any node |
| Delivery.Deliver | src/main/java/com/meyermt/paxos/PaxListener.java:57-141 | over any finite run of received messages the agreed-pair invariant is kept, and every message sent names the node as source |
| Delivery.AcceptorMonotone | src/main/java/com/meyermt/paxos/PaxListener.java:63-126 | along any run of PROPOSE and COMMIT messages, from any node including a fresh one, an agreed sequence once present stays present and never decreases, and counters and latches are untouched |
| Delivery.AgreesWhileLatched | src/main/java/com/meyermt/paxos/PaxListener.java:85-93 | with the proposal round closed, k AGREEs add k to the counter and send nothing |
| Delivery.AgreesWhileOpen | src/main/java/com/meyermt/paxos/PaxListener.java:85-93 | with the round open and c votes counted, AGREEs send nothing until the one that passes half the network, which triggers exactly one COMMIT broadcast of its price; later AGREEs only count |
| Delivery.QuorumFiresOnce | src/main/java/com/meyermt/paxos/PaxListener.java:153-171 | after `proposePrice`, k AGREEs broadcast COMMIT once, carrying the price of AGREE number size/2 + 1, when k exceeds half the network, and never otherwise |
| Scenarios.ThreeNodeAgreement | src/main/java/com/meyermt/paxos/PaxListener.java:63-139 | three nodes go from a proposal of 100 at sequence 1 through AGREE, COMMIT and AGREE_COMMIT to all holding price 100 at sequence 1 |
| Scenarios.StaleProposalRejected | src/main/java/com/meyermt/paxos/PaxListener.java:65-70 | a node that agreed to (9, 5) answers PROPOSE(7, 3) with REJECT(9, 5) and is unchanged |
| Scenarios.StaleCommitRejected | src/main/java/com/meyermt/paxos/PaxListener.java:107-112 | a node that agreed to sequence 5 answers COMMIT at sequence 3 with REJECT of its agreed pair and is unchanged |
| Scenarios.RejectAdoption | src/main/java/com/meyermt/paxos/PaxListener.java:94-104 | REJECT(42, 5) makes the node adopt 42 at 5 and re-propose 42 at 5 to all peers |
| Scenarios.RejectLowersAgreedSequence | src/main/java/com/meyermt/paxos/PaxListener.java:100-103 | a REJECT at sequence 5 lowers an agreed sequence of 10 to 5 |

## Left out

- Sockets, the accept loop and the thread started per connection are not modelled. Each message is handled atomically and in order, although the Java workers share the fields without synchronisation. Races between workers are not modelled.
- `sendProto` and `readResultToProtocol` are left out. They are TCP I/O and JSON through Gson, a library that is not part of this model. A send is modelled as appending to the outgoing list, so the JSON encode/decode round trip is not stated.
- A message that decodes to `null`, or a `null` action, makes the Java worker throw a `NullPointerException`. The model has no null: every received message has an action string.
- A send that fails throws. That ends the rest of a broadcast and the rest of the handler. The model treats every send as successful.
- Logging, the `exit` flag and `stopServer` are left out because they have no effect on the consensus fields.
- `PaxServer.java` is not part of this model: argument parsing, the console loop and `System.exit`. Its `propose-price` command is `ProposePrice(n, cfg, value, n.sequence)`. Its `set-…` commands are the `Set…` functions.
- Messages are not routed between nodes automatically. `Scenarios.ThreeNodeAgreement` passes each sent message to its destination by hand.
- Delivery.AgreesWhileLatched: covers only runs whose vote counter stays at or below `Integer.MAX_VALUE`. The wrapped counter after more votes is given one step at a time by `Handlers.AgreeOutcome`.
- Delivery.AgreesWhileOpen: same bound on the vote counter as above.
- Delivery.QuorumFiresOnce: same bound on the vote counter as above.
- Handlers.ProposeRejected: requires the agreed-pair invariant. The crash when the agreed price is empty is stated by `PaxListener.Step` instead.
- Handlers.CommitOutcome: requires the agreed-pair invariant, for the same reason.
