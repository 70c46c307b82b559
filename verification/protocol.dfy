/** The wire record nodes exchange (`PaxProtocol`) and its five action tags. */
module PaxProtocol {
  import opened JavaTypes

  const PROPOSE: string := "propose"
  const AGREE: string := "agree"
  const REJECT: string := "reject"
  const COMMIT: string := "commit"
  const AGREE_COMMIT: string := "agreecommit"

  /** The five kinds of message the listener reacts to. */
  datatype Action = Propose | Agree | Reject | Commit | AgreeCommit

  /** The action string a message of kind `a` carries on the wire. */
  function Tag(a: Action): string
  {
    match a
    case Propose => PROPOSE
    case Agree => AGREE
    case Reject => REJECT
    case Commit => COMMIT
    case AgreeCommit => AGREE_COMMIT
  }

  /** The listener's `equals` chain: which handler, if any, a received
      action string selects. Tags are tried in the order the listener
      tests them; a string matching none selects no handler. */
  function ParseAction(s: string): (r: Option<Action>)
    ensures r.Some? ==> Tag(r.value) == s
    ensures r.None? <==> forall a: Action :: Tag(a) != s
  {
    if s == PROPOSE then Some(Propose)
    else if s == AGREE then Some(Agree)
    else if s == REJECT then Some(Reject)
    else if s == COMMIT then Some(Commit)
    else if s == AGREE_COMMIT then Some(AgreeCommit)
    else None
  }

  /** Tags are pairwise distinct, so every tag selects its own handler. */
  lemma TagsSelectOwnHandler(a: Action)
    ensures ParseAction(Tag(a)) == Some(a)
    ensures forall b: Action :: Tag(b) == Tag(a) ==> b == a
  {
  }

  /** One protocol message. `port` is the destination hint, `sourcePort`
      the reply-to address; `action` is any string, since the record is
      decoded from text. */
  datatype Msg = Msg(port: int32, action: string, proposedPrice: int32, sequence: int32, sourcePort: int32)

  /** The five-argument constructor: each getter returns the argument it
      was given. */
  function NewProtocol(port: int32, action: string, proposedPrice: int32, sequence: int32, sourcePort: int32): (m: Msg)
    ensures m.port == port && m.sourcePort == sourcePort
    ensures m.action == action
    ensures m.proposedPrice == proposedPrice && m.sequence == sequence
  {
    Msg(port, action, proposedPrice, sequence, sourcePort)
  }
}
