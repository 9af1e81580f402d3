/** The entities of db/model, the start-challenge record of the chain and the votes of the vote pool. */
module Types {

  type uint64 = x: int | 0 <= x < 0x1_0000_0000_0000_0000

  type byte = x: int | 0 <= x < 256

  type Bytes = seq<byte>

  datatype Option<+T> = None | Some(value: T)

  datatype EventStatus =
    | Unprocessed
    | Verified
    | SelfVoted
    | EnoughVotesCollected
    | Submitted
    | SelfAttested
    | Attested
    | Duplicated
    | DuplicatedSlash
    | VerificationFailed

  datatype VerifyResult = Unknown | HashMatched | HashMismatched

  datatype VoteResult = ChallengeFailed | ChallengeSucceed

  /** What the chain announces when a challenge starts; an empty challenger means "no challenger". */
  datatype Challenge = Challenge(
    challengeId: uint64,
    objectId: nat,
    segmentIndex: nat,
    redundancyIndex: int,
    sp: Bytes,
    challenger: Bytes,
    expiredHeight: nat)

  /** A row of the events table: the immutable announcement and the two columns the stages update. */
  datatype Event = Event(info: Challenge, height: nat, status: EventStatus, verifyResult: VerifyResult)

  /** A signature verifies under exactly one key and for exactly one message. */
  datatype Signature = Signature(signer: Bytes, message: Bytes)

  /** A row of the votes table; keys and hashes are stored in hexadecimal. */
  datatype Vote = Vote(challengeId: uint64, pubKey: string, signature: Signature, eventHash: string)

  /** A vote as it travels through the vote pool. */
  datatype PoolVote = PoolVote(pubKey: Bytes, signature: Signature, eventHash: Bytes)

  predicate VerifySignature(v: PoolVote) {
    v.signature == Signature(v.pubKey, v.eventHash)
  }

  predicate Collision(h: Bytes -> Bytes, x: Bytes, y: Bytes) {
    x != y && h(x) == h(y)
  }
}
