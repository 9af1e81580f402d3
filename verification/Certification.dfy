/** Certifying an event: aggregated signatures, the bitset that names their signers, and the two-thirds quorum. */
module Certification {
  import opened Types
  import opened Store
  import opened EventHash

  /** The collator's integer test. */
  predicate MoreThanTwoThirds(votes: nat, validators: nat) {
    votes > validators * 2 / 3
  }

  predicate HasVote(votes: seq<Vote>, key: Bytes) {
    exists v :: v in votes && v.pubKey == Hex(key)
  }

  /** Positions of the validators that have a vote. */
  function SignerBits(votes: seq<Vote>, validators: seq<Bytes>): set<nat> {
    set i: nat | i < |validators| && HasVote(votes, validators[i]) :: i
  }

  /** A row whose key and hash columns are those its signature was made with. */
  predicate VoteSound(v: Vote) {
    v.pubKey == Hex(v.signature.signer) && v.eventHash == Hex(v.signature.message)
  }

  /** An aggregate keeps each signature as often as it was added. */
  function Aggregate(votes: seq<Vote>): multiset<Signature> {
    if votes == [] then multiset{} else Aggregate(votes[..|votes| - 1]) + multiset{votes[|votes| - 1].signature}
  }

  ghost predicate DistinctValidators(validators: seq<Bytes>) {
    forall i, j :: 0 <= i < j < |validators| ==> validators[i] != validators[j]
  }

  /** Go's two loops: collect keys and signatures, then test every validator's key. `parsed` is the outcome of
      decoding. */
  method AggregateSignatureAndValidatorBitSet(votes: seq<Vote>, validators: seq<Bytes>, parsed: bool)
    returns (aggregate: Option<multiset<Signature>>, bits: set<nat>)
    ensures aggregate == if parsed then Some(Aggregate(votes)) else None
    ensures bits == SignerBits(votes, validators)
    ensures forall i: nat :: i in bits <==>
      i < |validators| && exists v :: v in votes && v.pubKey == Hex(validators[i])
  {
    var signatures: seq<Signature> := [];
    var voteAddrSet: set<string> := {};
    for i := 0 to |votes|
      invariant |signatures| == i && forall k :: 0 <= k < i ==> signatures[k] == votes[k].signature
      invariant forall k :: 0 <= k < i ==> votes[k].pubKey in voteAddrSet
      invariant forall key :: key in voteAddrSet ==> exists v :: v in votes && v.pubKey == key
    {
      voteAddrSet := voteAddrSet + {votes[i].pubKey};
      signatures := signatures + [votes[i].signature];
    }
    bits := {};
    for idx := 0 to |validators|
      invariant bits == set i: nat | i < idx && HasVote(votes, validators[i]) :: i
    {
      if Hex(validators[idx]) in voteAddrSet {
        bits := bits + {idx};
      }
    }
    if !parsed {
      return None, bits;
    }
    var sum := AggregateSignatures(signatures, votes);
    aggregate := Some(sum);
  }

  method AggregateSignatures(signatures: seq<Signature>, ghost votes: seq<Vote>) returns (sum: multiset<Signature>)
    requires |signatures| == |votes| && forall k :: 0 <= k < |votes| ==> signatures[k] == votes[k].signature
    ensures sum == Aggregate(votes)
  {
    sum := multiset{};
    for i := 0 to |signatures|
      invariant sum == Aggregate(votes[..i])
    {
      assert votes[..i + 1][..i] == votes[..i];
      sum := sum + multiset{signatures[i]};
    }
    assert votes[..|votes|] == votes;
  }

  // ---------------------------------------------------------------------------------------------
  // The bitset names the signers

  lemma {:induction false} AggregateMembers(votes: seq<Vote>, sig: Signature)
    ensures sig in Aggregate(votes) <==> exists v :: v in votes && v.signature == sig
  {
    if votes != [] {
      var front, last := votes[..|votes| - 1], votes[|votes| - 1];
      AggregateMembers(front, sig);
      assert votes == front + [last];
    }
  }

  /** Positions of the votes with this signature. */
  function SignedAt(votes: seq<Vote>, sig: Signature): set<nat> {
    set i: nat | i < |votes| && votes[i].signature == sig
  }

  /** Each signature counts as often as there are votes with it. */
  lemma {:induction false} AggregateCounts(votes: seq<Vote>, sig: Signature)
    ensures Aggregate(votes)[sig] == |SignedAt(votes, sig)|
  {
    if votes == [] {
      assert SignedAt(votes, sig) == {};
    } else {
      var front, n := votes[..|votes| - 1], |votes| - 1;
      AggregateCounts(front, sig);
      assert SignedAt(votes, sig) == SignedAt(front, sig) + if votes[n].signature == sig then {n} else {};
    }
  }

  lemma SoundVote(votes: seq<Vote>, key: Bytes)
    requires forall v :: v in votes ==> VoteSound(v)
    ensures HasVote(votes, key) <==> exists v :: v in votes && v.signature.signer == key
  {
    if HasVote(votes, key) {
      var v :| v in votes && v.pubKey == Hex(key);
      HexInjective(v.signature.signer, key);
    }
  }

  /** Keys named by a bitset over a validator list. */
  function NamedBy(bits: set<nat>, validators: seq<Bytes>): set<Bytes> {
    set i | i in bits && i < |validators| :: validators[i]
  }

  /** Keys whose signatures went into an aggregate. */
  function SignersIn(aggregate: multiset<Signature>): set<Bytes> {
    set sig | sig in aggregate :: sig.signer
  }

  /** The aggregate verifies against exactly the keys the bitset names iff every voter is a current validator. */
  lemma BitsetNamesSigners(votes: seq<Vote>, validators: seq<Bytes>)
    requires forall v :: v in votes ==> VoteSound(v)
    ensures NamedBy(SignerBits(votes, validators), validators) <= SignersIn(Aggregate(votes))
    ensures NamedBy(SignerBits(votes, validators), validators) == SignersIn(Aggregate(votes))
       <==> forall v :: v in votes ==> v.signature.signer in validators
  {
    var named, signers := NamedBy(SignerBits(votes, validators), validators), SignersIn(Aggregate(votes));
    forall key ensures key in named <==> key in validators && key in signers {
      SoundVote(votes, key);
      if key in signers {
        var sig :| sig in Aggregate(votes) && sig.signer == key;
        AggregateMembers(votes, sig);
      }
      forall v | v in votes && v.signature.signer == key ensures key in signers {
        AggregateMembers(votes, v.signature);
      }
      if key in validators && key in signers {
        var i :| 0 <= i < |validators| && validators[i] == key;
        assert i in SignerBits(votes, validators);
      }
    }
    forall v | v in votes ensures v.signature.signer in signers {
      AggregateMembers(votes, v.signature);
    }
    if key :| key in signers && key !in validators {
      var sig :| sig in Aggregate(votes) && sig.signer == key;
      AggregateMembers(votes, sig);
      assert key !in named;
    }
  }

  /** A vote of a new key adds the bit of its validator. */
  lemma OneMoreBit(front: seq<Vote>, v: Vote, validators: seq<Bytes>, i: nat)
    requires i < |validators| && validators[i] == v.signature.signer && VoteSound(v)
    requires DistinctValidators(validators) && forall w :: w in front ==> w.pubKey != v.pubKey
    ensures i !in SignerBits(front, validators)
    ensures SignerBits(front + [v], validators) == SignerBits(front, validators) + {i}
  {
    forall k: nat ensures k in SignerBits(front + [v], validators) <==> k == i || k in SignerBits(front, validators) {
      if k < |validators| && v.pubKey == Hex(validators[k]) {
        HexInjective(v.signature.signer, validators[k]);
      }
      assert v in front + [v];
    }
  }

  /** One bit per vote: the bitset is as large as the list of votes it was made from. */
  lemma {:induction false} BitsetSize(votes: seq<Vote>, validators: seq<Bytes>)
    requires DistinctKeys(votes) && DistinctValidators(validators)
    requires forall v :: v in votes ==> VoteSound(v) && v.signature.signer in validators
    ensures |SignerBits(votes, validators)| == |votes|
  {
    if votes == [] {
      assert SignerBits(votes, validators) == {};
    } else {
      var front, v := votes[..|votes| - 1], votes[|votes| - 1];
      assert votes == front + [v];
      BitsetSize(front, validators);
      var i :| 0 <= i < |validators| && validators[i] == v.signature.signer;
      OneMoreBit(front, v, validators, i);
    }
  }

  // ---------------------------------------------------------------------------------------------
  // Quorums

  lemma {:induction false} BoundedSize(s: set<nat>, n: nat)
    requires forall i :: i in s ==> i < n
    ensures |s| <= n
  {
    if n > 0 {
      BoundedSize(s - {n - 1}, n - 1);
    } else {
      assert s == {};
    }
  }

  /** The integer test is the exact two-thirds test, and two signer sets that pass it share over a third of the
      validators. */
  lemma QuorumsIntersect(a: set<nat>, b: set<nat>, n: nat)
    requires forall i :: i in a + b ==> i < n
    requires MoreThanTwoThirds(|a|, n) && MoreThanTwoThirds(|b|, n)
    ensures 3 * |a| > 2 * n && 3 * |b| > 2 * n && 3 * |a * b| > n
  {
    BoundedSize(a + b, n);
    assert |a + b| == |a| + |b| - |a * b|;
  }
}
