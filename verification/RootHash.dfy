/** The verifier's verdict: replace the challenged checksum by the hash of the piece, hash the list, compare roots. */
module RootHash {
  import opened Types

  function Join(list: seq<Bytes>): Bytes {
    if list == [] then [] else list[0] + Join(list[1..])
  }

  /** Entries are concatenated in list order, with nothing between them. */
  lemma {:induction false} JoinOfBoth(a: seq<Bytes>, b: seq<Bytes>)
    ensures Join(a + b) == Join(a) + Join(b)
  {
    if a == [] {
      assert a + b == b;
    } else {
      JoinOfBoth(a[1..], b);
      assert (a + b)[1..] == a[1..] + b && (a + b)[0] == a[0];
      Regroup(a[0], Join(a[1..]), Join(b));
    }
  }

  lemma Regroup(x: Bytes, y: Bytes, z: Bytes)
    ensures x + (y + z) == (x + y) + z
  {
  }

  lemma JoinOfOne(x: Bytes)
    ensures Join([x]) == x
  {
    assert [x][1..] == [];
  }

  function RootOf(h: Bytes -> Bytes, checksums: seq<Bytes>): Bytes {
    h(Join(checksums))
  }

  /** compareHashAndUpdate's verdict on the SP's checksums and piece, against the root stored on chain. */
  function Verdict(h: Bytes -> Bytes, chainRoot: Bytes, checksums: seq<Bytes>, segment: nat, piece: Bytes): VerifyResult
    requires segment < |checksums|
  {
    if chainRoot == RootOf(h, checksums[segment := h(piece)]) then HashMatched else HashMismatched
  }

  /** Overwrites the challenged entry in place before hashing, as the source does. */
  method ComputeRootHash(h: Bytes -> Bytes, segmentIndex: nat, pieceData: Bytes, checksums: array<Bytes>)
    returns (root: Bytes)
    requires segmentIndex < checksums.Length
    modifies checksums
    ensures checksums[..] == old(checksums[..])[segmentIndex := h(pieceData)]
    ensures root == RootOf(h, checksums[..]) == h(Join(old(checksums[..])[segmentIndex := h(pieceData)]))
  {
    checksums[segmentIndex] := h(pieceData);
    root := h(Join(checksums[..]));
  }

  // ---------------------------------------------------------------------------------------------
  // What a match proves

  ghost predicate FixedLength(h: Bytes -> Bytes, width: nat) {
    width > 0 && forall x :: |h(x)| == width
  }

  predicate AllOfLength(list: seq<Bytes>, width: nat) {
    forall x :: x in list ==> |x| == width
  }

  /** The SP kept the object: its list is the original off the challenged index, and the piece hashes to the original
      entry. */
  predicate Intact(h: Bytes -> Bytes, original: seq<Bytes>, checksums: seq<Bytes>, segment: nat, piece: Bytes) {
    && |checksums| == |original|
    && segment < |original|
    && (forall i :: 0 <= i < |original| && i != segment ==> checksums[i] == original[i])
    && h(piece) == original[segment]
  }

  lemma {:induction false} JoinInjective(a: seq<Bytes>, b: seq<Bytes>, width: nat)
    requires width > 0 && AllOfLength(a, width) && AllOfLength(b, width) && Join(a) == Join(b)
    ensures a == b
  {
    if a != [] && b != [] {
      assert a[0] == Join(a)[..width] && b[0] == Join(b)[..width];
      assert Join(a[1..]) == Join(a)[width..] && Join(b[1..]) == Join(b)[width..];
      JoinInjective(a[1..], b[1..], width);
      assert a == [a[0]] + a[1..] && b == [b[0]] + b[1..];
    }
  }

  /** The verdict is HashMatched exactly when the object is intact, unless these two lists exhibit a hash collision. */
  lemma VerdictExact(h: Bytes -> Bytes, original: seq<Bytes>, checksums: seq<Bytes>, segment: nat, piece: Bytes,
      width: nat)
    requires FixedLength(h, width) && AllOfLength(original, width) && AllOfLength(checksums, width)
    requires segment < |checksums|
    ensures Verdict(h, RootOf(h, original), checksums, segment, piece) == HashMatched
       <==> Intact(h, original, checksums, segment, piece)
            || Collision(h, Join(original), Join(checksums[segment := h(piece)]))
  {
    var replaced := checksums[segment := h(piece)];
    if Join(original) == Join(replaced) {
      JoinInjective(original, replaced, width);
    }
    if Intact(h, original, checksums, segment, piece) {
      assert replaced == original;
    }
  }

  /** Whatever the SP claims as checksum of the challenged segment itself never changes the verdict. */
  lemma OwnEntryIrrelevant(h: Bytes -> Bytes, root: Bytes, checksums: seq<Bytes>, claimed: seq<Bytes>, segment: nat,
      piece: Bytes)
    requires |checksums| == |claimed| && segment < |checksums|
    requires forall i :: 0 <= i < |checksums| && i != segment ==> checksums[i] == claimed[i]
    ensures Verdict(h, root, checksums, segment, piece) == Verdict(h, root, claimed, segment, piece)
  {
    assert checksums[segment := h(piece)] == claimed[segment := h(piece)];
  }
}
