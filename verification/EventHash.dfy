/** Byte encodings (big-endian integers, hexadecimal) and the event-hash preimage of vote/util.go. */
module EventHash {
  import opened Types

  /** The `width` low-order base-256 digits of `n`, most significant first. */
  function BigEndian(n: nat, width: nat): (bs: Bytes)
    ensures |bs| == width
  {
    if width == 0 then [] else BigEndian(n / 256, width - 1) + [n % 256]
  }

  /** Shortest big-endian form; zero has no digits at all. */
  function MinimalBigEndian(n: nat): Bytes {
    if n == 0 then [] else MinimalBigEndian(n / 256) + [n % 256]
  }

  /** The number a big-endian byte string denotes. */
  function Value(bs: Bytes): nat {
    if bs == [] then 0 else Value(bs[..|bs| - 1]) * 256 + bs[|bs| - 1]
  }

  /** Earlier bytes weigh more: each byte after them counts as a factor of 256. */
  lemma {:induction false} ValueOfBoth(a: Bytes, b: Bytes)
    ensures Value(a + b) == Value(a) * Power256(|b|) + Value(b)
  {
    if b == [] {
      assert a + b == a;
    } else {
      var front, last := b[..|b| - 1], b[|b| - 1];
      ValueOfBoth(a, front);
      assert (a + b)[..|a + b| - 1] == a + front && (a + b)[|a + b| - 1] == last;
      OneMoreByte(Value(a), Power256(|front|), Value(front), last);
    }
  }

  lemma OneMoreByte(a: nat, power: nat, front: nat, last: nat)
    ensures (a * power + front) * 256 + last == a * (256 * power) + (front * 256 + last)
  {
    assert a * power * 256 == a * (256 * power);
  }

  lemma ValueOfByte(x: byte)
    ensures Value([x]) == x
  {
    assert [x][..0] == [];
  }

  function Power256(width: nat): nat {
    if width == 0 then 1 else 256 * Power256(width - 1)
  }

  lemma {:induction false} BigEndianRoundTrip(n: nat, width: nat)
    requires n < Power256(width)
    ensures Value(BigEndian(n, width)) == n
  {
    if width > 0 {
      BigEndianRoundTrip(n / 256, width - 1);
      assert BigEndian(n, width)[..width - 1] == BigEndian(n / 256, width - 1);
    }
  }

  lemma {:induction false} MinimalRoundTrip(n: nat)
    ensures Value(MinimalBigEndian(n)) == n
  {
    if n > 0 {
      MinimalRoundTrip(n / 256);
      var bs := MinimalBigEndian(n);
      assert bs[..|bs| - 1] == MinimalBigEndian(n / 256);
    }
  }

  /** Every byte string without a leading zero is the minimal form of its own value. */
  lemma {:induction false} MinimalOfValue(bs: Bytes)
    requires bs != [] ==> bs[0] != 0
    ensures MinimalBigEndian(Value(bs)) == bs
    ensures bs != [] ==> Value(bs) > 0
  {
    if bs != [] {
      var front := bs[..|bs| - 1];
      MinimalOfValue(front);
      assert Value(bs) / 256 == Value(front) && Value(bs) % 256 == bs[|bs| - 1];
      assert bs == front + [bs[|bs| - 1]];
    }
  }

  function VoteCode(r: VoteResult): uint64 {
    if r == ChallengeSucceed then 1 else 0
  }

  /** The result byte block: HashMismatched means the challenge succeeded; Unknown has no vote option. */
  function VoteOption(r: VerifyResult): Option<VoteResult> {
    match r
    case HashMismatched => Some(ChallengeSucceed)
    case HashMatched => Some(ChallengeFailed)
    case Unknown => None
  }

  function Preimage(chainId: Bytes,
      challengeId: uint64, objectId: nat, result: VoteResult, sp: Bytes, challenger: Bytes): Bytes
  {
    chainId + BigEndian(challengeId, 8) + MinimalBigEndian(objectId) + BigEndian(VoteCode(result), 8) + sp + challenger
  }

  /** The hash this node votes on, or None where the source panics. */
  function EventDigest(keccak: Bytes -> Bytes, chainId: Bytes, e: Event): Option<Bytes> {
    match VoteOption(e.verifyResult)
    case None => None
    case Some(r) =>
      Some(keccak(Preimage(chainId, e.info.challengeId, e.info.objectId, r, e.info.sp, e.info.challenger)))
  }

  /** Reading the bytes from the front and from the back gives these fields. */
  ghost predicate Layout(p: Bytes, chainId: Bytes, id: uint64, objectId: nat, code: nat, sp: Bytes, challenger: Bytes) {
    var c, n, back := |chainId|, |p|, |sp| + |challenger|;
    && n >= c + 16 + back
    && p[..c] == chainId
    && Value(p[c..c + 8]) == id
    && Value(p[c + 8..n - back - 8]) == objectId
    && Value(p[n - back - 8..n - back]) == code
    && p[n - back..n - |challenger|] == sp
    && p[n - |challenger|..] == challenger
  }

  lemma PreimageLayout(chainId: Bytes, id: uint64, o: nat, r: VoteResult, sp: Bytes, ch: Bytes)
    ensures Layout(Preimage(chainId, id, o, r, sp, ch), chainId, id, o, if r == ChallengeSucceed then 1 else 0, sp, ch)
  {
    EightBytes();
    BigEndianRoundTrip(id, 8);
    BigEndianRoundTrip(VoteCode(r), 8);
    MinimalRoundTrip(o);
    LayoutOfParts(chainId, BigEndian(id, 8), MinimalBigEndian(o), BigEndian(VoteCode(r), 8), sp, ch);
  }

  lemma LayoutOfParts(chainId: Bytes, b: Bytes, c: Bytes, d: Bytes, sp: Bytes, ch: Bytes)
    requires |b| == 8 && |d| == 8 && Value(b) < 0x1_0000_0000_0000_0000
    ensures Layout(chainId + b + c + d + sp + ch, chainId, Value(b), Value(c), Value(d), sp, ch)
  {
    SixParts(chainId, b, c, d, sp, ch);
  }

  lemma SixParts(a: Bytes, b: Bytes, c: Bytes, d: Bytes, e: Bytes, f: Bytes)
    requires |b| == 8 && |d| == 8
    ensures var p := a + b + c + d + e + f;
      var k, n, back := |a|, |p|, |e| + |f|;
      && n == k + 16 + |c| + back
      && p[..k] == a && p[k..k + 8] == b && p[k + 8..n - back - 8] == c
      && p[n - back - 8..n - back] == d && p[n - back..n - |f|] == e && p[n - |f|..] == f
  {
  }

  lemma EightBytes()
    ensures Power256(8) == 0x1_0000_0000_0000_0000
  {
    assert Power256(4) == 0x1_0000_0000;
    assert Power256(8) == 256 * 256 * 256 * 256 * Power256(4);
  }

  /** Go's step-by-step construction: the result block is chosen by branches, then the buffer grows field by field. */
  method CalculateEventHash(keccak: Bytes -> Bytes, chainId: Bytes, e: Event) returns (hash: Option<Bytes>)
    ensures hash == EventDigest(keccak, chainId, e)
    ensures hash.None? <==> e.verifyResult == Unknown
    // what is hashed decodes to the fields of the event, in this order
    ensures hash.Some? ==>
      var code := if e.verifyResult == HashMismatched then 1 else 0;
      exists p :: hash.value == keccak(p) &&
        Layout(p, chainId, e.info.challengeId, e.info.objectId, code, e.info.sp, e.info.challenger)
  {
    var challengeIdBz := PutBigEndian(e.info.challengeId, 8);
    var resultBz;
    if e.verifyResult == HashMismatched {
      resultBz := PutBigEndian(VoteCode(ChallengeSucceed), 8);
    } else if e.verifyResult == HashMatched {
      resultBz := PutBigEndian(VoteCode(ChallengeFailed), 8);
    } else {
      return None;
    }
    var challengerBz: Bytes := [];
    if e.info.challenger != [] {
      challengerBz := e.info.challenger;
    }
    var bs: Bytes := [];
    bs := bs + chainId;
    bs := bs + challengeIdBz;
    bs := bs + MinimalBigEndian(e.info.objectId);
    bs := bs + resultBz;
    bs := bs + e.info.sp;
    bs := bs + challengerBz;
    assert [] + chainId == chainId && challengerBz == e.info.challenger;
    hash := Some(keccak(bs));
    PreimageLayout(chainId, e.info.challengeId, e.info.objectId,
                   if e.verifyResult == HashMismatched then ChallengeSucceed else ChallengeFailed,
                   e.info.sp, e.info.challenger);
  }

  /** Fills a fixed-width buffer from its last byte to its first. */
  method PutBigEndian(n: nat, width: nat) returns (bs: Bytes)
    ensures bs == BigEndian(n, width)
  {
    bs := [];
    var rest := n;
    for i := 0 to width
      invariant BigEndian(rest, width - i) + bs == BigEndian(n, width)
    {
      ghost var before := BigEndian(rest, width - i);
      assert before == BigEndian(rest / 256, width - i - 1) + [rest % 256];
      assert before + bs == BigEndian(rest / 256, width - i - 1) + ([rest % 256] + bs);
      bs := [rest % 256] + bs;
      rest := rest / 256;
    }
  }

  // ---------------------------------------------------------------------------------------------
  // Injectivity

  lemma SplitEqual(a1: Bytes, b1: Bytes, a2: Bytes, b2: Bytes)
    requires a1 + b1 == a2 + b2
    requires |a1| == |a2| || |b1| == |b2|
    ensures a1 == a2 && b1 == b2
  {
    assert |a1| + |b1| == |a2| + |b2|;
    assert a1 == (a1 + b1)[..|a1|] && a2 == (a2 + b2)[..|a2|];
    assert b1 == (a1 + b1)[|a1|..] && b2 == (a2 + b2)[|a2|..];
  }

  lemma IdInjective(x: uint64, y: uint64)
    requires BigEndian(x, 8) == BigEndian(y, 8)
    ensures x == y
  {
    EightBytes();
    BigEndianRoundTrip(x, 8);
    BigEndianRoundTrip(y, 8);
  }

  /** Distinct challenge ids never share a preimage, whatever the other fields are. */
  lemma DistinctIdsDistinctPreimages(chainId: Bytes,
      id1: uint64, o1: nat, r1: VoteResult, sp1: Bytes, ch1: Bytes,
      id2: uint64, o2: nat, r2: VoteResult, sp2: Bytes, ch2: Bytes)
    requires id1 != id2
    ensures Preimage(chainId, id1, o1, r1, sp1, ch1) != Preimage(chainId, id2, o2, r2, sp2, ch2)
  {
    var p1, p2 := Preimage(chainId, id1, o1, r1, sp1, ch1), Preimage(chainId, id2, o2, r2, sp2, ch2);
    if p1 == p2 {
      assert BigEndian(id1, 8) == p1[|chainId|..|chainId| + 8];
      assert BigEndian(id2, 8) == p2[|chainId|..|chainId| + 8];
      IdInjective(id1, id2);
      assert false;
    }
  }

  /** With address fields of equal length, a preimage determines every field that was voted on. */
  lemma PreimageInjective(chainId: Bytes,
      id1: uint64, o1: nat, r1: VoteResult, sp1: Bytes, ch1: Bytes,
      id2: uint64, o2: nat, r2: VoteResult, sp2: Bytes, ch2: Bytes)
    requires |sp1| == |sp2| && |ch1| == |ch2|
    requires Preimage(chainId, id1, o1, r1, sp1, ch1) == Preimage(chainId, id2, o2, r2, sp2, ch2)
    ensures id1 == id2 && o1 == o2 && r1 == r2 && sp1 == sp2 && ch1 == ch2
  {
    if id1 != id2 {
      DistinctIdsDistinctPreimages(chainId, id1, o1, r1, sp1, ch1, id2, o2, r2, sp2, ch2);
    }
    var head1, head2 := chainId + BigEndian(id1, 8), chainId + BigEndian(id2, 8);
    var m1, m2 := MinimalBigEndian(o1), MinimalBigEndian(o2);
    var v1, v2 := BigEndian(VoteCode(r1), 8), BigEndian(VoteCode(r2), 8);
    SplitEqual(head1 + m1 + v1 + sp1, ch1, head2 + m2 + v2 + sp2, ch2);
    SplitEqual(head1 + m1 + v1, sp1, head2 + m2 + v2, sp2);
    SplitEqual(head1 + m1, v1, head2 + m2, v2);
    SplitEqual(head1, m1, head2, m2);
    MinimalRoundTrip(o1);
    MinimalRoundTrip(o2);
    IdInjective(VoteCode(r1), VoteCode(r2));
  }

  /** The address fields a challenge may have: SP addresses of one length, challengers of that length or absent. */
  ghost predicate AddressShape(width: nat, present: bool, sp: Bytes, challenger: Bytes) {
    |sp| == width && |challenger| == if present then width else 0
  }

  /** Object ids are unsigned integers of 256 bits. */
  predicate IsObjectId(o: nat) {
    o < Power256(32)
  }

  /** Preimages of the two shapes determine all fields. */
  ghost predicate ShapesInjective(chainId: Bytes, width: nat, present1: bool, present2: bool) {
    forall id1: uint64, o1: nat, r1, sp1, ch1, id2: uint64, o2: nat, r2, sp2, ch2 ::
      IsObjectId(o1) && IsObjectId(o2) &&
      AddressShape(width, present1, sp1, ch1) && AddressShape(width, present2, sp2, ch2) &&
      Preimage(chainId, id1, o1, r1, sp1, ch1) == Preimage(chainId, id2, o2, r2, sp2, ch2)
      ==> id1 == id2 && o1 == o2 && r1 == r2 && sp1 == sp2 && ch1 == ch2
  }

  lemma MoveAddress(head: Bytes, item: Bytes, result: Bytes, zeros: Bytes)
    requires result + zeros == zeros + result
    ensures head + item + result + zeros + zeros == head + (item + zeros) + result + zeros + []
  {
    assert head + item + result + zeros + zeros == head + item + (result + zeros) + zeros;
    assert head + (item + zeros) + result + zeros + [] == head + item + (zeros + result) + zeros;
  }

  /** A challenge with a challenger and one without can share a preimage: the longer object id absorbs an address. */
  lemma MixedPresenceCollision(chainId: Bytes, id: uint64, width: nat, zeros: Bytes, longObject: nat)
    requires width > 0 && zeros == seq(width, _ => 0) && longObject == Value([1] + zeros)
    ensures AddressShape(width, true, zeros, zeros) && AddressShape(width, false, zeros, [])
    ensures longObject != 1 && (width < 32 ==> IsObjectId(1) && IsObjectId(longObject))
    ensures Preimage(chainId, id, 1, ChallengeFailed, zeros, zeros)
         == Preimage(chainId, id, longObject, ChallengeFailed, zeros, [])
  {
    LongObjectForm(zeros);
    MinimalLength(1, 32);
    MinimalLength(longObject, 32);
    var result := BigEndian(VoteCode(ChallengeFailed), 8);
    assert result + zeros == zeros + result by { BigEndianZero(8); }
    MoveAddress(chainId + BigEndian(id, 8), [1], result, zeros);
  }

  /** The object id whose minimal form is a one followed by `zeros`. */
  lemma LongObjectForm(zeros: Bytes)
    requires zeros != []
    ensures MinimalBigEndian(1) == [1] && MinimalBigEndian(Value([1] + zeros)) == [1] + zeros
    ensures Value([1] + zeros) != 1
  {
    MinimalOfValue([1] + zeros);
    assert MinimalBigEndian(1) == [1] by {
      MinimalOfValue([1]);
      assert Value([1]) == 1;
    }
  }

  lemma {:induction false} BigEndianZero(width: nat)
    ensures BigEndian(0, width) == seq(width, _ => 0)
  {
    if width > 0 { BigEndianZero(width - 1); }
  }

  /** The minimal form is as short as the number allows, and has no leading zero. */
  lemma {:induction false} MinimalLength(n: nat, width: nat)
    ensures n < Power256(width) <==> |MinimalBigEndian(n)| <= width
    ensures n > 0 ==> MinimalBigEndian(n)[0] != 0
  {
    if n > 0 {
      MinimalLength(n / 256, if width > 0 then width - 1 else 0);
    } else {
      PowerPositive(width);
    }
  }

  lemma {:induction false} PowerPositive(width: nat)
    ensures Power256(width) > 0
  {
    if width > 0 { PowerPositive(width - 1); }
  }

  /** An object id has no room for an address of 32 bytes or more next to another one. */
  lemma LongAddressesDiffer(chainId: Bytes,
      id1: uint64, o1: nat, r1: VoteResult, sp1: Bytes, ch1: Bytes,
      id2: uint64, o2: nat, r2: VoteResult, sp2: Bytes, width: nat)
    requires width >= 32 && IsObjectId(o1) && IsObjectId(o2)
    requires AddressShape(width, true, sp1, ch1) && |sp2| == width
    ensures Preimage(chainId, id1, o1, r1, sp1, ch1) != Preimage(chainId, id2, o2, r2, sp2, [])
  {
    var p1, p2 := Preimage(chainId, id1, o1, r1, sp1, ch1), Preimage(chainId, id2, o2, r2, sp2, []);
    MinimalLength(o1, 32);
    MinimalLength(o2, 32);
    if |p1| == |p2| {
      assert MinimalBigEndian(o1) == [] && |MinimalBigEndian(o2)| == 32;
      FirstAfterId(chainId, id1, o1, r1, sp1, ch1);
      FirstAfterId(chainId, id2, o2, r2, sp2, []);
      LeadingZero(VoteCode(r1), 8);
    }
  }

  /** The byte after the challenge id starts the object id, or the result when the object id is empty. */
  lemma FirstAfterId(chainId: Bytes, id: uint64, o: nat, r: VoteResult, sp: Bytes, ch: Bytes)
    ensures var p, m, result := Preimage(chainId, id, o, r, sp, ch), MinimalBigEndian(o), BigEndian(VoteCode(r), 8);
      |p| > |chainId| + 8 && p[|chainId| + 8] == if m == [] then result[0] else m[0]
  {
    var m, result := MinimalBigEndian(o), BigEndian(VoteCode(r), 8);
    assert Preimage(chainId, id, o, r, sp, ch) == (chainId + BigEndian(id, 8)) + ((m + result) + (sp + ch));
    assert |chainId + BigEndian(id, 8)| == |chainId| + 8;
  }

  lemma {:induction false} LeadingZero(n: nat, width: nat)
    requires n < 256 && width > 1
    ensures BigEndian(n, width)[0] == 0
  {
    BigEndianZero(width - 1);
    assert BigEndian(n / 256, width - 1) == BigEndian(0, width - 1);
  }

  /** The exact condition for injectivity: both challenges have a challenger, or neither has, or addresses are so long
      that no object id can absorb one. Addresses of the chain have 20 bytes. */
  lemma InjectiveIffSamePresence(chainId: Bytes, width: nat, present1: bool, present2: bool)
    requires width > 0
    ensures ShapesInjective(chainId, width, present1, present2) <==> present1 == present2 || width >= 32
  {
    if present1 == present2 || width >= 32 {
      forall id1: uint64, o1: nat, r1, sp1, ch1, id2: uint64, o2: nat, r2, sp2, ch2 |
        IsObjectId(o1) && IsObjectId(o2) &&
        AddressShape(width, present1, sp1, ch1) && AddressShape(width, present2, sp2, ch2) &&
        Preimage(chainId, id1, o1, r1, sp1, ch1) == Preimage(chainId, id2, o2, r2, sp2, ch2)
        ensures id1 == id2 && o1 == o2 && r1 == r2 && sp1 == sp2 && ch1 == ch2
      {
        if present1 == present2 {
          PreimageInjective(chainId, id1, o1, r1, sp1, ch1, id2, o2, r2, sp2, ch2);
        } else if present1 {
          LongAddressesDiffer(chainId, id1, o1, r1, sp1, ch1, id2, o2, r2, sp2, width);
        } else {
          LongAddressesDiffer(chainId, id2, o2, r2, sp2, ch2, id1, o1, r1, sp1, width);
        }
      }
    } else {
      var zeros: Bytes := seq(width, _ => 0);
      var longObject := Value([1] + zeros);
      MixedPresenceCollision(chainId, 0, width, zeros, longObject);
      assert Preimage(chainId, 0, longObject, ChallengeFailed, zeros, [])
          == Preimage(chainId, 0, 1, ChallengeFailed, zeros, zeros);
    }
  }

  // ---------------------------------------------------------------------------------------------
  // Hexadecimal columns

  function HexDigit(d: nat): char
    requires d < 16
  {
    if d < 10 then '0' + d as char else 'a' + (d - 10) as char
  }

  function Hex(bs: Bytes): (s: string)
    ensures |s| == 2 * |bs|
  {
    if bs == [] then "" else [HexDigit(bs[0] / 16), HexDigit(bs[0] % 16)] + Hex(bs[1..])
  }

  lemma HexDigitInjective(x: nat, y: nat)
    requires x < 16 && y < 16 && HexDigit(x) == HexDigit(y)
    ensures x == y
  {
    assert HexDigit(x) as int == (if x < 10 then 48 + x else 97 + (x - 10));
    assert HexDigit(y) as int == (if y < 10 then 48 + y else 97 + (y - 10));
  }

  /** Two lower-case digits a byte, the high one first. */
  lemma {:induction false} HexAt(bs: Bytes, i: nat)
    requires i < |bs|
    ensures Hex(bs)[2 * i] == "0123456789abcdef"[bs[i] / 16]
    ensures Hex(bs)[2 * i + 1] == "0123456789abcdef"[bs[i] % 16]
  {
    HexDigitAt(bs[i] / 16);
    HexDigitAt(bs[i] % 16);
    if i > 0 { HexAt(bs[1..], i - 1); }
  }

  lemma HexDigitAt(d: nat)
    requires d < 16
    ensures HexDigit(d) == "0123456789abcdef"[d]
  {
  }

  /** Comparing hexadecimal columns is comparing the bytes. */
  lemma {:induction false} HexInjective(a: Bytes, b: Bytes)
    requires Hex(a) == Hex(b)
    ensures a == b
  {
    if a != [] && b != [] {
      var x, y := a[0], b[0];
      assert HexDigit(x / 16) == Hex(a)[0] == Hex(b)[0] == HexDigit(y / 16);
      assert HexDigit(x % 16) == Hex(a)[1] == Hex(b)[1] == HexDigit(y % 16);
      HexDigitInjective(x / 16, y / 16);
      HexDigitInjective(x % 16, y % 16);
      assert Hex(a)[2..] == Hex(a[1..]) && Hex(b)[2..] == Hex(b[1..]);
      HexInjective(a[1..], b[1..]);
      assert a == [x] + a[1..] && b == [y] + b[1..];
    }
  }

  function EntityToDto(v: PoolVote, challengeId: uint64): Vote {
    Vote(challengeId, Hex(v.pubKey), v.signature, Hex(v.eventHash))
  }
}
