/** The proof-of-work tests of pkg/lxmf/stamper.go on a 256-bit digest. */
module Stamps {
  import opened Basics
  import opened Octets

  const STAMP_SIZE := 32
  const ROUNDS := 3000
  const ROUNDS_PN := 1000
  const DESTINATION_LENGTH := 16
  const SIGNATURE_LENGTH := 64

  /** Overhead of pkg/lxmf/constants.go: two hashes, the signature, the timestamp and the structure. */
  const OVERHEAD := 2 * DESTINATION_LENGTH + SIGNATURE_LENGTH + 8 + 8

  function Zeros(n: nat): (s: bytes)
    ensures |s| == n && forall i | 0 <= i < n :: s[i] == 0
  {
    if n == 0 then [] else Zeros(n - 1) + [0]
  }

  const ZERO32: bytes := Zeros(32)

  /** The output of SHA-256. */
  type Digest = d: bytes | |d| == 32 witness ZERO32

  /** SHA-256 and the expanded workblock (HKDF of section 2 of RFC 5869) as functions of their input. */
  datatype Crypto = Crypto(sha256: bytes -> Digest, workblock: (bytes, nat) -> bytes)

  // ---------------------------------------------------------------- the score

  /** The leading zero bits of one byte. */
  function ZerosOfByte(b: byte): nat {
    if b >= 128 then 0 else if b >= 64 then 1 else if b >= 32 then 2 else if b >= 16 then 3
    else if b >= 8 then 4 else if b >= 4 then 5 else if b >= 2 then 6 else if b >= 1 then 7 else 8
  }

  /** The leading zero bits of a byte string. */
  function LeadingZeros(d: bytes): nat {
    if d == [] then 0 else if d[0] == 0 then 8 + LeadingZeros(d[1..]) else ZerosOfByte(d[0])
  }

  /** b & (1 << bit) != 0 */
  predicate BitSet(b: byte, bit: nat) {
    (b / Pow2(bit)) % 2 == 1
  }

  lemma BitOfSmallByte(b: byte, bit: nat)
    requires bit < 8 && b < Pow2(bit + 1)
    ensures BitSet(b, bit) <==> b >= Pow2(bit)
  {
    SmallPowers();
    assert bit == 0 || bit == 1 || bit == 2 || bit == 3 || bit == 4 || bit == 5 || bit == 6 || bit == 7;
  }

  lemma SmallPowers()
    ensures Pow2(0) == 1 && Pow2(1) == 2 && Pow2(2) == 4 && Pow2(3) == 8 && Pow2(4) == 16
    ensures Pow2(5) == 32 && Pow2(6) == 64 && Pow2(7) == 128 && Pow2(8) == 256
  {}

  lemma ZerosOfByteIs(b: byte, v: nat)
    requires b > 0 && v <= 7 && Pow2(7 - v) <= b < Pow2(8 - v)
    ensures ZerosOfByte(b) == v
  {
    SmallPowers();
  }

  /** The inner loop of StampValue: the bits of a non-zero byte from the top. */
  method CountZeros(b: byte) returns (v: nat)
    requires b > 0
    ensures v == ZerosOfByte(b)
  {
    v := 0;
    SmallPowers();
    var bit := 7;
    while bit >= 0
      invariant -1 <= bit <= 7 && v == 7 - bit
      invariant b < Pow2(bit + 1)
    {
      BitOfSmallByte(b, bit);
      if BitSet(b, bit) {
        ZerosOfByteIs(b, v);
        return;
      }
      v := v + 1;
      bit := bit - 1;
    }
  }

  /** The loop of StampValue over the digest. */
  method Score(sum: bytes) returns (value: nat)
    ensures value == LeadingZeros(sum)
  {
    value := 0;
    for i := 0 to |sum|
      invariant LeadingZeros(sum) == value + LeadingZeros(sum[i..])
    {
      assert sum[i..][1..] == sum[i + 1..];
      if sum[i] == 0 {
        value := value + 8;
        continue;
      }
      var more := CountZeros(sum[i]);
      value := value + more;
      return;
    }
  }

  function Hashed(c: Crypto, workblock: bytes, stamp: bytes): Digest {
    c.sha256(workblock + stamp)
  }

  method StampValue(c: Crypto, workblock: bytes, stamp: bytes) returns (value: nat)
    ensures value == StampScore(c, workblock, stamp)
  {
    if stamp == [] {
      return 0;
    }
    value := Score(Hashed(c, workblock, stamp));
  }

  function StampScore(c: Crypto, workblock: bytes, stamp: bytes): nat {
    if stamp == [] then 0 else LeadingZeros(Hashed(c, workblock, stamp))
  }

  lemma ZerosOfByteBrackets(b: byte)
    ensures var v := ZerosOfByte(b); v <= 8 && b < Pow2(8 - v) && (v < 8 ==> b >= Pow2(7 - v))
  {
    SmallPowers();
  }

  /** A leading byte in [lo, hi) puts the whole number in [lo * w, hi * w). */
  lemma LeadingByteBrackets(b: nat, lo: nat, hi: nat, w: nat, rest: nat)
    requires lo <= b < hi && rest < w
    ensures lo * w <= b * w + rest < hi * w
  {
    MulMonotone(lo, b, w);
    MulMonotone(b + 1, hi, w);
    assert (b + 1) * w == b * w + w;
  }

  lemma LeadingByteDecides(d: bytes)
    requires d != [] && d[0] != 0
    ensures var v := ZerosOfByte(d[0]);
            v < 8 && Pow2(8 * |d| - v - 1) <= FromBE(d) < Pow2(8 * |d| - v)
  {
    var v, w := ZerosOfByte(d[0]), 8 * (|d| - 1);
    FromBEHead(d);
    ZerosOfByteBrackets(d[0]);
    FromBEBound(d[1..]);
    LeadingByteBrackets(d[0], Pow2(7 - v), Pow2(8 - v), Pow2(w), FromBE(d[1..]));
    ShiftedPowers(v, w, |d|);
  }

  lemma ShiftedPowers(v: nat, w: nat, n: nat)
    requires v < 8 && n > 0 && w == 8 * (n - 1)
    ensures Pow2(7 - v) * Pow2(w) == Pow2(8 * n - v - 1) && Pow2(8 - v) * Pow2(w) == Pow2(8 * n - v)
  {
    Pow2Add(8 - v, w);
    Pow2Add(7 - v, w);
  }

  /** The score is the place of the digest, read as a number, among the powers of two. */
  lemma {:induction false} LeadingZerosBracket(d: bytes)
    ensures var v := LeadingZeros(d);
            v <= 8 * |d| && FromBE(d) < Pow2(8 * |d| - v) && (v < 8 * |d| ==> FromBE(d) >= Pow2(8 * |d| - v - 1))
  {
    if d != [] {
      if d[0] == 0 {
        FromBEHead(d);
        LeadingZerosBracket(d[1..]);
      } else {
        LeadingByteDecides(d);
      }
    }
  }

  lemma MulMonotone(a: nat, b: nat, c: nat)
    requires a <= b
    ensures a * c <= b * c
  {
    assert b * c == a * c + (b - a) * c;
  }

  /** A score of at least `cost` is a digest below 2^(256 - cost). */
  lemma ScoreIsThreshold(d: Digest, cost: nat)
    requires cost <= 256
    ensures LeadingZeros(d) >= cost <==> FromBE(d) < Pow2(256 - cost)
  {
    LeadingZerosBracket(d);
    var v := LeadingZeros(d);
    if v >= cost {
      Pow2Monotone(256 - v, 256 - cost);
    } else {
      Pow2Monotone(256 - cost, 256 - v - 1);
    }
  }

  // ---------------------------------------------------------------- the target

  /** stampTargetBytes: thirty-two bytes with at most one bit set. */
  function TargetBytes(cost: int): Digest {
    if cost >= 256 then ZERO32
    else
      var pos := 256 - cost;
      var byteIdx := 31 - pos / 8;
      if byteIdx < 0 then ZERO32 else ZERO32[byteIdx := OneBit(pos % 8)]
  }

  /** The array write of stampTargetBytes. */
  method StampTargetBytes(cost: int) returns (target: array<byte>)
    ensures target[..] == TargetBytes(cost)
  {
    target := new byte[32](i => 0);
    assert target[..] == ZERO32;
    if cost >= 256 {
      return;
    }
    var pos := 256 - cost;
    var byteIdx := 31 - pos / 8;
    if byteIdx < 0 {
      return;
    }
    target[byteIdx] := OneBit(pos % 8);
    assert target[..] == ZERO32[byteIdx := OneBit(pos % 8)];
  }

  function OneBit(bit: nat): byte
    requires bit < 8
  {
    Pow2Monotone(bit, 7);
    assert Pow2(7) == 128;
    Pow2(bit)
  }

  lemma {:induction false} ZerosAreZero(s: bytes)
    requires forall i | 0 <= i < |s| :: s[i] == 0
    ensures FromBE(s) == 0
  {
    if s != [] {
      ZerosAreZero(s[..|s| - 1]);
    }
  }

  lemma {:induction false} LeadingZeroBytes(a: bytes, b: bytes)
    requires forall i | 0 <= i < |a| :: a[i] == 0
    ensures FromBE(a + b) == FromBE(b)
  {
    if a == [] {
      assert a + b == b;
    } else {
      LeadingZeroBytes(a[1..], b);
      FromBEHead(a + b);
      assert (a + b)[1..] == a[1..] + b;
    }
  }

  /** A string of zeros but for one byte. */
  lemma OneByteNumber(t: bytes, i: nat)
    requires i < |t| && forall j | 0 <= j < |t| && j != i :: t[j] == 0
    ensures FromBE(t) == t[i] * Pow2(8 * (|t| - i - 1))
  {
    var tail := t[i..];
    assert t == t[..i] + tail;
    LeadingZeroBytes(t[..i], tail);
    FromBEHead(tail);
    ZerosAreZero(tail[1..]);
  }

  /** For costs 1 to 255 the target is the number 2^(256 - cost); from 256 on it is zero. */
  lemma TargetIsPowerOfTwo(cost: int)
    requires cost >= 1
    ensures FromBE(TargetBytes(cost)) == if cost >= 256 then 0 else Pow2(256 - cost)
  {
    if cost >= 256 {
      ZerosAreZero(ZERO32);
    } else {
      var pos := 256 - cost;
      OneByteNumber(TargetBytes(cost), 31 - pos / 8);
      Pow2Add(pos % 8, 8 * (pos / 8));
      assert pos % 8 + 8 * (pos / 8) == pos;
    }
  }

  // ---------------------------------------------------------------- the verdict

  predicate Meets(d: Digest, cost: int) {
    LexLeq(d, TargetBytes(cost))
  }

  predicate StampValid(c: Crypto, stamp: bytes, cost: int, workblock: bytes) {
    cost <= 0 || (|stamp| == STAMP_SIZE && cost <= 256 && Meets(Hashed(c, workblock, stamp), cost))
  }

  lemma MeetsIsNumeric(d: Digest, cost: int)
    requires cost >= 1
    ensures Meets(d, cost) <==> FromBE(d) <= if cost >= 256 then 0 else Pow2(256 - cost)
  {
    LexIsNumeric(d, TargetBytes(cost));
    TargetIsPowerOfTwo(cost);
  }

  /**
   The proof of work in numbers: a valid stamp has 32 bytes, and what SHA-256 makes of the workblock with the
   stamp behind it is a number of at most 2^(256 - cost); at cost 256 it is zero.
   */
  lemma ValidIffSmallNumber(c: Crypto, stamp: bytes, cost: int, workblock: bytes)
    ensures StampValid(c, stamp, cost, workblock) <==>
              cost <= 0
              || (|stamp| == 32 && cost < 256 && FromBE(c.sha256(workblock + stamp)) <= Pow2(256 - cost))
              || (|stamp| == 32 && cost == 256 && FromBE(c.sha256(workblock + stamp)) == 0)
  {
    if cost >= 1 {
      MeetsIsNumeric(Hashed(c, workblock, stamp), cost);
    }
  }

  /** The value of a stamp in numbers: the place among the powers of two of that same number. */
  lemma ScoreOfNumber(c: Crypto, workblock: bytes, stamp: bytes)
    ensures stamp == [] ==> StampScore(c, workblock, stamp) == 0
    ensures stamp != [] ==>
              var v, n := StampScore(c, workblock, stamp), FromBE(c.sha256(workblock + stamp));
              v <= 256 && n < Pow2(256 - v) && (v < 256 ==> Pow2(255 - v) <= n)
  {
    LeadingZerosBracket(Hashed(c, workblock, stamp));
  }

  /**
   The two tests of one digest: the comparison accepts exactly the scores of at least `cost` and,
   below 256, one digest more, the target itself.
   */
  lemma ValidIsScoreOrTarget(c: Crypto, stamp: bytes, cost: int, workblock: bytes)
    requires |stamp| == STAMP_SIZE && 1 <= cost <= 256
    ensures StampValid(c, stamp, cost, workblock) <==>
              var d := Hashed(c, workblock, stamp);
              StampScore(c, workblock, stamp) >= cost || (cost < 256 && FromBE(d) == Pow2(256 - cost))
    ensures cost == 256 ==> (StampValid(c, stamp, cost, workblock) <==> FromBE(Hashed(c, workblock, stamp)) == 0)
  {
    var d := Hashed(c, workblock, stamp);
    MeetsIsNumeric(d, cost);
    ScoreIsThreshold(d, cost);
    assert Pow2(0) == 1;
  }

  /** A valid stamp scores at most one bit below its cost. */
  lemma ValidScoresNearCost(c: Crypto, stamp: bytes, cost: int, workblock: bytes)
    requires cost >= 1 && StampValid(c, stamp, cost, workblock)
    ensures StampScore(c, workblock, stamp) >= cost - 1
  {
    var d := Hashed(c, workblock, stamp);
    MeetsIsNumeric(d, cost);
    ScoreIsThreshold(d, cost - 1);
    if cost < 256 {
      Pow2Monotone(256 - cost, 257 - cost);
    } else {
      assert Pow2(1) == 2;
    }
  }

  /** The one-bit gap is real: the target itself is valid at a cost that its score misses by one. */
  lemma TargetScoresOneBelow(cost: int)
    requires 1 <= cost <= 255
    ensures Meets(TargetBytes(cost), cost) && LeadingZeros(TargetBytes(cost)) == cost - 1
  {
    var t := TargetBytes(cost);
    MeetsIsNumeric(t, cost);
    TargetIsPowerOfTwo(cost);
    ScoreIsThreshold(t, cost - 1);
    ScoreIsThreshold(t, cost);
    Pow2Monotone(256 - cost, 257 - cost);
  }

  /** A stamp valid at one cost is valid at every lower one. */
  lemma ValidAtLowerCosts(c: Crypto, stamp: bytes, cost: int, lower: int, workblock: bytes)
    requires StampValid(c, stamp, cost, workblock) && lower <= cost
    ensures StampValid(c, stamp, lower, workblock)
  {
    if lower >= 1 {
      var d := Hashed(c, workblock, stamp);
      MeetsIsNumeric(d, cost);
      MeetsIsNumeric(d, lower);
      if cost < 256 {
        Pow2Monotone(256 - cost, 256 - lower);
      }
    }
  }

  // ---------------------------------------------------------------- propagation stamps

  datatype PNCheck = PNRejected | PNAccepted(transientId: bytes, lxmData: bytes, value: nat, stamp: bytes)

  /** ValidatePNStamp: the last 32 bytes are a stamp for the hash of the rest. */
  function ValidatePNStamp(c: Crypto, transientData: bytes, cost: int): PNCheck {
    if |transientData| <= OVERHEAD + STAMP_SIZE then PNRejected
    else
      var cut := |transientData| - STAMP_SIZE;
      var lxm := transientData[..cut];
      var st := transientData[cut..];
      var tid := c.sha256(lxm);
      var wb := c.workblock(tid, ROUNDS_PN);
      if StampValid(c, st, cost, wb) then PNAccepted(tid, lxm, StampScore(c, wb, st), st) else PNRejected
  }

  /** A stamp found for the hash of `lxm` is accepted behind `lxm`, exactly above the minimum size. */
  lemma StampedEntryIsAcceptedIff(c: Crypto, lxm: bytes, stamp: bytes, cost: int)
    requires 1 <= cost <= 256 && |stamp| == STAMP_SIZE
    requires Meets(Hashed(c, c.workblock(c.sha256(lxm), ROUNDS_PN), stamp), cost)
    ensures |lxm| > OVERHEAD ==>
              ValidatePNStamp(c, lxm + stamp, cost) ==
              PNAccepted(c.sha256(lxm), lxm, StampScore(c, c.workblock(c.sha256(lxm), ROUNDS_PN), stamp), stamp)
    ensures |lxm| <= OVERHEAD ==> ValidatePNStamp(c, lxm + stamp, cost) == PNRejected
    ensures |lxm| > OVERHEAD ==> ValidatePNStamp(c, lxm + stamp, cost).value >= cost - 1
  {
    assert (lxm + stamp)[..|lxm|] == lxm;
    assert (lxm + stamp)[|lxm|..] == stamp;
    ValidScoresNearCost(c, stamp, cost, c.workblock(c.sha256(lxm), ROUNDS_PN));
  }

  /**
   Whatever entry a node is given, its last 32 bytes are taken as a stamp for the hash of the others, over
   1000 rounds; the entry is accepted exactly above 144 bytes and with a small enough number.
   */
  lemma EntryIsAcceptedIff(c: Crypto, data: bytes, cost: int)
    ensures ValidatePNStamp(c, data, cost).PNAccepted? <==>
              && |data| > 144
              && var lxm, st := data[..|data| - 32], data[|data| - 32..];
                 var n := FromBE(c.sha256(c.workblock(c.sha256(lxm), 1000) + st));
                 cost <= 0 || (cost < 256 && n <= Pow2(256 - cost)) || (cost == 256 && n == 0)
    ensures ValidatePNStamp(c, data, cost).PNAccepted? ==>
              var r := ValidatePNStamp(c, data, cost);
              && r.lxmData + r.stamp == data && |r.stamp| == 32 && r.transientId == c.sha256(r.lxmData)
              && r.value == StampScore(c, c.workblock(r.transientId, 1000), r.stamp)
  {
    if |data| > 144 {
      var cut := |data| - 32;
      assert data[..cut] + data[cut..] == data;
      ValidIffSmallNumber(c, data[cut..], cost, c.workblock(c.sha256(data[..cut]), 1000));
    }
  }
}
