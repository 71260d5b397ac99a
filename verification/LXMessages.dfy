/** The LXMessage object of pkg/lxmf/message.go: packing, stamping, stamp validation, propagation. */
module LXMessages {
  import opened Basics
  import opened MsgPack
  import opened MsgPackProofs
  import opened Octets
  import opened Stamps
  import opened Message
  import opened MessageProofs

  const TICKET_LENGTH := 16
  const STAMP_VALUE_TICKET := 0x100
  const LINK_PACKET_MAX_CONTENT := 431 - OVERHEAD

  datatype PackResult = Packed | BadHashLength | SignFailed | BadSignatureLength | NoStamp

  datatype PropagationResult =
    | Propagated | BadDestination | UnknownRecipient | NoSigner | PackFailed(error: PackResult)
    | NotPacked | EncryptFailed | StampFailed

  datatype DeliveryState = Generating | Sent
  datatype Representation = UnknownForm | Packet | Resource

  type Signer = bytes -> Option<bytes>

  /** The outcome of GenerateStamp for a message id, a cost and a number of rounds. */
  type StampFinder = (bytes, int, nat) -> Option<bytes>

  /** A found stamp has 32 bytes and meets the target; StampSearch proves this of every run of the search. */
  ghost predicate FindsStamps(c: Crypto, find: StampFinder) {
    forall id, cost, rounds | cost >= 1 ::
      match find(id, cost, rounds)
      case None => true
      case Some(s) => |s| == STAMP_SIZE && Meets(Hashed(c, c.workblock(id, rounds), s), cost)
  }

  /** What the world supplies to one attempt at propagation. */
  datatype Attempt = Attempt(known: bool, signer: Option<Signer>, encrypt: bytes -> Option<bytes>, find: StampFinder,
                             now: bytes, w: Value, w': Value)

  ghost predicate Sound(c: Crypto, fields: Option<map<byte, Field>>, d: Draft, a: Attempt) {
    && |a.now| == 8 && FindsStamps(c, a.find)
    && Emits(a.w, fields) && Emits(a.w', fields) && Sendable(d, a.w) && Sendable(d, a.w')
    && forall b :: a.encrypt(b).Some? ==> |a.encrypt(b).value| < UINT32_LIMIT - DESTINATION_LENGTH - STAMP_SIZE
  }

  /** A float64 equal to zero, of either sign. */
  predicate IsZero(bits: bytes) {
    bits == [0, 0, 0, 0, 0, 0, 0, 0] || bits == [0x80, 0, 0, 0, 0, 0, 0, 0]
  }

  // ---------------------------------------------------------------- outcomes of packing

  /** The message with its time set, as Pack leaves it. */
  function Dated(d: Draft, now: bytes): Draft {
    if IsZero(d.timestamp) then d.(timestamp := now) else d
  }

  /** A message that has no time yet gets the present one, and nothing else about it changes. */
  lemma DatedIs(d: Draft, now: bytes)
    ensures Dated(d, now).timestamp ==
            if d.timestamp == [0, 0, 0, 0, 0, 0, 0, 0] || d.timestamp == [128, 0, 0, 0, 0, 0, 0, 0] then now
            else d.timestamp
    ensures Dated(d, now).(timestamp := d.timestamp) == d
  {}

  predicate GoodHashes(d: Draft) {
    |d.dest| == DESTINATION_LENGTH && |d.source| == DESTINATION_LENGTH
  }

  /** What Pack returns for a dated message. */
  function PackOutcome(c: Crypto, sign: Signer, d: Draft, w: Value): PackResult
    requires Sendable(d, w)
  {
    if !GoodHashes(d) then BadHashLength
    else
      match sign(SignedPart(c, d, w))
      case None => SignFailed
      case Some(s) => if |s| == SIGNATURE_LENGTH then Packed else BadSignatureLength
  }

  /** What the search behind it makes of that. */
  function StampOutcome(c: Crypto, sign: Signer, find: StampFinder, cost: int, d: Draft, w: Value): PackResult
    requires Sendable(d, w)
  {
    var r := PackOutcome(c, sign, d, w);
    if r.Packed? && find(c.sha256(HashedPart(d, w)), cost, ROUNDS).None? then NoStamp else r
  }

  /** Packing succeeds exactly with two 16-byte addresses and a signature of 64 bytes over the signed part. */
  lemma PackSucceedsIff(c: Crypto, sign: Signer, d: Draft, w: Value)
    requires Sendable(d, w)
    ensures PackOutcome(c, sign, d, w) == Packed <==>
              && |d.dest| == 16 && |d.source| == 16
              && sign(SignedPart(c, d, w)).Some? && |sign(SignedPart(c, d, w)).value| == 64
  {}

  // ---------------------------------------------------------------- stamp validation

  /** truncatedHash */
  function TicketStamp(c: Crypto, ticket: bytes, messageId: bytes): bytes {
    c.sha256(ticket + messageId)[..DESTINATION_LENGTH]
  }

  predicate TicketMatches(c: Crypto, tickets: seq<bytes>, hash: bytes, stamp: bytes) {
    exists i | 0 <= i < |tickets| :: |tickets[i]| == TICKET_LENGTH && TicketStamp(c, tickets[i], hash) == stamp
  }

  /** The verdict of ValidateStamp on a message that has a hash. */
  predicate StampAccepted(c: Crypto, hash: bytes, stamp: bytes, cost: int, tickets: seq<bytes>) {
    stamp != [] && (TicketMatches(c, tickets, hash, stamp) || StampValid(c, stamp, cost, c.workblock(hash, ROUNDS)))
  }

  /** A ticket stamp is shorter than a work stamp, so the two never stand in for each other. */
  lemma TicketOrWork(c: Crypto, hash: bytes, stamp: bytes, cost: int, tickets: seq<bytes>)
    requires cost >= 1 && StampAccepted(c, hash, stamp, cost, tickets)
    ensures |stamp| == DESTINATION_LENGTH <==> TicketMatches(c, tickets, hash, stamp)
    ensures |stamp| == STAMP_SIZE <==> StampValid(c, stamp, cost, c.workblock(hash, ROUNDS))
  {}

  /**
   Acceptance in bytes and numbers: a 16-byte ticket whose hash with the message's begins with the stamp, or a
   number that 3000 rounds of work made small.
   */
  lemma AcceptedIff(c: Crypto, hash: bytes, stamp: bytes, cost: int, tickets: seq<bytes>)
    ensures StampAccepted(c, hash, stamp, cost, tickets) <==>
              && stamp != []
              && ((exists t | t in tickets :: |t| == 16 && c.sha256(t + hash)[..16] == stamp)
                  || cost <= 0
                  || (|stamp| == 32 && cost <= 256
                      && FromBE(c.sha256(c.workblock(hash, 3000) + stamp)) <=
                         (if cost == 256 then 0 else Pow2(256 - cost))))
  {
    ValidIffSmallNumber(c, stamp, cost, c.workblock(hash, 3000));
    if TicketMatches(c, tickets, hash, stamp) {
      var i :| 0 <= i < |tickets| && |tickets[i]| == TICKET_LENGTH && TicketStamp(c, tickets[i], hash) == stamp;
      assert tickets[i] in tickets;
    }
  }

  // ---------------------------------------------------------------- propagation

  /** What a propagation node stores: the destination in the clear, then the encrypted rest. */
  function Inner(packed: bytes, encrypted: bytes): bytes
    requires |packed| >= DESTINATION_LENGTH
  {
    packed[..DESTINATION_LENGTH] + encrypted
  }

  lemma OuterEncodable(now: bytes, entry: bytes)
    requires |now| == 8 && |entry| < UINT32_LIMIT
    ensures Encodable(Arr([F64(now), Arr([Bin(entry)])]))
  {
    var none: seq<Value> := [];
    EncodableCons(Bin(entry), none);
    assert [Bin(entry)] + none == [Bin(entry)];
    var list := Arr([Bin(entry)]);
    EncodableCons(list, none);
    EncodableCons(F64(now), [list] + none);
    assert [F64(now)] + ([list] + none) == [F64(now), list];
  }

  function Outer(now: bytes, entry: bytes): bytes
    requires |now| == 8 && |entry| < UINT32_LIMIT
  {
    OuterEncodable(now, entry);
    Enc(Arr([F64(now), Arr([Bin(entry)])]))
  }

  lemma LooseEntry(entry: bytes)
    ensures LoosenedAll([Bin(entry)]) == [Str(entry)]
    ensures AllFit([Bin(entry)], MAX_MAP_DEPTH, MAX_ARRAY_DEPTH - 2)
  {
    var es := [Bin(entry)];
    assert es[0] == Bin(entry) && es[1..] == [];
    assert LoosenedAll(es) == [Loosened(es[0], true)] + LoosenedAll(es[1..]);
  }

  lemma LooseList(entry: bytes)
    ensures LoosenedAll([Arr([Bin(entry)])]) == [Arr([Str(entry)])]
    ensures AllFit([Arr([Bin(entry)])], MAX_MAP_DEPTH, MAX_ARRAY_DEPTH - 1)
  {
    LooseEntry(entry);
    var es := [Arr([Bin(entry)])];
    assert es[0] == Arr([Bin(entry)]) && es[1..] == [];
    FitsArr([Bin(entry)], MAX_MAP_DEPTH, MAX_ARRAY_DEPTH - 1);
    assert LoosenedAll(es) == [Loosened(es[0], true)] + LoosenedAll(es[1..]);
  }

  lemma LooseUpload(now: bytes, entry: bytes)
    ensures var v := Arr([F64(now), Arr([Bin(entry)])]);
            && Loosened(v, false) == Arr([F64(now), Arr([Str(entry)])])
            && Fits(v, MAX_MAP_DEPTH, MAX_ARRAY_DEPTH)
  {
    LooseList(entry);
    var es := [F64(now), Arr([Bin(entry)])];
    assert es[0] == F64(now) && es[1..] == [Arr([Bin(entry)])];
    FitsArr(es, MAX_MAP_DEPTH, MAX_ARRAY_DEPTH);
    assert AllFit(es, MAX_MAP_DEPTH, MAX_ARRAY_DEPTH - 1);
    assert LoosenedAll(es) == [Loosened(es[0], true)] + LoosenedAll(es[1..]);
  }

  /** What a node reads from an upload: the time and one entry, which is a string inside the list. */
  lemma UploadIsRead(now: bytes, entry: bytes)
    requires |now| == 8 && |entry| < UINT32_LIMIT
    ensures Decode(Outer(now, entry), 0, 0, false) == Ok(Arr([F64(now), Arr([Str(entry)])]), [])
  {
    OuterEncodable(now, entry);
    var v := Arr([F64(now), Arr([Bin(entry)])]);
    DecodeEnc(v, [], 0, 0, false);
    assert Enc(v) + [] == Enc(v);
    LooseUpload(now, entry);
  }

  /** The upload holds the encrypted message, behind it a stamp for its hash when the node asks for one. */
  ghost predicate Carries(c: Crypto, a: Attempt, cost: int, packed: bytes, stamp: bytes, id: bytes, upload: bytes) {
    && |packed| >= DESTINATION_LENGTH && |a.now| == 8
    && a.encrypt(packed[DESTINATION_LENGTH..]).Some?
    && var inner := Inner(packed, a.encrypt(packed[DESTINATION_LENGTH..]).value);
       var entry := if cost > 0 then inner + stamp else inner;
       && |entry| < UINT32_LIMIT && upload == Outer(a.now, entry) && id == c.sha256(inner)
       && (cost > 0 ==> |stamp| == STAMP_SIZE && Meets(Hashed(c, c.workblock(id, ROUNDS_PN), stamp), cost))
  }

  /** What PackPropagated returns. */
  function PropagationOutcome(c: Crypto, a: Attempt, cost: int, packed: bytes): PropagationResult
    requires packed == [] || |packed| >= DESTINATION_LENGTH
  {
    if packed == [] then NotPacked
    else
      match a.encrypt(packed[DESTINATION_LENGTH..])
      case None => EncryptFailed
      case Some(e) =>
        if cost > 0 && a.find(c.sha256(Inner(packed, e)), cost, ROUNDS_PN).None? then StampFailed else Propagated
  }

  /** packForPropagation gets as far as packing a message that is not packed yet. */
  predicate ReachesPack(a: Attempt, d: Draft, was: bytes) {
    was == [] && |d.dest| == DESTINATION_LENGTH && a.known && a.signer.Some?
  }

  /** The packed bytes behind packForPropagation on the message `d` that was packed as `was`. */
  function PackedAfter(c: Crypto, a: Attempt, d: Draft, was: bytes): bytes
    requires |a.now| == 8 && Sendable(d, a.w) && Sendable(d, a.w')
  {
    var e := Dated(d, a.now);
    if ReachesPack(a, d, was) && PackOutcome(c, a.signer.value, e, a.w).Packed? then
      PackedBytes(e, a.signer.value(SignedPart(c, e, a.w)).value, a.w, a.w')
    else was
  }

  /** The message behind it: only its time can be set. */
  function DraftAfter(a: Attempt, d: Draft, was: bytes): Draft {
    if ReachesPack(a, d, was) && GoodHashes(d) then Dated(d, a.now) else d
  }

  /** What packForPropagation returns. */
  function AttemptOutcome(c: Crypto, a: Attempt, cost: int, d: Draft, was: bytes): PropagationResult
    requires |a.now| == 8 && Sendable(d, a.w) && Sendable(d, a.w') && (was == [] || |was| >= DESTINATION_LENGTH)
  {
    if |d.dest| != DESTINATION_LENGTH then BadDestination
    else if !a.known then UnknownRecipient
    else if a.signer.None? then NoSigner
    else
      var p := PackOutcome(c, a.signer.value, Dated(d, a.now), a.w);
      if was == [] && p != Packed then PackFailed(p)
      else PropagationOutcome(c, a, cost, PackedAfter(c, a, d, was))
  }

  /**
   An attempt succeeds exactly when the recipient is known, there is a signer, the message is or can be packed,
   the part behind the address can be encrypted and a stamp is found if the node asks for one.
   */
  lemma AttemptSucceedsIff(c: Crypto, a: Attempt, cost: int, d: Draft, was: bytes)
    requires |a.now| == 8 && Sendable(d, a.w) && Sendable(d, a.w') && (was == [] || |was| >= DESTINATION_LENGTH)
    ensures AttemptOutcome(c, a, cost, d, was) == Propagated <==>
              && |d.dest| == 16 && a.known && a.signer.Some?
              && (was != [] || PackOutcome(c, a.signer.value, Dated(d, a.now), a.w) == Packed)
              && var packed := PackedAfter(c, a, d, was);
                 && |packed| >= 16 && a.encrypt(packed[16..]).Some?
                 && (cost > 0 ==> a.find(c.sha256(packed[..16] + a.encrypt(packed[16..]).value), cost, 1000).Some?)
  {}

  /** The upload in bytes: the time and one entry, the address in the clear, the encrypted rest and the stamp. */
  lemma CarriedInBytes(c: Crypto, a: Attempt, cost: int, packed: bytes, stamp: bytes, id: bytes, upload: bytes)
    requires Carries(c, a, cost, packed, stamp, id, upload)
    ensures |packed| >= 16 && a.encrypt(packed[16..]).Some?
    ensures var inner := packed[..16] + a.encrypt(packed[16..]).value;
            var v := Arr([F64(a.now), Arr([Bin(inner + if cost > 0 then stamp else [])])]);
            && Encodable(v) && upload == Enc(v) && id == c.sha256(inner)
            && (cost > 0 ==>
                  |stamp| == 32
                  && FromBE(c.sha256(c.workblock(id, 1000) + stamp)) <= if cost >= 256 then 0 else Pow2(256 - cost))
  {
    var inner := packed[..16] + a.encrypt(packed[16..]).value;
    var entry := if cost > 0 then inner + stamp else inner;
    assert entry == inner + if cost > 0 then stamp else [];
    OuterEncodable(a.now, entry);
    if cost > 0 {
      MeetsIsNumeric(Hashed(c, c.workblock(id, 1000), stamp), cost);
    }
  }

  /** A message that is packed already is not packed again, whatever the attempt brings. */
  lemma PackedOnce(c: Crypto, a: Attempt, d: Draft, was: bytes)
    requires |a.now| == 8 && Sendable(d, a.w) && Sendable(d, a.w')
    ensures was != [] ==> PackedAfter(c, a, d, was) == was && DraftAfter(a, d, was) == d
    ensures was == [] && PackedAfter(c, a, d, was) != [] ==>
              && a.known && a.signer.Some? && PackOutcome(c, a.signer.value, Dated(d, a.now), a.w) == Packed
              && PackedAfter(c, a, d, was) ==
                 PackedBytes(Dated(d, a.now), a.signer.value(SignedPart(c, Dated(d, a.now), a.w)).value, a.w, a.w')
  {}

  function FormOf(upload: bytes): Representation {
    if |upload| > LINK_PACKET_MAX_CONTENT then Resource else Packet
  }

  lemma SoundAtAnyTime(c: Crypto, fields: Option<map<byte, Field>>, d: Draft, t: bytes, a: Attempt)
    requires Sound(c, fields, d, a) && |t| == 8
    ensures Sound(c, fields, d.(timestamp := t), a)
  {}

  /**
   What a receiver finds in a message `s` stamped for walk `w1`, hashed for walk `w2` and sent with walk `w3`:
   what was signed iff `w3 == w2`, and an acceptable stamp if `w3 == w1`.
   */
  ghost predicate Arrives(c: Crypto, data: bytes, s: Draft, hash: bytes, cost: int, w1: Value, w2: Value, w3: Value) {
    var got := Unpack(c, data);
    && got.Some? && got.value.stamp == s.stamp && Sendable(s, w2)
    && (got.value.signedPart == SignedPart(c, s, w2) <==> w3 == w2)
    && (w3 == w2 ==> got.value.hash == hash)
    && (w3 == w1 ==> StampAccepted(c, got.value.hash, s.stamp, cost, []))
  }

  /** What a receiver of a stamped message finds; `d` is the message before it was stamped. */
  lemma StampedPackIsAccepted(c: Crypto, d: Draft, stamp: bytes, w1: Value, w2: Value, w3: Value,
                              fields: Option<map<byte, Field>>, signature: bytes, cost: int)
    requires |stamp| == STAMP_SIZE && 1 <= cost <= 256
    requires |d.dest| == DESTINATION_LENGTH && |d.source| == DESTINATION_LENGTH && |signature| == SIGNATURE_LENGTH
    requires Sendable(d, w1) && Sendable(d, w2) && Sendable(d, w3)
    requires Emits(w1, fields) && Emits(w2, fields) && Emits(w3, fields) && Fits(w3, MAX_MAP_DEPTH, MAX_ARRAY_DEPTH)
    requires Meets(Hashed(c, c.workblock(c.sha256(HashedPart(d, w1)), ROUNDS), stamp), cost)
    ensures var s := d.(stamp := stamp);
            Arrives(c, PackedBytes(s, signature, w2, w3), s, c.sha256(HashedPart(s, w2)), cost, w1, w2, w3)
  {
    StampedSendValidates(c, d, w1, w2, w3, fields, signature, stamp, cost);
    StampLeavesHashedPart(d, stamp, w2);
  }

  class LXMessage {
    var destinationHash: bytes
    var sourceHash: bytes
    var title: Option<bytes>
    var content: Option<bytes>
    var fields: Option<map<byte, Field>>
    var timestamp: bytes
    var stamp: bytes
    var hash: bytes
    var signature: bytes
    var signatureValidated: bool
    var packed: bytes
    var stampValue: nat
    var stampValid: bool
    var transientId: bytes
    var propagationStamp: bytes
    var propagationPacked: bytes
    var propagated: bool
    var representation: Representation
    var state: DeliveryState

    constructor (dest: bytes, source: bytes, title: Option<bytes>, content: Option<bytes>,
                 fields: Option<map<byte, Field>>)
      ensures View() == Draft(dest, source, title, content, [0, 0, 0, 0, 0, 0, 0, 0], [])
      ensures this.fields == fields && hash == [] && packed == [] && !stampValid && Valid()
    {
      destinationHash, sourceHash := dest, source;
      this.title, this.content, this.fields := title, content, fields;
      timestamp, stamp, hash := [0, 0, 0, 0, 0, 0, 0, 0], [], [];
      signature, signatureValidated, packed := [], false, [];
      stampValue, stampValid := 0, false;
      transientId, propagationStamp, propagationPacked := [], [], [];
      propagated, representation, state := false, UnknownForm, Generating;
    }

    function View(): Draft
      reads this
    {
      Draft(destinationHash, sourceHash, title, content, timestamp, stamp)
    }

    /** A packed message starts with its two hashes and its signature. */
    predicate Valid()
      reads this
    {
      |timestamp| == 8 && (packed == [] || |packed| >= 2 * DESTINATION_LENGTH + SIGNATURE_LENGTH)
    }

    /**
     Pack. The fields are walked once for the hash (`w`) and, when there is a stamp, once more for the
     wire (`w'`); nothing ties the two walks to one order.
     */
    method Pack(c: Crypto, sign: Signer, now: bytes, w: Value, w': Value) returns (r: PackResult)
      requires Valid() && |now| == 8
      requires Emits(w, fields) && Emits(w', fields) && Sendable(View(), w) && Sendable(View(), w')
      modifies this`timestamp, this`hash, this`signature, this`signatureValidated, this`packed
      ensures Valid() && r != NoStamp
      ensures r == PackOutcome(c, sign, Dated(old(View()), now), w)
      ensures View() == if r.BadHashLength? then old(View()) else Dated(old(View()), now)
      ensures hash == if r.BadHashLength? then old(hash) else c.sha256(HashedPart(View(), w))
      ensures r.Packed? ==>
                && sign(SignedPart(c, View(), w)) == Some(signature) && |signature| == SIGNATURE_LENGTH
                && packed == PackedBytes(View(), signature, w, w') && signatureValidated && packed != []
      ensures !r.Packed? ==> packed == old(packed) && signature == old(signature)
    {
      if |destinationHash| != DESTINATION_LENGTH || |sourceHash| != DESTINATION_LENGTH {
        return BadHashLength;
      }
      if IsZero(timestamp) {
        timestamp := now;
      }
      var hashedPayload := PayloadBytes(View(), w, false);
      var hashedPart := destinationHash + sourceHash + hashedPayload;
      hash := c.sha256(hashedPart);
      var signed := sign(hashedPart + hash);
      if signed.None? {
        return SignFailed;
      }
      if |signed.value| != SIGNATURE_LENGTH {
        return BadSignatureLength;
      }
      Seal(signed.value, hashedPayload, w, w');
      return Packed;
    }

    /** The last part of Pack: the signature, and the payload with the stamp if there is one. */
    method Seal(signed: bytes, hashedPayload: bytes, ghost w: Value, w': Value)
      requires |destinationHash| == DESTINATION_LENGTH && |sourceHash| == DESTINATION_LENGTH
      requires |signed| == SIGNATURE_LENGTH && |timestamp| == 8
      requires Sendable(View(), w) && Sendable(View(), w') && hashedPayload == PayloadBytes(View(), w, false)
      modifies this`signature, this`signatureValidated, this`packed
      ensures Valid() && signature == signed && signatureValidated && packed != []
      ensures packed == PackedBytes(View(), signature, w, w')
    {
      signature := signed;
      signatureValidated := true;
      var packedPayload := hashedPayload;
      if stamp != [] {
        packedPayload := PayloadBytes(View(), w', true);
      }
      packed := destinationHash + sourceHash + signature + packedPayload;
    }

    /** ValidateStamp: a ticket first, then the proof of work. None stands for the missing hash. */
    method ValidateStamp(c: Crypto, cost: int, tickets: seq<bytes>) returns (r: Option<bool>)
      modifies this`stampValue, this`stampValid
      ensures hash == [] ==> r == None && stampValid == old(stampValid) && stampValue == old(stampValue)
      ensures hash != [] ==> r == Some(StampAccepted(c, hash, stamp, cost, tickets)) && stampValid == r.value
      ensures hash != [] && stampValid ==>
                stampValue == if TicketMatches(c, tickets, hash, stamp) then 256
                              else StampScore(c, c.workblock(hash, ROUNDS), stamp)
      ensures !stampValid ==> stampValue == old(stampValue)
    {
      if hash == [] {
        return None;
      }
      if stamp != [] {
        for i := 0 to |tickets|
          invariant stampValid == old(stampValid) && stampValue == old(stampValue)
          invariant !TicketMatches(c, tickets[..i], hash, stamp)
        {
          var ticket := tickets[i];
          if |ticket| == TICKET_LENGTH && TicketStamp(c, ticket, hash) == stamp {
            stampValue := STAMP_VALUE_TICKET;
            stampValid := true;
            assert TicketMatches(c, tickets, hash, stamp);
            return Some(true);
          }
          assert tickets[..i + 1] == tickets[..i] + [ticket];
        }
        assert tickets[..|tickets|] == tickets;
      }
      if stamp == [] {
        stampValid := false;
        return Some(false);
      }
      var wb := c.workblock(hash, ROUNDS);
      if !StampValid(c, stamp, cost, wb) {
        stampValid := false;
        return Some(false);
      }
      stampValue := StampValue(c, wb, stamp);
      stampValid := true;
      return Some(true);
    }

    /** Notes a found stamp. */
    method SetStamp(c: Crypto, found: bytes)
      requires Valid()
      modifies this`stamp, this`stampValue, this`stampValid
      ensures Valid() && View() == old(View()).(stamp := found) && stampValid
      ensures stampValue == StampScore(c, c.workblock(hash, ROUNDS), found)
    {
      stamp := found;
      stampValue := StampValue(c, c.workblock(hash, ROUNDS), stamp);
      stampValid := true;
    }

    /** The first half of SendStamped: pack to get the hash, then search a stamp for it. */
    method FindStamp(c: Crypto, sign: Signer, find: StampFinder, now: bytes, cost: int, w: Value)
      returns (r: PackResult)
      requires Valid() && |now| == 8 && cost >= 1 && FindsStamps(c, find) && Emits(w, fields) && Sendable(View(), w)
      modifies this`timestamp, this`hash, this`signature, this`signatureValidated, this`packed
      modifies this`stamp, this`stampValue, this`stampValid
      ensures Valid() && r == StampOutcome(c, sign, find, cost, Dated(old(View()), now), w)
      ensures !r.Packed? ==> stamp == old(stamp) && stampValid == old(stampValid) && stampValue == old(stampValue)
      ensures r.Packed? ==>
                && View() == Dated(old(View()), now).(stamp := stamp) && stampValid && |stamp| == STAMP_SIZE
                && hash == c.sha256(HashedPart(Dated(old(View()), now), w))
                && find(hash, cost, ROUNDS) == Some(stamp)
                && stampValue == StampScore(c, c.workblock(hash, ROUNDS), stamp)
    {
      r := Pack(c, sign, now, w, w);
      if r != Packed {
        return;
      }
      var found := find(hash, cost, ROUNDS);
      if found.None? {
        return NoStamp;
      }
      SetStamp(c, found.value);
    }

    /**
     SendStamped up to the packed message it sends: with a positive cost it packs to get the hash (walk
     `w1`), searches a stamp for it and packs again (walks `w2` and `w3`). A receiver then has the hash
     that the stamp was found for, and accepts the stamp, if the last walk takes the order of the first.
     */
    method PackStamped(c: Crypto, sign: Signer, find: StampFinder, now: bytes, cost: int,
                       w1: Value, w2: Value, w3: Value)
      returns (r: PackResult)
      requires Valid() && |now| == 8 && FindsStamps(c, find)
      requires Emits(w1, fields) && Sendable(View(), w1)
      requires Emits(w2, fields) && Sendable(View(), w2)
      requires Emits(w3, fields) && Sendable(View(), w3)
      modifies this`timestamp, this`hash, this`signature, this`signatureValidated, this`packed
      modifies this`stamp, this`stampValue, this`stampValid
      ensures Valid()
      ensures var d := Dated(old(View()), now);
              r == if cost <= 0 || StampOutcome(c, sign, find, cost, d, w1).Packed? then PackOutcome(c, sign, d, w2)
                   else StampOutcome(c, sign, find, cost, d, w1)
      ensures r.Packed? && 1 <= cost <= 256 && Fits(w3, MAX_MAP_DEPTH, MAX_ARRAY_DEPTH) ==>
                Arrives(c, packed, View(), hash, cost, w1, w2, w3) && stampValid
    {
      if cost <= 0 {
        r := Pack(c, sign, now, w2, w3);
        return;
      }
      ghost var d := Dated(View(), now);
      r := FindStamp(c, sign, find, now, cost, w1);
      if r == Packed {
        r := PackAgain(c, sign, now, cost, w1, w2, w3, d);
      }
    }

    /** The second packing; `d` is the message that the stamp was found for. */
    method PackAgain(c: Crypto, sign: Signer, now: bytes, ghost cost: int, ghost w1: Value, w2: Value, w3: Value,
                     ghost d: Draft)
      returns (r: PackResult)
      requires Valid() && |now| == 8 && GoodHashes(d) && |stamp| == STAMP_SIZE && stampValid
      requires View() == d.(stamp := stamp) && Dated(d, now) == d
      requires Sendable(d, w1) && Sendable(d, w2) && Sendable(d, w3)
      requires Emits(w1, fields) && Emits(w2, fields) && Emits(w3, fields)
      requires cost >= 1 && Meets(Hashed(c, c.workblock(c.sha256(HashedPart(d, w1)), ROUNDS), stamp), cost)
      modifies this`timestamp, this`hash, this`signature, this`signatureValidated, this`packed
      ensures Valid() && r == PackOutcome(c, sign, d, w2)
      ensures r.Packed? && cost <= 256 && Fits(w3, MAX_MAP_DEPTH, MAX_ARRAY_DEPTH) ==>
                Arrives(c, packed, View(), hash, cost, w1, w2, w3)
    {
      r := Pack(c, sign, now, w2, w3);
      assert View() == d.(stamp := stamp);
      StampLeavesHashedPart(d, stamp, w2);
      if r == Packed && cost <= 256 && Fits(w3, MAX_MAP_DEPTH, MAX_ARRAY_DEPTH) {
        StampedPackIsAccepted(c, d, stamp, w1, w2, w3, fields, signature, cost);
      }
    }

    /** PackPropagated. */
    method PackPropagated(c: Crypto, a: Attempt, cost: int) returns (r: PropagationResult)
      requires Valid() && Sound(c, fields, View(), a)
      modifies this`transientId, this`propagationStamp, this`propagationPacked, this`propagated, this`representation
      ensures r == PropagationOutcome(c, a, cost, packed)
      ensures r.Propagated? ==>
                && Carries(c, a, cost, packed, propagationStamp, transientId, propagationPacked)
                && propagated && representation == FormOf(propagationPacked)
      ensures !r.Propagated? ==> propagationPacked == old(propagationPacked)
    {
      if packed == [] {
        return NotPacked;
      }
      var encrypted := a.encrypt(packed[DESTINATION_LENGTH..]);
      if encrypted.None? {
        return EncryptFailed;
      }
      var lxmfData := packed[..DESTINATION_LENGTH] + encrypted.value;
      transientId := c.sha256(lxmfData);
      if cost > 0 {
        var found := a.find(transientId, cost, ROUNDS_PN);
        if found.None? {
          return StampFailed;
        }
        propagationStamp := found.value;
        lxmfData := lxmfData + propagationStamp;
      }
      propagationPacked := Outer(a.now, lxmfData);
      propagated, representation := true, Packet;
      if |propagationPacked| > LINK_PACKET_MAX_CONTENT {
        representation := Resource;
      }
      return Propagated;
    }

    /** Packs a message that is not packed yet. */
    method EnsurePacked(c: Crypto, a: Attempt, sign: Signer) returns (r: PackResult)
      requires Valid() && Sound(c, fields, View(), a) && a.known && a.signer == Some(sign)
      requires |destinationHash| == DESTINATION_LENGTH
      modifies this`timestamp, this`hash, this`signature, this`signatureValidated, this`packed
      ensures Valid() && Sound(c, fields, View(), a)
      ensures r == if old(packed) != [] then Packed else PackOutcome(c, sign, Dated(old(View()), a.now), a.w)
      ensures packed == PackedAfter(c, a, old(View()), old(packed)) && View() == DraftAfter(a, old(View()), old(packed))
      ensures hash == if old(packed) != [] || r.BadHashLength? then old(hash) else c.sha256(HashedPart(View(), a.w))
      ensures r.Packed? <==> packed != []
    {
      if packed != [] {
        return Packed;
      }
      r := Pack(c, sign, a.now, a.w, a.w');
      SoundAtAnyTime(c, fields, old(View()), timestamp, a);
    }

    /** packForPropagation: the message is packed once, the propagation form is made anew for each node. */
    method PackForPropagation(c: Crypto, a: Attempt, cost: int) returns (r: PropagationResult)
      requires Valid() && Sound(c, fields, View(), a)
      modifies this`timestamp, this`hash, this`signature, this`signatureValidated, this`packed
      modifies this`transientId, this`propagationStamp, this`propagationPacked, this`propagated, this`representation
      ensures Valid() && r == AttemptOutcome(c, a, cost, old(View()), old(packed))
      ensures packed == PackedAfter(c, a, old(View()), old(packed)) && View() == DraftAfter(a, old(View()), old(packed))
      ensures old(packed) != [] ==> hash == old(hash)
      ensures r.PackFailed? ==> packed == []
      ensures r.Propagated? ==>
                && Carries(c, a, cost, packed, propagationStamp, transientId, propagationPacked)
                && propagated && representation == FormOf(propagationPacked) && packed != []
    {
      if |destinationHash| != DESTINATION_LENGTH {
        return BadDestination;
      }
      if !a.known {
        return UnknownRecipient;
      }
      if a.signer.None? {
        return NoSigner;
      }
      r := PackAndPropagate(c, a, a.signer.value, cost);
    }

    /** packForPropagation behind its checks. */
    method PackAndPropagate(c: Crypto, a: Attempt, sign: Signer, cost: int) returns (r: PropagationResult)
      requires Valid() && Sound(c, fields, View(), a) && a.known && a.signer == Some(sign)
      requires |destinationHash| == DESTINATION_LENGTH
      modifies this`timestamp, this`hash, this`signature, this`signatureValidated, this`packed
      modifies this`transientId, this`propagationStamp, this`propagationPacked, this`propagated, this`representation
      ensures Valid() && r == AttemptOutcome(c, a, cost, old(View()), old(packed))
      ensures packed == PackedAfter(c, a, old(View()), old(packed)) && View() == DraftAfter(a, old(View()), old(packed))
      ensures old(packed) != [] ==> hash == old(hash)
      ensures r.PackFailed? ==> packed == []
      ensures r.Propagated? ==>
                && Carries(c, a, cost, packed, propagationStamp, transientId, propagationPacked)
                && propagated && representation == FormOf(propagationPacked) && packed != []
    {
      var p := EnsurePacked(c, a, sign);
      if p != Packed {
        return PackFailed(p);
      }
      propagationStamp, propagationPacked, transientId := [], [], [];
      r := PackPropagated(c, a, cost);
    }
  }
}
