/** LXMessage of pkg/lxmf/message.go: packing, unpacking and stamp validation. */
module Message {
  import opened Basics
  import opened MsgPack
  import opened MsgPackProofs
  import opened Payload
  import opened Stamps

  // ---------------------------------------------------------------- fields

  /** A value of the Fields map: Go maps have no order, and their keys are single bytes. */
  datatype Field = Leaf(v: Value) | List(items: seq<Field>) | Dict(m: map<byte, Field>)

  /** asByteKey */
  function AsByteKey(v: Value): Option<byte> {
    if v.Int? && 0 <= v.n <= 255 then Some(v.n) else None
  }

  /** normalizeFieldValue */
  function Normalize(v: Value): Option<Field>
    decreases v, 0
  {
    match v
    case Map(es) => (match AsFields(es) case None => None case Some(m) => Some(Dict(m)))
    case Arr(es) => (match NormalizeAll(es) case None => None case Some(fs) => Some(List(fs)))
    case _ => Some(Leaf(v))
  }

  function NormalizeAll(es: seq<Value>): (r: Option<seq<Field>>)
    ensures r.Some? ==> |r.value| == |es|
    decreases es, 1
  {
    if es == [] then Some([])
    else
      match Normalize(es[0])
      case None => None
      case Some(f) => match NormalizeAll(es[1..]) case None => None case Some(fs) => Some([f] + fs)
  }

  function AsField(e: Entry): Option<(byte, Field)>
    decreases e, 1
  {
    match AsByteKey(e.key)
    case None => None
    case Some(k) => match Normalize(e.val) case None => None case Some(f) => Some((k, f))
  }

  /** asFields: a later entry overrides an earlier one with the same key. */
  function AsFields(es: seq<Entry>): Option<map<byte, Field>>
    decreases es, 2
  {
    if es == [] then Some(map[])
    else
      match AsField(es[0])
      case None => None
      case Some((k, f)) => match AsFields(es[1..]) case None => None case Some(m) => Some(map[k := f] + m)
  }

  predicate HasKey(k: Value, es: seq<Entry>) {
    exists i | 0 <= i < |es| :: es[i].key == k
  }

  /** Every map in the value visits each of its keys once. */
  predicate Once(v: Value)
    decreases v, 0
  {
    match v
    case Map(es) => OncePairs(es)
    case Arr(es) => OnceAll(es)
    case _ => true
  }

  predicate OnceAll(es: seq<Value>)
    decreases es, 1
  {
    es == [] || (Once(es[0]) && OnceAll(es[1..]))
  }

  predicate OnceEntry(e: Entry)
    decreases e, 1
  {
    Once(e.key) && Once(e.val)
  }

  predicate OncePairs(es: seq<Entry>)
    decreases es, 2
  {
    es == [] || (OnceEntry(es[0]) && !HasKey(es[0].key, es[1..]) && OncePairs(es[1..]))
  }

  /** `w` is what one walk over the Fields map puts on the wire, in whatever order the walk takes. */
  predicate Emits(w: Value, fields: Option<map<byte, Field>>) {
    match fields
    case None => w == Nil
    case Some(m) => w.Map? && Once(w) && Normalize(w) == Some(Dict(m))
  }

  // ---------------------------------------------------------------- the bytes of a message

  datatype Draft = Draft(dest: bytes, source: bytes, title: Option<bytes>, content: Option<bytes>,
                         timestamp: bytes, stamp: bytes)

  function BytesValue(b: Option<bytes>): Value {
    match b case None => Nil case Some(s) => Bin(s)
  }

  function BytesOf(b: Option<bytes>): bytes {
    match b case None => [] case Some(s) => s
  }

  /** payloadList */
  function Elements(d: Draft, w: Value, includeStamp: bool): seq<Value> {
    [F64(d.timestamp), BytesValue(d.title), BytesValue(d.content), w]
    + (if includeStamp && d.stamp != [] then [Bin(d.stamp)] else [])
  }

  predicate Sized32(b: Option<bytes>) {
    |BytesOf(b)| < UINT32_LIMIT
  }

  /** Sizes that fit the length fields of the format. */
  predicate Sendable(d: Draft, w: Value) {
    |d.timestamp| == 8 && Sized32(d.title) && Sized32(d.content) && |d.stamp| < UINT32_LIMIT && Encodable(w)
  }

  lemma EncodableCons(v: Value, es: seq<Value>)
    requires Encodable(v) && EncodableAll(es)
    ensures EncodableAll([v] + es)
  {
    assert ([v] + es)[1..] == es;
  }

  lemma ElementsEncodable(d: Draft, w: Value, includeStamp: bool)
    requires Sendable(d, w)
    ensures EncodableAll(Elements(d, w, includeStamp))
  {
    var none: seq<Value> := [];
    EncodableCons(Bin(d.stamp), none);
    var t := if includeStamp && d.stamp != [] then [Bin(d.stamp)] + none else none;
    EncodableCons(w, t);
    EncodableCons(BytesValue(d.content), [w] + t);
    EncodableCons(BytesValue(d.title), [BytesValue(d.content)] + ([w] + t));
    EncodableCons(F64(d.timestamp), [BytesValue(d.title)] + ([BytesValue(d.content)] + ([w] + t)));
    assert Elements(d, w, includeStamp) ==
           [F64(d.timestamp)] + ([BytesValue(d.title)] + ([BytesValue(d.content)] + ([w] + t)));
  }

  function PayloadBytes(d: Draft, w: Value, includeStamp: bool): bytes
    requires Sendable(d, w)
  {
    ElementsEncodable(d, w, includeStamp);
    Enc(Arr(Elements(d, w, includeStamp)))
  }

  function HashedPart(d: Draft, w: Value): bytes
    requires Sendable(d, w)
  {
    d.dest + d.source + PayloadBytes(d, w, false)
  }

  function SignedPart(c: Crypto, d: Draft, w: Value): bytes
    requires Sendable(d, w)
  {
    HashedPart(d, w) + c.sha256(HashedPart(d, w))
  }

  /** The packed message: `w` was emitted for the hash, `w'` for the payload that carries the stamp. */
  function PackedBytes(d: Draft, signature: bytes, w: Value, w': Value): bytes
    requires Sendable(d, w) && Sendable(d, w')
  {
    d.dest + d.source + signature + (if d.stamp == [] then PayloadBytes(d, w, false) else PayloadBytes(d, w', true))
  }

  // ---------------------------------------------------------------- unpacking

  datatype Incoming = Incoming(dest: bytes, source: bytes, signature: bytes, timestamp: Value,
                               title: bytes, content: bytes, fields: Option<map<byte, Field>>, stamp: bytes,
                               hash: bytes, signedPart: bytes, packed: bytes)

  /** asBytes, with nil and empty not told apart. */
  function AsBytes(v: Value): Option<bytes> {
    match v
    case Nil => Some([])
    case Bin(s) => Some(s)
    case Str(s) => Some(s)
    case _ => None
  }

  predicate IsNumber(v: Value) {
    v.Int? || v.F64? || v.F32? || v.Widened?
  }

  /** asFields on the fourth element of the payload. */
  function FieldsOf(v: Value): Option<Option<map<byte, Field>>> {
    match v
    case Nil => Some(None)
    case Map(es) => (match AsFields(es) case None => None case Some(m) => Some(Some(m)))
    case _ => None
  }

  /** UnpackFromBytes up to the signature check. */
  function UnpackFromBytes(c: Crypto, dest: bytes, inner: bytes): Option<Incoming> {
    if |dest| != DESTINATION_LENGTH || |inner| < DESTINATION_LENGTH + SIGNATURE_LENGTH then None
    else
      var source := inner[..DESTINATION_LENGTH];
      var signature := inner[DESTINATION_LENGTH..DESTINATION_LENGTH + SIGNATURE_LENGTH];
      var payload := inner[DESTINATION_LENGTH + SIGNATURE_LENGTH..];
      match Split(payload)
      case Rejected => None
      case Accepted(es, hashed) => Assemble(c, dest, source, signature, payload, es, hashed)
  }

  /** applyPayload and the hash. */
  function Assemble(c: Crypto, dest: bytes, source: bytes, signature: bytes, payload: bytes,
                    es: seq<Value>, hashed: bytes): Option<Incoming>
  {
    if |es| < 4 || !IsNumber(es[0]) || AsBytes(es[1]).None? || AsBytes(es[2]).None? || FieldsOf(es[3]).None?
       || (|es| > 4 && AsBytes(es[4]).None?) then None
    else
      var part := dest + source + hashed;
      Some(Incoming(dest, source, signature, es[0], AsBytes(es[1]).value, AsBytes(es[2]).value, FieldsOf(es[3]).value,
                    if |es| > 4 then AsBytes(es[4]).value else [],
                    c.sha256(part), part + c.sha256(part), dest + source + signature + payload))
  }

  /** Unpack */
  function Unpack(c: Crypto, data: bytes): Option<Incoming> {
    if |data| < 2 * DESTINATION_LENGTH + SIGNATURE_LENGTH then None
    else UnpackFromBytes(c, data[..DESTINATION_LENGTH], data[DESTINATION_LENGTH..])
  }

  /** What the resolver knows of a source hash; a missing resolver knows nothing. */
  datatype Source = Unresolved | UnknownSource | KnownSource(verify: (bytes, bytes) -> bool)

  datatype Verdict = Unverified | SignatureInvalid | SignatureValid

  datatype Received = NotReceived | Received(msg: Incoming, verdict: Verdict)

  /** The check of the signature; an invalid one is reported beside the message. */
  function Judged(got: Option<Incoming>, resolver: bytes -> Source): Received {
    match got
    case None => NotReceived
    case Some(msg) =>
      match resolver(msg.source)
      case Unresolved => NotReceived
      case UnknownSource => Received(msg, Unverified)
      case KnownSource(verify) =>
        Received(msg, if verify(msg.signedPart, msg.signature) then SignatureValid else SignatureInvalid)
  }

  /** Unpack with the check of the signature. */
  function Receive(c: Crypto, data: bytes, resolver: bytes -> Source): Received {
    Judged(Unpack(c, data), resolver)
  }

  // ---------------------------------------------------------------- fields survive the wire

  /** Whether a value can be a field value does not depend on what lists do to byte strings. */
  lemma {:induction false} NormalizeLoosened(v: Value, loose: bool)
    ensures Normalize(Loosened(v, loose)).Some? <==> Normalize(v).Some?
    decreases v, 0
  {
    match v
    case Map(es) => AsFieldsLoosened(es);
    case Arr(es) => NormalizeAllLoosened(es);
    case _ =>
  }

  lemma {:induction false} NormalizeAllLoosened(es: seq<Value>)
    ensures NormalizeAll(LoosenedAll(es)).Some? <==> NormalizeAll(es).Some?
    decreases es, 1
  {
    if es != [] {
      NormalizeLoosened(es[0], true);
      NormalizeAllLoosened(es[1..]);
      assert LoosenedAll(es)[1..] == LoosenedAll(es[1..]);
    }
  }

  lemma {:induction false} AsFieldLoosened(e: Entry)
    ensures AsField(LoosenedEntry(e)).Some? <==> AsField(e).Some?
    ensures AsField(e).Some? ==>
              AsField(LoosenedEntry(e)).value.0 == AsField(e).value.0 && LoosenedEntry(e).key == e.key
    decreases e, 1
  {
    NormalizeLoosened(e.val, false);
  }

  lemma {:induction false} AsFieldsLoosened(es: seq<Entry>)
    ensures AsFields(LoosenedPairs(es)).Some? <==> AsFields(es).Some?
    ensures AsFields(es).Some? ==> AsFields(LoosenedPairs(es)).value.Keys == AsFields(es).value.Keys
    decreases es, 2
  {
    if es != [] {
      AsFieldLoosened(es[0]);
      AsFieldsLoosened(es[1..]);
      assert LoosenedPairs(es)[1..] == LoosenedPairs(es[1..]);
    }
  }
}
