/** Pack, then Unpack: what comes back, and when the receiver hashes what the sender hashed. */
module MessageProofs {
  import opened Basics
  import opened MsgPack
  import opened MsgPackProofs
  import opened Payload
  import opened Stamps
  import opened Message

  // ---------------------------------------------------------------- the payload of a message

  lemma ElementsFit(d: Draft, w: Value, includeStamp: bool)
    ensures AllFitTop(Elements(d, w, includeStamp)) <==> Fits(w, MAX_MAP_DEPTH, MAX_ARRAY_DEPTH)
  {
    var es := Elements(d, w, includeStamp);
    var t: seq<Value> := es[4..];
    assert AllFitTop(t) by {
      if t != [] {
        assert t[1..] == [];
      }
    }
    assert es[3..][1..] == t && es[2..][1..] == es[3..] && es[1..][1..] == es[2..];
    assert es[3] == w;
    AllFitUnfold(es[3..]);
    AllFitUnfold(es[2..]);
    AllFitUnfold(es[1..]);
    AllFitUnfold(es);
  }

  lemma AllFitUnfold(es: seq<Value>)
    requires es != []
    ensures AllFitTop(es) <==> Fits(es[0], MAX_MAP_DEPTH, MAX_ARRAY_DEPTH) && AllFitTop(es[1..])
  {}

  lemma {:induction false} StrictAllAt(es: seq<Value>, i: nat)
    requires i < |es|
    ensures StrictAll(es)[i] == Loosened(es[i], false)
  {
    if i > 0 {
      StrictAllAt(es[1..], i - 1);
    }
  }

  /** The received elements are the sent ones, but for what lists do to byte strings inside the fields. */
  lemma StrictElements(d: Draft, w: Value, includeStamp: bool)
    ensures StrictAll(Elements(d, w, includeStamp)) == Elements(d, Loosened(w, false), includeStamp)
  {
    var es := Elements(d, w, includeStamp);
    var r := StrictAll(es);
    var want := Elements(d, Loosened(w, false), includeStamp);
    forall i | 0 <= i < |es|
      ensures r[i] == want[i]
    {
      StrictAllAt(es, i);
    }
  }

  lemma SplitOfPayload(d: Draft, w: Value, includeStamp: bool)
    requires Sendable(d, w)
    ensures Split(PayloadBytes(d, w, includeStamp)) ==
            if Fits(w, MAX_MAP_DEPTH, MAX_ARRAY_DEPTH)
            then Accepted(Elements(d, Loosened(w, false), includeStamp), PayloadBytes(d, w, false)) else Rejected
  {
    var es := Elements(d, w, includeStamp);
    ElementsEncodable(d, w, includeStamp);
    ElementsEncodable(d, w, false);
    SplitOfEncoded(es);
    ElementsFit(d, w, includeStamp);
    StrictElements(d, w, includeStamp);
    assert es[..4] == Elements(d, w, false);
  }

  // ---------------------------------------------------------------- round trip

  lemma FieldsOfLoosened(w: Value)
    ensures FieldsOf(Loosened(w, false)).Some? <==> FieldsOf(w).Some?
  {
    if w.Map? {
      AsFieldsLoosened(w.entries);
    }
  }

  /** Cutting a packed message at the fixed lengths gives back its parts. */
  lemma PackedParts(dest: bytes, source: bytes, signature: bytes, payload: bytes)
    requires |dest| == DESTINATION_LENGTH && |source| == DESTINATION_LENGTH && |signature| == SIGNATURE_LENGTH
    ensures var data := dest + source + signature + payload;
            var inner := data[DESTINATION_LENGTH..];
            && data[..DESTINATION_LENGTH] == dest && inner[..DESTINATION_LENGTH] == source
            && inner[DESTINATION_LENGTH..DESTINATION_LENGTH + SIGNATURE_LENGTH] == signature
            && inner[DESTINATION_LENGTH + SIGNATURE_LENGTH..] == payload
  {
    var data := dest + source + signature + payload;
    assert data[DESTINATION_LENGTH..] == source + signature + payload;
  }

  /** The wire form of the fields that the packed message carries. */
  function Carried(d: Draft, w: Value, w': Value): Value {
    if d.stamp == [] then w else w'
  }

  /**
   Unpack accepts what Pack produced exactly when the fields are within the limits and all their maps
   have byte keys. It gives back the title, the content, the timestamp and the stamp, over the bytes
   that the carried payload hashes to.
   */
  lemma UnpackOfPacked(c: Crypto, d: Draft, signature: bytes, w: Value, w': Value)
    requires |d.dest| == DESTINATION_LENGTH && |d.source| == DESTINATION_LENGTH && |signature| == SIGNATURE_LENGTH
    requires Sendable(d, w) && Sendable(d, w')
    ensures var data := PackedBytes(d, signature, w, w');
            var sent := Carried(d, w, w');
            && (FieldsOf(Loosened(sent, false)).Some? <==> FieldsOf(sent).Some?)
            && Unpack(c, data) ==
               if Fits(sent, MAX_MAP_DEPTH, MAX_ARRAY_DEPTH) && FieldsOf(sent).Some? then
                 Some(Incoming(d.dest, d.source, signature, F64(d.timestamp), BytesOf(d.title), BytesOf(d.content),
                               FieldsOf(Loosened(sent, false)).value, d.stamp,
                               c.sha256(HashedPart(d, sent)), SignedPart(c, d, sent), data))
               else None
  {
    var sent := Carried(d, w, w');
    var stamped := d.stamp != [];
    var payload := PayloadBytes(d, sent, stamped);
    PackedParts(d.dest, d.source, signature, payload);
    SplitOfPayload(d, sent, stamped);
    FieldsOfLoosened(sent);
    AssembleElements(c, d, signature, payload, Loosened(sent, false), PayloadBytes(d, sent, false));
  }

  lemma AssembleElements(c: Crypto, d: Draft, signature: bytes, payload: bytes, w: Value, hashed: bytes)
    ensures var part := d.dest + d.source + hashed;
            Assemble(c, d.dest, d.source, signature, payload, Elements(d, w, d.stamp != []), hashed) ==
            if FieldsOf(w).None? then None else
              Some(Incoming(d.dest, d.source, signature, F64(d.timestamp), BytesOf(d.title), BytesOf(d.content),
                            FieldsOf(w).value, d.stamp, c.sha256(part), part + c.sha256(part),
                            d.dest + d.source + signature + payload))
  {}

  // ---------------------------------------------------------------- fields

  lemma {:induction false} FieldKeysAreHeld(es: seq<Entry>, k: byte)
    requires AsFields(es).Some? && k in AsFields(es).value
    ensures HasKey(Int(k), es)
  {
    var (k0, f0) := AsField(es[0]).value;
    var m := AsFields(es[1..]).value;
    if k in m {
      FieldKeysAreHeld(es[1..], k);
      var i :| 0 <= i < |es[1..]| && es[1..][i].key == Int(k);
      assert es[i + 1].key == Int(k);
    } else {
      assert es[0].key == Int(k);
    }
  }

  /** With distinct keys the first entry of a map is apart from the rest. */
  lemma FirstKeyIsApart(es: seq<Entry>)
    requires es != [] && OncePairs(es) && AsFields(es).Some?
    ensures AsField(es[0]).Some? && AsFields(es[1..]).Some?
    ensures es[0].key == Int(AsField(es[0]).value.0)
    ensures AsField(es[0]).value.0 !in AsFields(es[1..]).value
    ensures AsFields(es).value == AsFields(es[1..]).value[AsField(es[0]).value.0 := AsField(es[0]).value.1]
  {
    var k := AsField(es[0]).value.0;
    if k in AsFields(es[1..]).value {
      FieldKeysAreHeld(es[1..], k);
    }
  }

  lemma MapSplit(k: byte, f: Field, m: map<byte, Field>, f': Field, m': map<byte, Field>)
    requires k !in m && k !in m' && m[k := f] == m'[k := f']
    ensures f == f' && m == m'
  {
    assert m[k := f][k] == f && m'[k := f'][k] == f';
    assert m == m[k := f] - {k} && m' == m'[k := f'] - {k};
  }

  /** If the decoder's view of a value stands for the same fields, then it is the same value. */
  lemma {:induction false} SameFieldsSameValue(v: Value, loose: bool)
    requires Once(v) && Normalize(v).Some? && Normalize(Loosened(v, loose)) == Normalize(v)
    ensures Loosened(v, loose) == v
    decreases v, 0
  {
    match v
    case Map(es) => SameFieldsSamePairs(es);
    case Arr(es) => SameFieldsSameAll(es);
    case _ =>
  }

  lemma {:induction false} SameFieldsSameAll(es: seq<Value>)
    requires OnceAll(es) && NormalizeAll(es).Some? && NormalizeAll(LoosenedAll(es)) == NormalizeAll(es)
    ensures LoosenedAll(es) == es
    decreases es, 1
  {
    if es != [] {
      var r := LoosenedAll(es);
      assert r[0] == Loosened(es[0], true) && r[1..] == LoosenedAll(es[1..]);
      var a, b := NormalizeAll(es).value, NormalizeAll(r).value;
      assert a[0] == Normalize(es[0]).value && a[1..] == NormalizeAll(es[1..]).value;
      assert b[0] == Normalize(r[0]).value && b[1..] == NormalizeAll(r[1..]).value;
      SameFieldsSameValue(es[0], true);
      SameFieldsSameAll(es[1..]);
      assert es == [es[0]] + es[1..];
    }
  }

  lemma {:induction false} SameFieldSameEntry(e: Entry)
    requires OnceEntry(e) && AsField(e).Some? && AsField(LoosenedEntry(e)) == AsField(e)
    ensures LoosenedEntry(e) == e
    decreases e, 1
  {
    SameFieldsSameValue(e.val, false);
  }

  lemma AsFieldsCons(e: Entry, es: seq<Entry>)
    requires AsField(e).Some? && AsFields(es).Some? && AsField(e).value.0 !in AsFields(es).value
    ensures AsFields([e] + es) == Some(AsFields(es).value[AsField(e).value.0 := AsField(e).value.1])
  {
    assert ([e] + es)[1..] == es;
    var k, f, m := AsField(e).value.0, AsField(e).value.1, AsFields(es).value;
    assert map[k := f] + m == m[k := f];
  }

  lemma LoosenedPairsOnce(es: seq<Entry>)
    requires es != [] && OncePairs(es) && AsFields(es).Some?
    ensures AsFields(LoosenedPairs(es)).Some? && AsFields(LoosenedPairs(es[1..])).Some?
    ensures AsField(LoosenedEntry(es[0])).Some?
    ensures var k := AsField(es[0]).value.0;
            && AsField(LoosenedEntry(es[0])).value.0 == k && k !in AsFields(LoosenedPairs(es[1..])).value
            && AsFields(LoosenedPairs(es)).value ==
               AsFields(LoosenedPairs(es[1..])).value[k := AsField(LoosenedEntry(es[0])).value.1]
  {
    FirstKeyIsApart(es);
    AsFieldLoosened(es[0]);
    AsFieldsLoosened(es[1..]);
    assert LoosenedPairs(es) == [LoosenedEntry(es[0])] + LoosenedPairs(es[1..]);
    AsFieldsCons(LoosenedEntry(es[0]), LoosenedPairs(es[1..]));
  }

  lemma {:induction false} SameFieldsSamePairs(es: seq<Entry>)
    requires OncePairs(es) && AsFields(es).Some? && AsFields(LoosenedPairs(es)) == AsFields(es)
    ensures LoosenedPairs(es) == es
    decreases es, 2
  {
    if es != [] {
      FirstKeyIsApart(es);
      LoosenedPairsOnce(es);
      var k := AsField(es[0]).value.0;
      MapSplit(k, AsField(es[0]).value.1, AsFields(es[1..]).value,
               AsField(LoosenedEntry(es[0])).value.1, AsFields(LoosenedPairs(es[1..])).value);
      SameFieldSameEntry(es[0]);
      SameFieldsSamePairs(es[1..]);
      assert es == [es[0]] + es[1..];
    }
  }

  /** The receiver has the sender's fields exactly when no list in them held a byte string or a float32. */
  lemma FieldsComeBackIff(w: Value, m: map<byte, Field>)
    requires Emits(w, Some(m))
    ensures FieldsOf(Loosened(w, false)) == Some(Some(m)) <==> Faithful(w)
  {
    UnchangedIffFaithful(w, false);
    if FieldsOf(Loosened(w, false)) == Some(Some(m)) {
      SameFieldsSameValue(w, false);
    }
  }

  /** A byte string in a list does not come back as one. */
  lemma ListedBytesBecomeText(s: bytes)
    ensures var w := Map([Entry(Int(5), Arr([Bin(s)]))]);
            && Emits(w, Some(map[5 := List([Leaf(Bin(s))])]))
            && FieldsOf(Loosened(w, false)) == Some(Some(map[5 := List([Leaf(Str(s))])]))
  {
    var e, f := Entry(Int(5), Arr([Bin(s)])), Entry(Int(5), Arr([Str(s)]));
    OneElement(Bin(s));
    OneElement(Str(s));
    OneEntry(e, 5, List([Leaf(Bin(s))]));
    OneEntry(f, 5, List([Leaf(Str(s))]));
    assert LoosenedAll([Bin(s)]) == [Str(s)];
    assert LoosenedPairs([e]) == [f];
  }

  lemma OneElement(v: Value)
    requires !v.Arr? && !v.Map?
    ensures NormalizeAll([v]) == Some([Leaf(v)]) && OnceAll([v]) && LoosenedAll([v]) == [Loosened(v, true)]
  {
    var none: seq<Value> := [v][1..];
    assert none == [];
    assert NormalizeAll(none) == Some([]) && OnceAll(none) && LoosenedAll(none) == [];
    var empty: seq<Field> := [];
    assert [Leaf(v)] + empty == [Leaf(v)];
  }

  lemma OneEntry(e: Entry, k: byte, f: Field)
    requires AsField(e) == Some((k, f)) && OnceEntry(e)
    ensures AsFields([e]) == Some(map[k := f]) && OncePairs([e]) && LoosenedPairs([e]) == [LoosenedEntry(e)]
  {
    var none: seq<Entry> := [e][1..];
    assert none == [];
    assert AsFields(none) == Some(map[]) && OncePairs(none) && LoosenedPairs(none) == [];
    assert !HasKey(e.key, none);
    assert map[k := f] + map[] == map[k := f];
  }

  // ---------------------------------------------------------------- the order of map entries

  /** Two emissions hash to the same bytes exactly when they visited the maps in the same order. */
  lemma HashedPartAgreesIff(d: Draft, w: Value, w': Value)
    requires Sendable(d, w) && Sendable(d, w')
    ensures HashedPart(d, w) == HashedPart(d, w') <==> w == w'
  {
    if HashedPart(d, w) == HashedPart(d, w') {
      var pre := d.dest + d.source;
      SameTail(pre, PayloadBytes(d, w, false), pre, PayloadBytes(d, w', false));
      ElementsEncodable(d, w, false);
      ElementsEncodable(d, w', false);
      EncIsInjective(Arr(Elements(d, w, false)), [], Arr(Elements(d, w', false)), []);
      assert Elements(d, w, false)[3] == w && Elements(d, w', false)[3] == w';
    }
  }

  /** Two different inputs with one hash. */
  predicate Collide(c: Crypto, a: bytes, b: bytes) {
    a != b && c.sha256(a) == c.sha256(b)
  }

  /** The receiver of a packed message hashes and checks what the sender hashed and signed iff the orders agree. */
  lemma ReceiverHashesWhatWasSignedIff(c: Crypto, d: Draft, signature: bytes, w: Value, w': Value)
    requires |d.dest| == DESTINATION_LENGTH && |d.source| == DESTINATION_LENGTH && |signature| == SIGNATURE_LENGTH
    requires Sendable(d, w) && Sendable(d, w')
    requires Unpack(c, PackedBytes(d, signature, w, w')).Some?
    ensures var got := Unpack(c, PackedBytes(d, signature, w, w'));
            && (got.value.signedPart == SignedPart(c, d, w) <==> d.stamp == [] || w == w')
            && (got.value.hash == c.sha256(HashedPart(d, w)) <==>
                  d.stamp == [] || w == w' || Collide(c, HashedPart(d, w), HashedPart(d, w')))
  {
    UnpackOfPacked(c, d, signature, w, w');
    var sent := Carried(d, w, w');
    HashedPartAgreesIff(d, w, sent);
    if SignedPart(c, d, sent) == SignedPart(c, d, w) {
      assert |HashedPart(d, sent)| == |HashedPart(d, w)|;
      SameTail(HashedPart(d, sent), c.sha256(HashedPart(d, sent)), HashedPart(d, w), c.sha256(HashedPart(d, w)));
    }
  }

  lemma EncAllCons(v: Value, es: seq<Value>)
    requires Encodable(v) && EncodableAll(es)
    ensures EncodableAll([v] + es) && EncAll([v] + es) == Enc(v) + EncAll(es)
  {
    assert ([v] + es)[1..] == es;
  }

  lemma Regrouped(h: bytes, t: bytes, a: bytes, b: bytes, w: bytes, z: bytes)
    ensures h + (([0xCB] + t) + (a + (b + (w + z)))) == h + [0xCB] + t + a + b + w + z
  {}

  /** The encoded elements one behind the other. */
  lemma ElementBytes(t: bytes, a: Value, b: Value, w: Value, tail: seq<Value>)
    requires |t| == 8 && Encodable(a) && Encodable(b) && Encodable(w) && EncodableAll(tail)
    ensures var es := [F64(t), a, b, w] + tail;
            EncodableAll(es) && EncAll(es) == ([0xCB] + t) + (Enc(a) + (Enc(b) + (Enc(w) + EncAll(tail))))
  {
    EncAllCons(w, tail);
    EncAllCons(b, [w] + tail);
    EncAllCons(a, [b] + ([w] + tail));
    EncAllCons(F64(t), [a] + ([b] + ([w] + tail)));
    assert [F64(t), a, b, w] + tail == [F64(t)] + ([a] + ([b] + ([w] + tail)));
  }

  /** The bytes of a payload: a header for four or five elements, and the elements one behind the other. */
  lemma ListLayout(t: bytes, a: Value, b: Value, w: Value, tail: seq<Value>)
    requires |t| == 8 && Encodable(a) && Encodable(b) && Encodable(w) && EncodableAll(tail) && |tail| <= 1
    ensures var es := [F64(t), a, b, w] + tail;
            EncodableAll(es)
            && Enc(Arr(es)) == [0x94 + |tail|] + [0xCB] + t + Enc(a) + Enc(b) + Enc(w) + EncAll(tail)
  {
    ElementBytes(t, a, b, w, tail);
    Regrouped([0x94 + |tail|], t, Enc(a), Enc(b), Enc(w), EncAll(tail));
  }

  /** What is hashed, what is signed and what is sent, element by element. */
  lemma WireLayout(c: Crypto, d: Draft, signature: bytes, w: Value, w': Value)
    requires Sendable(d, w) && Sendable(d, w')
    ensures var title := if d.title.None? then Nil else Bin(d.title.value);
            var content := if d.content.None? then Nil else Bin(d.content.value);
            var es := [F64(d.timestamp), title, content, w];
            var es' := [F64(d.timestamp), title, content, w', Bin(d.stamp)];
            && EncodableAll(es) && HashedPart(d, w) == d.dest + d.source + Enc(Arr(es))
            && SignedPart(c, d, w) == d.dest + d.source + Enc(Arr(es)) + c.sha256(d.dest + d.source + Enc(Arr(es)))
            && (d.stamp == [] ==> PackedBytes(d, signature, w, w') == d.dest + d.source + signature + Enc(Arr(es)))
            && (d.stamp != [] ==>
                  && EncodableAll(es')
                  && PackedBytes(d, signature, w, w') == d.dest + d.source + signature + Enc(Arr(es')))
  {
    ElementsEncodable(d, w, false);
    ElementsEncodable(d, w', true);
    var title, content := BytesValue(d.title), BytesValue(d.content);
    assert Elements(d, w, false) == [F64(d.timestamp), title, content, w];
    if d.stamp != [] {
      assert Elements(d, w', true) == [F64(d.timestamp), title, content, w', Bin(d.stamp)];
    }
  }

  /** The hashed bytes determine everything but the stamp: no two messages share them. */
  lemma HashedPartBindsAll(d: Draft, w: Value, e: Draft, v: Value)
    requires Sendable(d, w) && Sendable(e, v)
    requires |d.dest| == |e.dest| == DESTINATION_LENGTH && |d.source| == |e.source| == DESTINATION_LENGTH
    ensures HashedPart(d, w) == HashedPart(e, v) <==> d.(stamp := e.stamp) == e && w == v
  {
    if HashedPart(d, w) == HashedPart(e, v) {
      var p, q := PayloadBytes(d, w, false), PayloadBytes(e, v, false);
      SameTail(d.dest + d.source, p, e.dest + e.source, q);
      SameTail(d.dest, d.source, e.dest, e.source);
      ElementsEncodable(d, w, false);
      ElementsEncodable(e, v, false);
      var a, b := Elements(d, w, false), Elements(e, v, false);
      assert p + [] == p && q + [] == q;
      EncIsInjective(Arr(a), [], Arr(b), []);
      assert a[0] == b[0] && a[1] == b[1] && a[2] == b[2] && a[3] == b[3];
    }
    if d.(stamp := e.stamp) == e && w == v {
      assert Elements(d, w, false) == Elements(e, v, false);
    }
  }

  /** A key of the fields is any number of one byte, whatever width it came in, and nothing else. */
  lemma KeyIff(v: Value, k: byte)
    ensures AsByteKey(v) == Some(k) <==> v == Int(k)
  {}

  /** nil, a byte string or a string. */
  predicate BytesLike(v: Value) {
    v.Nil? || v.Bin? || v.Str?
  }

  /** When a payload of these elements makes a message. */
  predicate MakesMessage(es: seq<Value>) {
    && |es| >= 4 && (es[0].Int? || es[0].F64? || es[0].F32? || es[0].Widened?)
    && BytesLike(es[1]) && BytesLike(es[2]) && FieldsOf(es[3]).Some? && (|es| > 4 ==> BytesLike(es[4]))
  }

  lemma AssembleIff(c: Crypto, dest: bytes, source: bytes, signature: bytes, payload: bytes, es: seq<Value>,
                    hashed: bytes)
    ensures var m := Assemble(c, dest, source, signature, payload, es, hashed);
            && (m.Some? <==> MakesMessage(es))
            && (m.Some? ==>
                  && m.value.timestamp == es[0] && FieldsOf(es[3]) == Some(m.value.fields)
                  && (m.value.title == if es[1].Nil? then [] else es[1].s)
                  && (m.value.content == if es[2].Nil? then [] else es[2].s)
                  && (m.value.stamp == if |es| == 4 || es[4].Nil? then [] else es[4].s))
  {}

  lemma UnpackAssembles(c: Crypto, data: bytes)
    ensures |data| < 96 || Split(data[96..]).Rejected? ==> Unpack(c, data) == None
    ensures |data| >= 96 && Split(data[96..]).Accepted? ==>
              var r := Split(data[96..]);
              Unpack(c, data) ==
              Assemble(c, data[..16], data[16..32], data[32..96], data[96..], r.elems, r.hashed)
  {
    if |data| >= 96 {
      var inner := data[16..];
      assert inner[..16] == data[16..32] && inner[16..80] == data[32..96] && inner[80..] == data[96..];
    }
  }

  lemma DataParts(data: bytes)
    requires |data| >= 96
    ensures data[..16] + data[16..32] == data[..32]
    ensures data[..16] + data[16..32] + data[32..96] + data[96..] == data
  {}

  /**
   Unpack on whatever bytes arrive: when it accepts, and where each part of the message comes from. The
   hash is over the two addresses and the hashed part of the payload.
   */
  lemma UnpackIff(c: Crypto, data: bytes)
    ensures Unpack(c, data).Some? <==>
              |data| >= 96 && Split(data[96..]).Accepted? && MakesMessage(Split(data[96..]).elems)
    ensures Unpack(c, data).Some? ==>
              var m, es := Unpack(c, data).value, Split(data[96..]).elems;
              var part := data[..32] + Split(data[96..]).hashed;
              && m.dest == data[..16] && m.source == data[16..32] && m.signature == data[32..96] && m.packed == data
              && m.hash == c.sha256(part) && m.signedPart == part + m.hash && m.timestamp == es[0]
              && m.title == (if es[1].Nil? then [] else es[1].s) && m.content == (if es[2].Nil? then [] else es[2].s)
              && FieldsOf(es[3]) == Some(m.fields)
              && m.stamp == (if |es| == 4 || es[4].Nil? then [] else es[4].s)
  {
    UnpackAssembles(c, data);
    if |data| >= 96 && Split(data[96..]).Accepted? {
      var r := Split(data[96..]);
      AssembleIff(c, data[..16], data[16..32], data[32..96], data[96..], r.elems, r.hashed);
      DataParts(data);
    }
  }

  lemma JudgedIff(got: Option<Incoming>, resolver: bytes -> Source)
    ensures var r := Judged(got, resolver);
            && (r.NotReceived? <==> got.None? || resolver(got.value.source).Unresolved?)
            && (r.Received? ==> got == Some(r.msg))
            && (r.Received? && r.verdict.Unverified? <==> got.Some? && resolver(got.value.source).UnknownSource?)
            && (r.Received? && r.verdict.SignatureValid? <==>
                  && got.Some? && resolver(got.value.source).KnownSource?
                  && resolver(got.value.source).verify(got.value.signedPart, got.value.signature))
  {}

  /**
   What a receiver is told, for every data and resolver: a signature counts as valid only if a known source
   vouches for the signed bytes, and a message of an unknown source is handed on unverified.
   */
  lemma ReceivedIff(c: Crypto, data: bytes, resolver: bytes -> Source)
    ensures var got, r := Unpack(c, data), Receive(c, data, resolver);
            && (r.NotReceived? <==> got.None? || resolver(got.value.source).Unresolved?)
            && (r.Received? ==> got == Some(r.msg))
            && (r.Received? && r.verdict.Unverified? <==> got.Some? && resolver(got.value.source).UnknownSource?)
            && (r.Received? && r.verdict.SignatureValid? <==>
                  && |data| >= 96 && got.Some? && resolver(data[16..32]).KnownSource?
                  && resolver(data[16..32]).verify(got.value.signedPart, data[32..96]))
  {
    JudgedIff(Unpack(c, data), resolver);
    UnpackIff(c, data);
  }

  lemma VerdictOf(c: Crypto, data: bytes, resolver: bytes -> Source, verify: (bytes, bytes) -> bool, msg: Incoming)
    requires Unpack(c, data) == Some(msg) && resolver(msg.source) == KnownSource(verify)
    ensures Receive(c, data, resolver) ==
            Received(msg, if verify(msg.signedPart, msg.signature) then SignatureValid else SignatureInvalid)
  {}

  /** A signature that fits the signed bytes only is found valid by the receiver iff the orders agree. */
  lemma SignatureHoldsIff(c: Crypto, d: Draft, signature: bytes, w: Value, w': Value, resolver: bytes -> Source,
                          verify: (bytes, bytes) -> bool)
    requires |d.dest| == DESTINATION_LENGTH && |d.source| == DESTINATION_LENGTH && |signature| == SIGNATURE_LENGTH
    requires Sendable(d, w) && Sendable(d, w')
    requires Fits(Carried(d, w, w'), MAX_MAP_DEPTH, MAX_ARRAY_DEPTH) && FieldsOf(Carried(d, w, w')).Some?
    requires resolver(d.source) == KnownSource(verify)
    requires forall b :: verify(b, signature) <==> b == SignedPart(c, d, w)
    ensures var got := Receive(c, PackedBytes(d, signature, w, w'), resolver);
            && got.Received?
            && got.verdict == (if d.stamp == [] || w == w' then SignatureValid else SignatureInvalid)
  {
    var data := PackedBytes(d, signature, w, w');
    UnpackOfPacked(c, d, signature, w, w');
    ReceiverHashesWhatWasSignedIff(c, d, signature, w, w');
    var msg := Unpack(c, data).value;
    VerdictOf(c, data, resolver, verify, msg);
  }

  /** No map in the value has two entries. */
  predicate Narrow(v: Value)
    decreases v, 0
  {
    match v
    case Map(es) => |es| <= 1 && (es == [] || NarrowEntry(es[0]))
    case Arr(es) => NarrowAll(es)
    case _ => true
  }

  predicate NarrowAll(es: seq<Value>)
    decreases es, 1
  {
    es == [] || (Narrow(es[0]) && NarrowAll(es[1..]))
  }

  predicate NarrowEntry(e: Entry)
    decreases e, 1
  {
    Narrow(e.val)
  }

  lemma {:induction false} DistinctKeysAreCounted(es: seq<Entry>)
    requires OncePairs(es) && AsFields(es).Some?
    ensures |AsFields(es).value| == |es|
  {
    if es != [] {
      FirstKeyIsApart(es);
      DistinctKeysAreCounted(es[1..]);
      var m := AsFields(es[1..]).value;
      var k, f := AsField(es[0]).value.0, AsField(es[0]).value.1;
      assert m[k := f].Keys == m.Keys + {k};
    }
  }

  /** Without a map of two entries there is one emission only, so the two encodings always agree. */
  lemma {:induction false} NarrowFieldsHaveOneOrder(v: Value, v': Value)
    requires Once(v) && Once(v') && Narrow(v) && Normalize(v).Some? && Normalize(v) == Normalize(v')
    ensures v == v'
    decreases v, 0
  {
    match v
    case Map(es) =>
      DistinctKeysAreCounted(es);
      DistinctKeysAreCounted(v'.entries);
      if es != [] {
        FirstKeyIsApart(es);
        FirstKeyIsApart(v'.entries);
        assert es[1..] == [] && v'.entries[1..] == [];
        NarrowEntryHasOneForm(es[0], v'.entries[0]);
      }
    case Arr(es) => NarrowListsHaveOneOrder(es, v'.elems);
    case _ =>
  }

  lemma {:induction false} NarrowEntryHasOneForm(e: Entry, e': Entry)
    requires OnceEntry(e) && OnceEntry(e') && NarrowEntry(e) && AsField(e).Some? && AsField(e').Some?
    requires map[AsField(e).value.0 := AsField(e).value.1] == map[AsField(e').value.0 := AsField(e').value.1]
    ensures e == e'
    decreases e, 1
  {
    var m := map[AsField(e).value.0 := AsField(e).value.1];
    assert AsField(e').value.0 in m && AsField(e).value.0 in m;
    assert m[AsField(e').value.0] == AsField(e').value.1;
    NarrowFieldsHaveOneOrder(e.val, e'.val);
  }

  lemma {:induction false} NarrowListsHaveOneOrder(es: seq<Value>, fs: seq<Value>)
    requires OnceAll(es) && OnceAll(fs) && NarrowAll(es)
    requires NormalizeAll(es).Some? && NormalizeAll(es) == NormalizeAll(fs)
    ensures es == fs
    decreases es, 1
  {
    if es != [] {
      var a, b := NormalizeAll(es).value, NormalizeAll(fs).value;
      assert |fs| == |es|;
      assert a[0] == Normalize(es[0]).value && a[1..] == NormalizeAll(es[1..]).value;
      assert b[0] == Normalize(fs[0]).value && b[1..] == NormalizeAll(fs[1..]).value;
      NarrowFieldsHaveOneOrder(es[0], fs[0]);
      NarrowListsHaveOneOrder(es[1..], fs[1..]);
      assert es == [es[0]] + es[1..] && fs == [fs[0]] + fs[1..];
    }
  }

  // ---------------------------------------------------------------- wide fields have two orders

  /** `v'` is another walk over the same fields as `v`. */
  predicate Rewalks(v': Value, v: Value) {
    v' != v && Once(v') && Encodable(v') && Normalize(v) == Normalize(v')
  }

  predicate RewalksAll(fs: seq<Value>, es: seq<Value>) {
    fs != es && |fs| == |es| && OnceAll(fs) && EncodableAll(fs) && NormalizeAll(es) == NormalizeAll(fs)
  }

  predicate RewalksEntry(f: Entry, e: Entry) {
    f != e && f.key == e.key && OnceEntry(f) && EncodableEntry(f) && AsField(e) == AsField(f)
  }

  predicate RewalksPairs(fs: seq<Entry>, es: seq<Entry>) {
    fs != es && |fs| == |es| && OncePairs(fs) && EncodablePairs(fs) && AsFields(es) == AsFields(fs)
  }

  lemma AsFieldsPair(a: Entry, b: Entry, es: seq<Entry>)
    requires AsField(a).Some? && AsField(b).Some? && AsFields(es).Some?
    requires AsField(a).value.0 != AsField(b).value.0
    requires AsField(a).value.0 !in AsFields(es).value && AsField(b).value.0 !in AsFields(es).value
    ensures AsFields([a] + ([b] + es)) == AsFields([b] + ([a] + es))
  {
    AsFieldsCons(b, es);
    AsFieldsCons(a, [b] + es);
    AsFieldsCons(a, es);
    AsFieldsCons(b, [a] + es);
    var m: map<byte, Field> := AsFields(es).value;
    var k: byte, f: Field := AsField(a).value.0, AsField(a).value.1;
    var l: byte, g: Field := AsField(b).value.0, AsField(b).value.1;
    assert m[k := f][l := g] == m[l := g][k := f];
  }

  lemma NoKeyCons(k: Value, e: Entry, es: seq<Entry>)
    ensures HasKey(k, [e] + es) <==> e.key == k || HasKey(k, es)
  {
    var all := [e] + es;
    if HasKey(k, es) {
      var i :| 0 <= i < |es| && es[i].key == k;
      assert all[i + 1].key == k;
    }
    if e.key == k {
      assert all[0].key == k;
    }
    if HasKey(k, all) && e.key != k {
      var i :| 0 <= i < |all| && all[i].key == k;
      assert es[i - 1].key == k;
    }
  }

  lemma OncePairsCons(e: Entry, es: seq<Entry>)
    ensures OncePairs([e] + es) <==> OnceEntry(e) && !HasKey(e.key, es) && OncePairs(es)
    ensures EncodablePairs([e] + es) <==> EncodableEntry(e) && EncodablePairs(es)
  {
    assert ([e] + es)[1..] == es;
  }

  /** The first two entries of a map in the other order. */
  lemma FirstTwoSwapped(a: Entry, b: Entry, es: seq<Entry>)
    requires var all := [a] + ([b] + es); OncePairs(all) && EncodablePairs(all) && AsFields(all).Some?
    ensures RewalksPairs([b] + ([a] + es), [a] + ([b] + es))
  {
    var all, tail := [a] + ([b] + es), [b] + es;
    assert all[1..] == tail && tail[1..] == es;
    FirstKeyIsApart(all);
    FirstKeyIsApart(tail);
    OncePairsCons(a, tail);
    OncePairsCons(b, es);
    NoKeyCons(a.key, b, es);
    OncePairsCons(a, es);
    NoKeyCons(b.key, a, es);
    OncePairsCons(b, [a] + es);
    AsFieldsPair(a, b, es);
    assert ([b] + ([a] + es))[0] != all[0];
  }

  /** Fields with a map of two entries or more have another walk. */
  lemma {:induction false} WideHasAnotherWalk(v: Value) returns (v': Value)
    requires Once(v) && Encodable(v) && Normalize(v).Some? && !Narrow(v)
    ensures Rewalks(v', v)
    decreases v, 0
  {
    match v
    case Map(es) =>
      var fs := WidePairsHaveAnotherWalk(es);
      v' := Map(fs);
    case Arr(es) =>
      var fs := WideListHasAnotherWalk(es);
      v' := Arr(fs);
  }

  lemma {:induction false} WidePairsHaveAnotherWalk(es: seq<Entry>) returns (fs: seq<Entry>)
    requires OncePairs(es) && EncodablePairs(es) && AsFields(es).Some?
    requires |es| > 1 || (|es| == 1 && !NarrowEntry(es[0]))
    ensures RewalksPairs(fs, es)
    decreases es, 2
  {
    if |es| > 1 {
      var rest := es[2..];
      assert es == [es[0]] + ([es[1]] + rest);
      FirstTwoSwapped(es[0], es[1], rest);
      fs := [es[1]] + ([es[0]] + rest);
    } else {
      var f := WideEntryHasAnotherWalk(es[0]);
      fs := [f];
      OneEntry(es[0], AsField(es[0]).value.0, AsField(es[0]).value.1);
      OneEntry(f, AsField(f).value.0, AsField(f).value.1);
      assert es == [es[0]] && [f][1..] == [];
      assert fs[0] != es[0];
    }
  }

  lemma {:induction false} WideEntryHasAnotherWalk(e: Entry) returns (f: Entry)
    requires OnceEntry(e) && EncodableEntry(e) && AsField(e).Some? && !NarrowEntry(e)
    ensures RewalksEntry(f, e)
    decreases e, 1
  {
    var val := WideHasAnotherWalk(e.val);
    f := Entry(e.key, val);
  }

  lemma {:induction false} WideListHasAnotherWalk(es: seq<Value>) returns (fs: seq<Value>)
    requires OnceAll(es) && EncodableAll(es) && NormalizeAll(es).Some? && !NarrowAll(es)
    ensures RewalksAll(fs, es)
    decreases es, 1
  {
    if Narrow(es[0]) {
      var rest := WideListHasAnotherWalk(es[1..]);
      fs := [es[0]] + rest;
      assert fs[1..] == rest;
      assert fs != es by {
        assert fs[1..] != es[1..];
      }
    } else {
      var first := WideHasAnotherWalk(es[0]);
      fs := [first] + es[1..];
      assert fs[1..] == es[1..] && fs[0] != es[0];
    }
  }

  /** The same said of the fields themselves: no map in them has two entries. */
  predicate NarrowField(f: Field) {
    match f
    case Leaf(_) => true
    case List(items) => forall i | 0 <= i < |items| :: NarrowField(items[i])
    case Dict(m) => |m| <= 1 && forall k | k in m :: NarrowField(m[k])
  }

  predicate NarrowFields(fields: Option<map<byte, Field>>) {
    fields.None? || NarrowField(Dict(fields.value))
  }

  lemma {:induction false} NarrowIsOfTheFields(v: Value)
    requires Once(v) && Normalize(v).Some?
    ensures Narrow(v) <==> NarrowField(Normalize(v).value)
    decreases v, 0
  {
    match v
    case Map(es) =>
      DistinctKeysAreCounted(es);
      if |es| == 1 {
        FirstKeyIsApart(es);
        assert es[1..] == [];
        NarrowEntryIsOfTheField(es[0]);
        var m: map<byte, Field> := AsFields(es).value;
        assert m == map[AsField(es[0]).value.0 := AsField(es[0]).value.1];
      }
    case Arr(es) => NarrowListIsOfTheFields(es);
    case _ =>
  }

  lemma {:induction false} NarrowEntryIsOfTheField(e: Entry)
    requires OnceEntry(e) && AsField(e).Some?
    ensures NarrowEntry(e) <==> NarrowField(AsField(e).value.1)
    decreases e, 1
  {
    NarrowIsOfTheFields(e.val);
  }

  lemma {:induction false} NarrowListIsOfTheFields(es: seq<Value>)
    requires OnceAll(es) && NormalizeAll(es).Some?
    ensures NarrowAll(es) <==> forall i | 0 <= i < |es| :: NarrowField(NormalizeAll(es).value[i])
    decreases es, 1
  {
    if es != [] {
      NarrowIsOfTheFields(es[0]);
      NarrowListIsOfTheFields(es[1..]);
      var a, b := NormalizeAll(es).value, NormalizeAll(es[1..]).value;
      assert a == [a[0]] + b;
      assert forall i | 0 <= i < |b| :: b[i] == a[i + 1];
      assert forall i | 1 <= i < |a| :: a[i] == b[i - 1];
    }
  }

  /**
   Every walk over the fields is the same walk exactly when no map in them has two entries: this is
   what a caller can look at before packing with a stamp.
   */
  lemma OneOrderIffNarrow(w: Value, fields: Option<map<byte, Field>>)
    requires Emits(w, fields) && Encodable(w)
    ensures (forall w' | Emits(w', fields) && Encodable(w') :: w' == w) <==> NarrowFields(fields)
    ensures Narrow(w) <==> NarrowFields(fields)
  {
    NarrowIsOfTheFields(w);
    if Narrow(w) {
      forall w' | Emits(w', fields) && Encodable(w')
        ensures w' == w
      {
        if fields.Some? {
          NarrowFieldsHaveOneOrder(w, w');
        }
      }
    } else {
      var w' := WideHasAnotherWalk(w);
      assert Emits(w', fields);
    }
  }

  /** Stamped fields with a wide map can be packed so that the receiver does not hash what was signed. */
  lemma WideFieldsCanBreakTheHash(d: Draft, w: Value, fields: Option<map<byte, Field>>) returns (w': Value)
    requires Emits(w, fields) && Sendable(d, w) && !NarrowFields(fields)
    ensures Emits(w', fields) && Sendable(d, w') && HashedPart(d, w') != HashedPart(d, w)
  {
    NarrowIsOfTheFields(w);
    w' := WideHasAnotherWalk(w);
    HashedPartAgreesIff(d, w, w');
  }

  /** Two walks of Pack always hash alike exactly when no map in the fields has two entries. */
  lemma PackedTwiceAlikeIff(d: Draft, w: Value, fields: Option<map<byte, Field>>)
    requires Emits(w, fields) && Sendable(d, w)
    ensures (forall v, v' | Emits(v, fields) && Sendable(d, v) && Emits(v', fields) && Sendable(d, v') ::
               HashedPart(d, v) == HashedPart(d, v')) <==> NarrowFields(fields)
  {
    OneOrderIffNarrow(w, fields);
    if !NarrowFields(fields) {
      var w' := WideFieldsCanBreakTheHash(d, w, fields);
      assert HashedPart(d, w') != HashedPart(d, w);
    }
  }

  // ---------------------------------------------------------------- stamps

  /** The hash does not depend on the stamp: only the order of the fields can change it. */
  lemma StampLeavesHashedPart(d: Draft, stamp: bytes, w: Value)
    requires Sendable(d, w) && |stamp| < UINT32_LIMIT
    ensures HashedPart(d.(stamp := stamp), w) == HashedPart(d, w)
  {
    assert Elements(d.(stamp := stamp), w, false) == Elements(d, w, false);
  }

  /**
   SendStamped: the stamp is found for the first hash (fields emitted as `w1`); the second Pack emits
   `w2` for the hash and `w3` for the wire. The receiver has the first hash iff `w3 == w1`, and then its
   check of the stamp at that cost succeeds with a score of at least cost - 1.
   */
  lemma StampedSendValidates(c: Crypto, d: Draft, w1: Value, w2: Value, w3: Value, fields: Option<map<byte, Field>>,
                             signature: bytes, stamp: bytes, cost: int)
    requires |stamp| == STAMP_SIZE && 1 <= cost <= 256
    requires |d.dest| == DESTINATION_LENGTH && |d.source| == DESTINATION_LENGTH && |signature| == SIGNATURE_LENGTH
    requires Sendable(d, w1) && Sendable(d, w2) && Sendable(d, w3)
    requires Emits(w1, fields) && Emits(w2, fields) && Emits(w3, fields) && Fits(w3, MAX_MAP_DEPTH, MAX_ARRAY_DEPTH)
    requires Meets(Hashed(c, c.workblock(c.sha256(HashedPart(d, w1)), ROUNDS), stamp), cost)
    ensures var got := Unpack(c, PackedBytes(d.(stamp := stamp), signature, w2, w3));
            && got.Some? && got.value.stamp == stamp
            && got.value.hash == c.sha256(HashedPart(d, w3))
            && (HashedPart(d, w3) == HashedPart(d, w1) <==> w3 == w1)
            && (got.value.hash == c.sha256(HashedPart(d, w1)) <==>
                  w3 == w1 || Collide(c, HashedPart(d, w1), HashedPart(d, w3)))
            && (w3 == w1 ==>
                  && StampValid(c, got.value.stamp, cost, c.workblock(got.value.hash, ROUNDS))
                  && StampScore(c, c.workblock(got.value.hash, ROUNDS), got.value.stamp) >= cost - 1)
            && (got.value.signedPart == SignedPart(c, d, w2) <==> w3 == w2)
  {
    var s := d.(stamp := stamp);
    UnpackOfPacked(c, s, signature, w2, w3);
    FieldsOfLoosened(w3);
    ReceiverHashesWhatWasSignedIff(c, s, signature, w2, w3);
    StampLeavesHashedPart(d, stamp, w1);
    StampLeavesHashedPart(d, stamp, w2);
    StampLeavesHashedPart(d, stamp, w3);
    HashedPartAgreesIff(d, w3, w1);
    if w3 == w1 {
      ValidScoresNearCost(c, stamp, cost, c.workblock(c.sha256(HashedPart(d, w1)), ROUNDS));
    }
  }
}
