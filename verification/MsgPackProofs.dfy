/** What the codec guarantees: round trips, injectivity, locality and the limits of what is accepted. */
module MsgPackProofs {
  import opened Basics
  import opened Octets
  import opened MsgPack

  // ---------------------------------------------------------------- heads

  lemma WordPowers()
    ensures Pow2(7) == 0x80 && Pow2(8) == 0x100 && Pow2(15) == 0x8000 && Pow2(16) == 0x1_0000
    ensures Pow2(31) == 0x8000_0000 && Pow2(32) == 0x1_0000_0000
    ensures Pow2(63) == 0x8000_0000_0000_0000 && Pow2(64) == UINT64_LIMIT
  {
    assert Pow2(7) == 0x80;
    Pow2Add(8, 7);
    Pow2Add(8, 8);
    Pow2Add(16, 15);
    Pow2Add(16, 16);
    Pow2Add(32, 31);
    Pow2Add(32, 32);
  }

  /** A code byte, a number in `w` bytes, and what follows. */
  lemma Prefixed(c: byte, n: nat, w: nat, x: bytes)
    requires n < Pow2(8 * w)
    ensures var d := [c] + ToBE(n, w) + x;
            && d != [] && d[0] == c && |d[1..]| >= w
            && FromBE(d[1..][..w]) == n && d[1..][w..] == x
  {
    var d := [c] + ToBE(n, w) + x;
    assert d[1..] == ToBE(n, w) + x;
    assert d[1..][..w] == ToBE(n, w);
    assert d[1..][w..] == x;
    FromToBE(n, w);
  }

  predicate FitsIn(n: nat, w: nat) {
    (w == 1 && n <= 0xFF) || (w == 2 && n <= 0xFFFF) || (w == 4 && n < UINT32_LIMIT) || (w == 8 && n < UINT64_LIMIT)
  }

  lemma WidthBound(n: nat, w: nat)
    requires FitsIn(n, w)
    ensures n < Pow2(8 * w)
  {
    WordPowers();
  }

  /** A code byte alone. */
  lemma CodeHead(c: byte, x: bytes)
    ensures ParseHead([c] + x) == HeadOf(ShapeOf(c), x)
  {
    assert ([c] + x)[1..] == x;
  }

  lemma LongHead(c: byte, kind: Kind, w: nat, n: nat, x: bytes)
    requires ShapeOf(c) == Long(kind, w) && FitsIn(n, w)
    ensures ParseHead([c] + ToBE(n, w) + x) == Sized(kind, n, x)
  {
    WidthBound(n, w);
    Prefixed(c, n, w, x);
  }

  lemma UnsignedHead(c: byte, w: nat, n: nat, x: bytes)
    requires ShapeOf(c) == Number(Unsigned, w) && FitsIn(n, w)
    ensures ParseHead([c] + ToBE(n, w) + x) == Atom(Int(n), x)
  {
    WidthBound(n, w);
    Prefixed(c, n, w, x);
  }

  /** A negative number in two's complement. */
  lemma NegativeHead(c: byte, w: nat, n: int, modulus: nat, x: bytes)
    requires ShapeOf(c) == Number(TwosComplement, w) && w > 0
    requires modulus == Pow2(8 * w) && modulus == 2 * Pow2(8 * w - 1) && n < 0 <= 2 * n + modulus
    ensures ParseHead([c] + ToBE(n + modulus, w) + x) == Atom(Int(n), x)
  {
    Prefixed(c, n + modulus, w, x);
  }

  lemma UintHead(n: nat, x: bytes)
    requires n < UINT64_LIMIT
    ensures ParseHead(EncUint(n) + x) == Atom(Int(n), x)
  {
    if n <= 0x7F {
      CodeHead(n, x);
    } else if n <= 0xFF {
      UnsignedHead(0xCC, 1, n, x);
    } else if n <= 0xFFFF {
      UnsignedHead(0xCD, 2, n, x);
    } else if n <= 0xFFFF_FFFF {
      UnsignedHead(0xCE, 4, n, x);
    } else {
      UnsignedHead(0xCF, 8, n, x);
    }
  }

  lemma NegativeHead1(n: int, x: bytes)
    requires -0x80 <= n < 0
    ensures ParseHead([0xD0] + ToBE(n + 0x100, 1) + x) == Atom(Int(n), x)
  {
    WordPowers();
    NegativeHead(0xD0, 1, n, 0x100, x);
  }

  lemma NegativeHead2(n: int, x: bytes)
    requires -0x8000 <= n < 0
    ensures ParseHead([0xD1] + ToBE(n + 0x1_0000, 2) + x) == Atom(Int(n), x)
  {
    WordPowers();
    NegativeHead(0xD1, 2, n, 0x1_0000, x);
  }

  lemma NegativeHead4(n: int, x: bytes)
    requires -0x8000_0000 <= n < 0
    ensures ParseHead([0xD2] + ToBE(n + 0x1_0000_0000, 4) + x) == Atom(Int(n), x)
  {
    WordPowers();
    NegativeHead(0xD2, 4, n, 0x1_0000_0000, x);
  }

  lemma NegativeHead8(n: int, x: bytes)
    requires INT64_MIN <= n < 0
    ensures ParseHead([0xD3] + ToBE(n + UINT64_LIMIT, 8) + x) == Atom(Int(n), x)
  {
    WordPowers();
    NegativeHead(0xD3, 8, n, UINT64_LIMIT, x);
  }

  lemma IntHead(n: int, x: bytes)
    requires INT64_MIN <= n < UINT64_LIMIT
    ensures ParseHead(EncInt(n) + x) == Atom(Int(n), x)
  {
    if n >= 0 {
      UintHead(n, x);
    } else if n >= -32 {
      CodeHead(n + 256, x);
    } else if n >= -0x80 {
      NegativeHead1(n, x);
    } else if n >= -0x8000 {
      NegativeHead2(n, x);
    } else if n >= -0x8000_0000 {
      NegativeHead4(n, x);
    } else {
      NegativeHead8(n, x);
    }
  }

  lemma StrHead(n: nat, x: bytes)
    requires n < UINT32_LIMIT
    ensures ParseHead(EncStrLen(n) + x) == Sized(KStr, n, x)
  {
    if n < 32 {
      CodeHead(0xA0 + n, x);
    } else if n < 256 {
      LongHead(0xD9, KStr, 1, n, x);
    } else if n <= 0xFFFF {
      LongHead(0xDA, KStr, 2, n, x);
    } else {
      LongHead(0xDB, KStr, 4, n, x);
    }
  }

  lemma BinHead(n: nat, x: bytes)
    requires n < UINT32_LIMIT
    ensures ParseHead(EncBinLen(n) + x) == Sized(KBin, n, x)
  {
    if n < 256 {
      LongHead(0xC4, KBin, 1, n, x);
    } else if n <= 0xFFFF {
      LongHead(0xC5, KBin, 2, n, x);
    } else {
      LongHead(0xC6, KBin, 4, n, x);
    }
  }

  lemma ArrHead(n: nat, x: bytes)
    requires n < UINT32_LIMIT
    ensures ParseHead(EncArrLen(n) + x) == Sized(KArr, n, x)
  {
    if n < 16 {
      CodeHead(0x90 + n, x);
    } else if n <= 0xFFFF {
      LongHead(0xDC, KArr, 2, n, x);
    } else {
      LongHead(0xDD, KArr, 4, n, x);
    }
  }

  lemma MapHead(n: nat, x: bytes)
    requires n < UINT32_LIMIT
    ensures ParseHead(EncMapLen(n) + x) == Sized(KMap, n, x)
  {
    if n < 16 {
      CodeHead(0x80 + n, x);
    } else if n <= 0xFFFF {
      LongHead(0xDE, KMap, 2, n, x);
    } else {
      LongHead(0xDF, KMap, 4, n, x);
    }
  }

  lemma LongExtHead(n: nat, x: bytes)
    requires FitsIn(n, 1)
    ensures ParseHead([0xC7] + ToBE(n, 1) + x) == ExtOf(n, x)
  {
    WidthBound(n, 1);
    Prefixed(0xC7, n, 1, x);
  }

  lemma TimeHead(n: nat, x: bytes)
    requires n == 4 || n == 8 || n == 12
    ensures ParseHead(EncTimeLen(n) + x) == Sized(KTime, n, x)
  {
    assert ([0xFF] + x)[1..] == x;
    if n == 12 {
      assert EncTimeLen(n) + x == [0xC7] + ToBE(n, 1) + ([0xFF] + x);
      LongExtHead(n, [0xFF] + x);
    } else {
      var c := if n == 4 then 0xD6 else 0xD7;
      assert EncTimeLen(n) + x == [c] + ([0xFF] + x);
      CodeHead(c, [0xFF] + x);
    }
  }

  /** The head that an encoded value announces in front of `x`. */
  function Announced(v: Value, x: bytes): Head
    requires Encodable(v)
  {
    match v
    case Str(s) => Sized(KStr, |s|, s + x)
    case Bin(s) => Sized(KBin, |s|, s + x)
    case Time(s) => Sized(KTime, |s|, s + x)
    case Arr(es) => Sized(KArr, |es|, EncAll(es) + x)
    case Map(es) => Sized(KMap, |es|, EncPairs(es) + x)
    case _ => Atom(v, x)
  }

  lemma EncAnnouncesAtom(v: Value, x: bytes)
    requires Encodable(v) && (v.Nil? || v.Bool? || v.Int? || v.F64? || v.F32?)
    ensures ParseHead(Enc(v) + x) == Atom(v, x)
  {
    match v
    case Nil => assert ([0xC0] + x)[1..] == x;
    case Bool(b) => assert (Enc(v) + x)[1..] == x;
    case Int(n) => IntHead(n, x);
    case F64(bits) => FloatHead(0xCB, bits, x);
    case F32(bits) => FloatHead(0xCA, bits, x);
  }

  lemma Regroup(a: bytes, b: bytes, x: bytes)
    ensures (a + b) + x == a + (b + x)
  {}

  lemma EncAnnouncesArr(es: seq<Value>, x: bytes)
    requires Encodable(Arr(es))
    ensures ParseHead(Enc(Arr(es)) + x) == Sized(KArr, |es|, EncAll(es) + x)
  {
    var head, body := EncArrLen(|es|), EncAll(es);
    assert Enc(Arr(es)) == head + body;
    Regroup(head, body, x);
    ArrHead(|es|, body + x);
  }

  lemma EncAnnouncesMap(es: seq<Entry>, x: bytes)
    requires Encodable(Map(es))
    ensures ParseHead(Enc(Map(es)) + x) == Sized(KMap, |es|, EncPairs(es) + x)
  {
    var head, body := EncMapLen(|es|), EncPairs(es);
    assert Enc(Map(es)) == head + body;
    Regroup(head, body, x);
    MapHead(|es|, body + x);
  }

  lemma EncAnnouncesText(v: Value, x: bytes)
    requires Encodable(v) && (v.Str? || v.Bin? || v.Time?)
    ensures ParseHead(Enc(v) + x) == Announced(v, x)
  {
    match v
    case Str(s) =>
      StrHead(|s|, s + x);
      Regroup(EncStrLen(|s|), s, x);
    case Bin(s) =>
      BinHead(|s|, s + x);
      Regroup(EncBinLen(|s|), s, x);
    case Time(s) =>
      TimeHead(|s|, s + x);
      Regroup(EncTimeLen(|s|), s, x);
  }

  lemma EncAnnounces(v: Value, x: bytes)
    requires Encodable(v)
    ensures ParseHead(Enc(v) + x) == Announced(v, x)
  {
    if v.Arr? {
      EncAnnouncesArr(v.elems, x);
    } else if v.Map? {
      EncAnnouncesMap(v.entries, x);
    } else if v.Str? || v.Bin? || v.Time? {
      EncAnnouncesText(v, x);
    } else {
      EncAnnouncesAtom(v, x);
    }
  }

  lemma FloatHead(c: byte, bits: bytes, x: bytes)
    ensures var r := ([c] + bits + x)[1..]; |r| >= |bits| && r[..|bits|] == bits && r[|bits|..] == x
  {
    assert ([c] + bits + x)[1..] == bits + x;
  }

  // ---------------------------------------------------------------- injectivity

  lemma SameTail(a: bytes, x: bytes, b: bytes, y: bytes)
    requires |a| == |b| && a + x == b + y
    ensures a == b && x == y
  {
    assert a == (a + x)[..|a|] && b == (b + y)[..|b|];
    assert x == (a + x)[|a|..] && y == (b + y)[|b|..];
  }

  /** Two values with the same encoding, even in front of different bytes, are the same value. */
  lemma {:induction false} EncIsInjective(v: Value, x: bytes, w: Value, y: bytes)
    requires Encodable(v) && Encodable(w) && Enc(v) + x == Enc(w) + y
    ensures v == w && x == y
    decreases v, 0
  {
    EncAnnounces(v, x);
    EncAnnounces(w, y);
    match v
    case Str(s) => SameTail(s, x, w.s, y);
    case Bin(s) => SameTail(s, x, w.s, y);
    case Time(s) => SameTail(s, x, w.s, y);
    case Arr(es) => EncAllIsInjective(es, x, w.elems, y);
    case Map(es) => EncPairsIsInjective(es, x, w.entries, y);
    case _ =>
  }

  lemma {:induction false} EncAllIsInjective(es: seq<Value>, x: bytes, fs: seq<Value>, y: bytes)
    requires |es| == |fs| && EncodableAll(es) && EncodableAll(fs)
    requires EncAll(es) + x == EncAll(fs) + y
    ensures es == fs && x == y
    decreases es, 1
  {
    if es == [] {
      assert [] + x == x && [] + y == y;
    } else {
      assert EncAll(es) + x == Enc(es[0]) + (EncAll(es[1..]) + x);
      assert EncAll(fs) + y == Enc(fs[0]) + (EncAll(fs[1..]) + y);
      EncIsInjective(es[0], EncAll(es[1..]) + x, fs[0], EncAll(fs[1..]) + y);
      EncAllIsInjective(es[1..], x, fs[1..], y);
      assert es == [es[0]] + es[1..] && fs == [fs[0]] + fs[1..];
    }
  }

  lemma {:induction false} EncEntryIsInjective(e: Entry, x: bytes, f: Entry, y: bytes)
    requires EncodableEntry(e) && EncodableEntry(f)
    requires EncEntry(e) + x == EncEntry(f) + y
    ensures e == f && x == y
    decreases e, 1
  {
    assert EncEntry(e) + x == Enc(e.key) + (Enc(e.val) + x);
    assert EncEntry(f) + y == Enc(f.key) + (Enc(f.val) + y);
    EncIsInjective(e.key, Enc(e.val) + x, f.key, Enc(f.val) + y);
    EncIsInjective(e.val, x, f.val, y);
  }

  lemma Regrouped(a: bytes, b: bytes, c: bytes)
    ensures a + b + c == a + (b + c)
  {}

  lemma {:induction false} EncPairsIsInjective(es: seq<Entry>, x: bytes, fs: seq<Entry>, y: bytes)
    requires |es| == |fs| && EncodablePairs(es) && EncodablePairs(fs)
    requires EncPairs(es) + x == EncPairs(fs) + y
    ensures es == fs && x == y
    decreases es, 2
  {
    if es == [] {
      assert [] + x == x && [] + y == y;
    } else {
      Regrouped(EncEntry(es[0]), EncPairs(es[1..]), x);
      Regrouped(EncEntry(fs[0]), EncPairs(fs[1..]), y);
      EncEntryIsInjective(es[0], EncPairs(es[1..]) + x, fs[0], EncPairs(fs[1..]) + y);
      EncPairsIsInjective(es[1..], x, fs[1..], y);
      assert es == [es[0]] + es[1..] && fs == [fs[0]] + fs[1..];
    }
  }

  // ---------------------------------------------------------------- round trip

  /** What the decoder gives back for an encoded value. */
  function Loosened(v: Value, loose: bool): Value
    decreases v, 0
  {
    match v
    case Bin(s) => if loose then Str(s) else v
    case F32(bits) => if loose then Widened(bits) else v
    case Arr(es) => Arr(LoosenedAll(es))
    case Map(es) => Map(LoosenedPairs(es))
    case _ => v
  }

  function LoosenedAll(es: seq<Value>): (r: seq<Value>)
    ensures |r| == |es|
    decreases es, 1
  {
    if es == [] then [] else [Loosened(es[0], true)] + LoosenedAll(es[1..])
  }

  function LoosenedEntry(e: Entry): Entry
    decreases e, 1
  {
    Entry(Loosened(e.key, false), Loosened(e.val, false))
  }

  function LoosenedPairs(es: seq<Entry>): (r: seq<Entry>)
    ensures |r| == |es|
    decreases es, 2
  {
    if es == [] then [] else [LoosenedEntry(es[0])] + LoosenedPairs(es[1..])
  }

  /** Maps nest at most `maps` deep with at most 8192 usable keys each, arrays at most `arrays` deep. */
  predicate Fits(v: Value, maps: nat, arrays: nat)
    decreases v, 0
  {
    match v
    case Arr(es) => es == [] || (arrays > 0 && AllFit(es, maps, arrays - 1))
    case Map(es) => maps > 0 && |es| <= MAX_MAP_PAIRS && PairsFit(es, maps - 1, arrays)
    case _ => true
  }

  predicate AllFit(es: seq<Value>, maps: nat, arrays: nat)
    decreases es, 1
  {
    es == [] || (Fits(es[0], maps, arrays) && AllFit(es[1..], maps, arrays))
  }

  predicate PairFits(e: Entry, maps: nat, arrays: nat)
    decreases e, 1
  {
    Comparable(e.key) && Fits(e.key, maps, arrays) && Fits(e.val, maps, arrays)
  }

  predicate PairsFit(es: seq<Entry>, maps: nat, arrays: nat)
    decreases es, 2
  {
    es == [] || (PairFits(es[0], maps, arrays) && PairsFit(es[1..], maps, arrays))
  }

  lemma DecodeAnnouncedText(v: Value, x: bytes, maps: nat, arrays: nat, loose: bool)
    requires Encodable(v) && (v.Str? || v.Bin? || v.Time?)
    ensures ByHead(Announced(v, x), maps, arrays, loose) == Ok(Loosened(v, loose), x)
  {
    SliceBack(v.s, x);
    assert TextValue(Announced(v, x).kind, |v.s|, v.s + x, loose) == Ok(Loosened(v, loose), x);
  }

  /** What the decoder makes of an announced value. */
  lemma {:induction false} DecodeAnnounced(v: Value, x: bytes, maps: nat, arrays: nat, loose: bool)
    requires Encodable(v) && maps <= MAX_MAP_DEPTH && arrays <= MAX_ARRAY_DEPTH
    ensures ByHead(Announced(v, x), maps, arrays, loose) ==
            if Fits(v, MAX_MAP_DEPTH - maps, MAX_ARRAY_DEPTH - arrays) then Ok(Loosened(v, loose), x) else Fail
    decreases v, 0
  {
    match v
    case Arr(es) =>
      ArrValueOfEncoded(es, x, maps, arrays);
      var r := EncAll(es) + x;
      assert SizedValue(KArr, |es|, r, maps, arrays, loose) == ArrValue(|es|, r, maps, arrays);
    case Map(es) =>
      MapValueOfEncoded(es, x, maps, arrays);
      var r := EncPairs(es) + x;
      assert SizedValue(KMap, |es|, r, maps, arrays, loose) == MapValue(|es|, r, maps, arrays);
    case Str(_) => DecodeAnnouncedText(v, x, maps, arrays, loose);
    case Bin(_) => DecodeAnnouncedText(v, x, maps, arrays, loose);
    case Time(_) => DecodeAnnouncedText(v, x, maps, arrays, loose);
    case _ =>
  }

  /**
   What was encoded is accepted exactly when it is within the limits, whatever follows it; and then
   it comes back as itself, but for byte strings and short floats that are elements of an array.
   */
  lemma {:induction false} DecodeEnc(v: Value, x: bytes, maps: nat, arrays: nat, loose: bool)
    requires Encodable(v) && maps <= MAX_MAP_DEPTH && arrays <= MAX_ARRAY_DEPTH
    ensures Decode(Enc(v) + x, maps, arrays, loose) ==
            if Fits(v, MAX_MAP_DEPTH - maps, MAX_ARRAY_DEPTH - arrays) then Ok(Loosened(v, loose), x) else Fail
    decreases v, 1
  {
    EncAnnounces(v, x);
    DecodeOn(Enc(v) + x, maps, arrays, loose);
    DecodeAnnounced(v, x, maps, arrays, loose);
  }

  /** Decode goes by the head of the data. */
  lemma DecodeOn(data: bytes, maps: nat, arrays: nat, loose: bool)
    ensures Decode(data, maps, arrays, loose) == ByHead(ParseHead(data), maps, arrays, loose)
  {}

  lemma FitsArr(es: seq<Value>, maps: nat, arrays: nat)
    ensures Fits(Arr(es), maps, arrays) <==> es == [] || (arrays > 0 && AllFit(es, maps, arrays - 1))
  {}

  lemma {:induction false} ArrValueOfEncoded(es: seq<Value>, x: bytes, maps: nat, arrays: nat)
    requires EncodableAll(es) && maps <= MAX_MAP_DEPTH && arrays <= MAX_ARRAY_DEPTH
    ensures ArrValue(|es|, EncAll(es) + x, maps, arrays) ==
            if Fits(Arr(es), MAX_MAP_DEPTH - maps, MAX_ARRAY_DEPTH - arrays) then Ok(Arr(LoosenedAll(es)), x) else Fail
    decreases es, 2
  {
    var body := EncAll(es) + x;
    FitsArr(es, MAX_MAP_DEPTH - maps, MAX_ARRAY_DEPTH - arrays);
    assert |es| <= |body|;
    if es == [] {
      assert body == x;
    } else if arrays < MAX_ARRAY_DEPTH {
      DecodeEncAll(es, x, maps, arrays + 1);
    } else {
      assert OneElement(body, maps, arrays + 1) == Fail;
    }
  }

  lemma FitsMap(es: seq<Entry>, maps: nat, arrays: nat)
    ensures Fits(Map(es), maps, arrays) <==> maps > 0 && |es| <= MAX_MAP_PAIRS && PairsFit(es, maps - 1, arrays)
  {}

  lemma PairsTakeTwo(es: seq<Entry>, x: bytes)
    requires EncodablePairs(es)
    ensures |es| <= |EncPairs(es) + x| / 2
  {
    assert 2 * |es| <= |EncPairs(es)|;
  }

  lemma {:induction false} MapValueOfEncoded(es: seq<Entry>, x: bytes, maps: nat, arrays: nat)
    requires EncodablePairs(es) && maps <= MAX_MAP_DEPTH && arrays <= MAX_ARRAY_DEPTH
    ensures MapValue(|es|, EncPairs(es) + x, maps, arrays) ==
            if Fits(Map(es), MAX_MAP_DEPTH - maps, MAX_ARRAY_DEPTH - arrays)
            then Ok(Map(LoosenedPairs(es)), x) else Fail
    decreases es, 3
  {
    PairsTakeTwo(es, x);
    FitsMap(es, MAX_MAP_DEPTH - maps, MAX_ARRAY_DEPTH - arrays);
    if maps < MAX_MAP_DEPTH && |es| <= MAX_MAP_PAIRS {
      DecodeEncPairs(es, x, maps + 1, arrays);
    }
  }

  lemma SliceBack(s: bytes, x: bytes)
    ensures (s + x)[..|s|] == s && (s + x)[|s|..] == x
  {}

  lemma {:induction false} DecodeEncAll(es: seq<Value>, x: bytes, maps: nat, arrays: nat)
    requires EncodableAll(es) && maps <= MAX_MAP_DEPTH && arrays <= MAX_ARRAY_DEPTH
    ensures DecodeMany(EncAll(es) + x, |es|, maps, arrays) ==
            if AllFit(es, MAX_MAP_DEPTH - maps, MAX_ARRAY_DEPTH - arrays) then Ok(LoosenedAll(es), x) else Fail
    decreases es, 1
  {
    if es == [] {
      assert [] + x == x;
    } else {
      assert EncAll(es) + x == Enc(es[0]) + (EncAll(es[1..]) + x);
      DecodeEnc(es[0], EncAll(es[1..]) + x, maps, arrays, true);
      DecodeEncAll(es[1..], x, maps, arrays);
    }
  }

  lemma {:induction false} DecodeEncEntry(e: Entry, x: bytes, maps: nat, arrays: nat)
    requires EncodableEntry(e) && maps <= MAX_MAP_DEPTH && arrays <= MAX_ARRAY_DEPTH
    ensures OnePair(EncEntry(e) + x, maps, arrays) ==
            if PairFits(e, MAX_MAP_DEPTH - maps, MAX_ARRAY_DEPTH - arrays) then Ok(LoosenedEntry(e), x) else Fail
    decreases e, 2
  {
    Regroup(Enc(e.key), Enc(e.val), x);
    DecodeEnc(e.key, Enc(e.val) + x, maps, arrays, false);
    DecodeEnc(e.val, x, maps, arrays, false);
    assert Comparable(Loosened(e.key, false)) <==> Comparable(e.key);
  }

  lemma {:induction false} DecodeEncPairs(es: seq<Entry>, x: bytes, maps: nat, arrays: nat)
    requires EncodablePairs(es)
    requires maps <= MAX_MAP_DEPTH && arrays <= MAX_ARRAY_DEPTH
    ensures DecodePairs(EncPairs(es) + x, |es|, maps, arrays) ==
            if PairsFit(es, MAX_MAP_DEPTH - maps, MAX_ARRAY_DEPTH - arrays) then Ok(LoosenedPairs(es), x) else Fail
    decreases es, 2
  {
    if es == [] {
      assert [] + x == x;
    } else {
      Regroup(EncEntry(es[0]), EncPairs(es[1..]), x);
      DecodeEncEntry(es[0], EncPairs(es[1..]) + x, maps, arrays);
      DecodeEncPairs(es[1..], x, maps, arrays);
    }
  }

  // ---------------------------------------------------------------- what a list does to byte strings

  /** No array anywhere in the value has a byte string or a float32 as an element. */
  predicate Faithful(v: Value)
    decreases v, 0
  {
    match v
    case Arr(es) => FaithfulAll(es)
    case Map(es) => FaithfulPairs(es)
    case _ => true
  }

  predicate FaithfulAll(es: seq<Value>)
    decreases es, 1
  {
    es == [] || (!es[0].Bin? && !es[0].F32? && Faithful(es[0]) && FaithfulAll(es[1..]))
  }

  predicate FaithfulEntry(e: Entry)
    decreases e, 1
  {
    Faithful(e.key) && Faithful(e.val)
  }

  predicate FaithfulPairs(es: seq<Entry>)
    decreases es, 2
  {
    es == [] || (FaithfulEntry(es[0]) && FaithfulPairs(es[1..]))
  }

  /** A value comes back unchanged exactly when no list in it holds a byte string or a float32. */
  lemma {:induction false} UnchangedIffFaithful(v: Value, loose: bool)
    ensures Loosened(v, loose) == v <==> Faithful(v) && !(loose && (v.Bin? || v.F32?))
    decreases v, 0
  {
    match v
    case Arr(es) => UnchangedAllIff(es);
    case Map(es) => UnchangedPairsIff(es);
    case _ =>
  }

  lemma {:induction false} UnchangedAllIff(es: seq<Value>)
    ensures LoosenedAll(es) == es <==> FaithfulAll(es)
    decreases es, 1
  {
    if es != [] {
      UnchangedIffFaithful(es[0], true);
      UnchangedAllIff(es[1..]);
      var r := LoosenedAll(es);
      assert r[0] == Loosened(es[0], true) && r[1..] == LoosenedAll(es[1..]);
      assert es == [es[0]] + es[1..];
    }
  }

  lemma {:induction false} UnchangedEntryIff(e: Entry)
    ensures LoosenedEntry(e) == e <==> FaithfulEntry(e)
    decreases e, 1
  {
    UnchangedIffFaithful(e.key, false);
    UnchangedIffFaithful(e.val, false);
  }

  lemma {:induction false} UnchangedPairsIff(es: seq<Entry>)
    ensures LoosenedPairs(es) == es <==> FaithfulPairs(es)
    decreases es, 2
  {
    if es != [] {
      UnchangedEntryIff(es[0]);
      UnchangedPairsIff(es[1..]);
      var r := LoosenedPairs(es);
      assert r[0] == LoosenedEntry(es[0]) && r[1..] == LoosenedPairs(es[1..]);
      assert es == [es[0]] + es[1..];
    }
  }

  // ---------------------------------------------------------------- limits of what is accepted

  /** Whatever bytes are decoded, what is accepted is within the limits. */
  lemma {:induction false} DecodedFits(data: bytes, maps: nat, arrays: nat, loose: bool)
    requires maps <= MAX_MAP_DEPTH && arrays <= MAX_ARRAY_DEPTH && Decode(data, maps, arrays, loose).Ok?
    ensures Fits(Decode(data, maps, arrays, loose).v, MAX_MAP_DEPTH - maps, MAX_ARRAY_DEPTH - arrays)
    decreases |data|, 0
  {
    DecodeOn(data, maps, arrays, loose);
    var h := ParseHead(data);
    if h.Sized? {
      SizedFits(h.kind, h.n, h.rest, maps, arrays, loose);
    } else {
      AtomsAreFlat(data);
    }
  }

  lemma AtomsAreFlat(data: bytes)
    ensures var h := ParseHead(data); h.Atom? ==> !h.v.Arr? && !h.v.Map?
  {}

  lemma {:induction false} SizedFits(kind: Kind, n: nat, rest: bytes, maps: nat, arrays: nat, loose: bool)
    requires maps <= MAX_MAP_DEPTH && arrays <= MAX_ARRAY_DEPTH && SizedValue(kind, n, rest, maps, arrays, loose).Ok?
    ensures Fits(SizedValue(kind, n, rest, maps, arrays, loose).v, MAX_MAP_DEPTH - maps, MAX_ARRAY_DEPTH - arrays)
    decreases |rest|, 4
  {
    match kind
    case KArr => ArrFits(n, rest, maps, arrays);
    case KMap => MapFits(n, rest, maps, arrays);
    case _ =>
  }

  lemma {:induction false} ArrFits(n: nat, rest: bytes, maps: nat, arrays: nat)
    requires maps <= MAX_MAP_DEPTH && arrays <= MAX_ARRAY_DEPTH && ArrValue(n, rest, maps, arrays).Ok?
    ensures Fits(ArrValue(n, rest, maps, arrays).v, MAX_MAP_DEPTH - maps, MAX_ARRAY_DEPTH - arrays)
    decreases |rest|, 3
  {
    var vs := DecodeMany(rest, n, maps, arrays + 1).v;
    FitsArr(vs, MAX_MAP_DEPTH - maps, MAX_ARRAY_DEPTH - arrays);
    if n > 0 {
      DecodedAllFit(rest, n, maps, arrays + 1);
    }
  }

  lemma {:induction false} MapFits(n: nat, rest: bytes, maps: nat, arrays: nat)
    requires maps <= MAX_MAP_DEPTH && arrays <= MAX_ARRAY_DEPTH && MapValue(n, rest, maps, arrays).Ok?
    ensures Fits(MapValue(n, rest, maps, arrays).v, MAX_MAP_DEPTH - maps, MAX_ARRAY_DEPTH - arrays)
    decreases |rest|, 3
  {
    FitsMap(DecodePairs(rest, n, maps + 1, arrays).v, MAX_MAP_DEPTH - maps, MAX_ARRAY_DEPTH - arrays);
    DecodedPairsFit(rest, n, maps + 1, arrays);
  }

  lemma {:induction false} DecodedAllFit(data: bytes, n: nat, maps: nat, arrays: nat)
    requires maps <= MAX_MAP_DEPTH && DecodeMany(data, n, maps, arrays).Ok? && n > 0
    ensures arrays <= MAX_ARRAY_DEPTH
    ensures AllFit(DecodeMany(data, n, maps, arrays).v, MAX_MAP_DEPTH - maps, MAX_ARRAY_DEPTH - arrays)
    decreases |data|, 2
  {
    DecodedFits(data, maps, arrays, true);
    var first := Decode(data, maps, arrays, true);
    if n > 1 {
      DecodedAllFit(first.rest, n - 1, maps, arrays);
    }
    AllFitCons(first.v, DecodeMany(first.rest, n - 1, maps, arrays).v, MAX_MAP_DEPTH - maps, MAX_ARRAY_DEPTH - arrays);
  }

  lemma AllFitCons(v: Value, vs: seq<Value>, maps: nat, arrays: nat)
    requires Fits(v, maps, arrays) && AllFit(vs, maps, arrays)
    ensures AllFit([v] + vs, maps, arrays)
  {
    assert ([v] + vs)[1..] == vs;
  }

  lemma PairsFitCons(e: Entry, es: seq<Entry>, maps: nat, arrays: nat)
    requires PairFits(e, maps, arrays) && PairsFit(es, maps, arrays)
    ensures PairsFit([e] + es, maps, arrays)
  {
    assert ([e] + es)[1..] == es;
  }

  lemma {:induction false} DecodedPairsFit(data: bytes, n: nat, maps: nat, arrays: nat)
    requires maps <= MAX_MAP_DEPTH && arrays <= MAX_ARRAY_DEPTH && DecodePairs(data, n, maps, arrays).Ok?
    ensures PairsFit(DecodePairs(data, n, maps, arrays).v, MAX_MAP_DEPTH - maps, MAX_ARRAY_DEPTH - arrays)
    decreases |data|, 2
  {
    if n > 0 {
      var one := OnePair(data, maps, arrays);
      DecodedPairFits(data, maps, arrays);
      DecodedPairsFit(one.rest, n - 1, maps, arrays);
      PairsFitCons(one.v, DecodePairs(one.rest, n - 1, maps, arrays).v, MAX_MAP_DEPTH - maps, MAX_ARRAY_DEPTH - arrays);
    }
  }

  lemma {:induction false} DecodedPairFits(data: bytes, maps: nat, arrays: nat)
    requires maps <= MAX_MAP_DEPTH && arrays <= MAX_ARRAY_DEPTH && OnePair(data, maps, arrays).Ok?
    ensures PairFits(OnePair(data, maps, arrays).v, MAX_MAP_DEPTH - maps, MAX_ARRAY_DEPTH - arrays)
    decreases |data|, 1
  {
    DecodedFits(data, maps, arrays, false);
    DecodedFits(Decode(data, maps, arrays, false).rest, maps, arrays, false);
  }

  // ---------------------------------------------------------------- locality

  /** The same head in front of more bytes. */
  function Before(h: Head, x: bytes): Head {
    match h
    case Bad => Bad
    case Atom(v, rest) => Atom(v, rest + x)
    case Sized(kind, n, rest) => Sized(kind, n, rest + x)
  }

  lemma SliceOfConcat(r: bytes, x: bytes, w: nat)
    requires w <= |r|
    ensures (r + x)[..w] == r[..w] && (r + x)[w..] == r[w..] + x
  {}

  lemma ExtExtends(n: nat, r: bytes, x: bytes)
    requires ExtOf(n, r) != Bad
    ensures ExtOf(n, r + x) == Before(ExtOf(n, r), x)
  {
    SliceOfConcat(r, x, 1);
  }

  lemma HeadOfExtends(s: Shape, r: bytes, x: bytes)
    requires HeadOf(s, r) != Bad
    ensures HeadOf(s, r + x) == Before(HeadOf(s, r), x)
  {
    match s
    case Number(_, w) => SliceOfConcat(r, x, w);
    case Long(_, w) => SliceOfConcat(r, x, w);
    case Ext(n) => ExtExtends(n, r, x);
    case LongExt(w) =>
      SliceOfConcat(r, x, w);
      ExtExtends(FromBE(r[..w]), r[w..], x);
    case _ =>
  }

  lemma HeadExtends(data: bytes, x: bytes)
    requires ParseHead(data) != Bad
    ensures ParseHead(data + x) == Before(ParseHead(data), x)
  {
    assert (data + x)[0] == data[0];
    SliceOfConcat(data, x, 1);
    HeadOfExtends(ShapeOf(data[0]), data[1..], x);
  }

  /** The same result in front of more bytes. */
  function More<T>(r: Parsed<T>, x: bytes): Parsed<T> {
    match r case Fail => Fail case Ok(v, rest) => Ok(v, rest + x)
  }

  /** Accepting a value depends on no byte behind it. */
  lemma {:induction false} DecodeExtends(data: bytes, x: bytes, maps: nat, arrays: nat, loose: bool)
    requires Decode(data, maps, arrays, loose).Ok?
    ensures Decode(data + x, maps, arrays, loose) == More(Decode(data, maps, arrays, loose), x)
    decreases |data|, 0
  {
    DecodeOn(data, maps, arrays, loose);
    DecodeOn(data + x, maps, arrays, loose);
    HeadExtends(data, x);
    var h := ParseHead(data);
    if h.Sized? {
      SizedExtends(h.kind, h.n, h.rest, x, maps, arrays, loose);
    }
  }

  lemma {:induction false} SizedExtends(kind: Kind, n: nat, rest: bytes, x: bytes, maps: nat, arrays: nat, loose: bool)
    requires SizedValue(kind, n, rest, maps, arrays, loose).Ok?
    ensures SizedValue(kind, n, rest + x, maps, arrays, loose) ==
            More(SizedValue(kind, n, rest, maps, arrays, loose), x)
    decreases |rest|, 4
  {
    match kind
    case KArr => DecodeManyExtends(rest, x, n, maps, arrays + 1);
    case KMap => DecodePairsExtends(rest, x, n, maps + 1, arrays);
    case _ => SliceOfConcat(rest, x, n);
  }

  lemma {:induction false} DecodeManyExtends(data: bytes, x: bytes, n: nat, maps: nat, arrays: nat)
    requires DecodeMany(data, n, maps, arrays).Ok?
    ensures DecodeMany(data + x, n, maps, arrays) == More(DecodeMany(data, n, maps, arrays), x)
    decreases |data|, 2
  {
    if n > 0 {
      DecodeExtends(data, x, maps, arrays, true);
      DecodeManyExtends(Decode(data, maps, arrays, true).rest, x, n - 1, maps, arrays);
    }
  }

  lemma {:induction false} OnePairExtends(data: bytes, x: bytes, maps: nat, arrays: nat)
    requires OnePair(data, maps, arrays).Ok?
    ensures OnePair(data + x, maps, arrays) == More(OnePair(data, maps, arrays), x)
    decreases |data|, 1
  {
    DecodeExtends(data, x, maps, arrays, false);
    DecodeExtends(Decode(data, maps, arrays, false).rest, x, maps, arrays, false);
  }

  lemma {:induction false} DecodePairsExtends(data: bytes, x: bytes, n: nat, maps: nat, arrays: nat)
    requires DecodePairs(data, n, maps, arrays).Ok?
    ensures DecodePairs(data + x, n, maps, arrays) == More(DecodePairs(data, n, maps, arrays), x)
    decreases |data|, 2
  {
    if n > 0 {
      OnePairExtends(data, x, maps, arrays);
      DecodePairsExtends(OnePair(data, maps, arrays).rest, x, n - 1, maps, arrays);
    }
  }

  // ---------------------------------------------------------------- what is left is a suffix

  predicate IsSuffix(rest: bytes, data: bytes) {
    |rest| <= |data| && rest == data[|data| - |rest|..]
  }

  lemma SuffixOfSuffix(a: bytes, b: bytes, c: bytes)
    requires IsSuffix(a, b) && IsSuffix(b, c)
    ensures IsSuffix(a, c)
  {
    assert b[|b| - |a|..] == c[|c| - |a|..];
  }

  lemma HeadOfRestIsSuffix(s: Shape, r: bytes)
    requires HeadOf(s, r) != Bad
    ensures IsSuffix(HeadOf(s, r).rest, r)
  {}

  lemma HeadRestIsSuffix(data: bytes)
    requires ParseHead(data) != Bad
    ensures IsSuffix(ParseHead(data).rest, data)
  {
    TailIsSuffix(data);
    HeadOfRestIsSuffix(ShapeOf(data[0]), data[1..]);
    SuffixOfSuffix(HeadOf(ShapeOf(data[0]), data[1..]).rest, data[1..], data);
  }

  lemma TailIsSuffix(data: bytes)
    requires data != []
    ensures IsSuffix(data[1..], data)
  {}

  lemma {:induction false} DecodeLeavesSuffix(data: bytes, maps: nat, arrays: nat, loose: bool)
    requires Decode(data, maps, arrays, loose).Ok?
    ensures IsSuffix(Decode(data, maps, arrays, loose).rest, data)
    decreases |data|, 0
  {
    DecodeOn(data, maps, arrays, loose);
    HeadRestIsSuffix(data);
    var h := ParseHead(data);
    if h.Sized? {
      SizedLeavesSuffix(h.kind, h.n, h.rest, maps, arrays, loose);
      SuffixOfSuffix(SizedValue(h.kind, h.n, h.rest, maps, arrays, loose).rest, h.rest, data);
    }
  }

  lemma {:induction false} SizedLeavesSuffix(kind: Kind, n: nat, rest: bytes, maps: nat, arrays: nat, loose: bool)
    requires SizedValue(kind, n, rest, maps, arrays, loose).Ok?
    ensures IsSuffix(SizedValue(kind, n, rest, maps, arrays, loose).rest, rest)
    decreases |rest|, 4
  {
    match kind
    case KArr => ManyLeavesSuffix(rest, n, maps, arrays + 1);
    case KMap => PairsLeaveSuffix(rest, n, maps + 1, arrays);
    case _ =>
  }

  lemma {:induction false} ManyLeavesSuffix(data: bytes, n: nat, maps: nat, arrays: nat)
    requires DecodeMany(data, n, maps, arrays).Ok?
    ensures IsSuffix(DecodeMany(data, n, maps, arrays).rest, data)
    decreases |data|, 2
  {
    if n > 0 {
      var rest := Decode(data, maps, arrays, true).rest;
      DecodeLeavesSuffix(data, maps, arrays, true);
      ManyLeavesSuffix(rest, n - 1, maps, arrays);
      SuffixOfSuffix(DecodeMany(rest, n - 1, maps, arrays).rest, rest, data);
    }
  }

  lemma {:induction false} OnePairLeavesSuffix(data: bytes, maps: nat, arrays: nat)
    requires OnePair(data, maps, arrays).Ok?
    ensures IsSuffix(OnePair(data, maps, arrays).rest, data)
    decreases |data|, 1
  {
    var rest := Decode(data, maps, arrays, false).rest;
    DecodeLeavesSuffix(data, maps, arrays, false);
    DecodeLeavesSuffix(rest, maps, arrays, false);
    SuffixOfSuffix(Decode(rest, maps, arrays, false).rest, rest, data);
  }

  lemma {:induction false} PairsLeaveSuffix(data: bytes, n: nat, maps: nat, arrays: nat)
    requires DecodePairs(data, n, maps, arrays).Ok?
    ensures IsSuffix(DecodePairs(data, n, maps, arrays).rest, data)
    decreases |data|, 2
  {
    if n > 0 {
      var rest := OnePair(data, maps, arrays).rest;
      OnePairLeavesSuffix(data, maps, arrays);
      PairsLeaveSuffix(rest, n - 1, maps, arrays);
      SuffixOfSuffix(DecodePairs(rest, n - 1, maps, arrays).rest, rest, data);
    }
  }

  // ---------------------------------------------------------------- the format

  /** The forms of one byte. */
  lemma ShortForms(c: byte, x: bytes)
    ensures var h := ParseHead([c] + x);
            && (c <= 0x7F ==> h == Atom(Int(c), x)) && (c >= 0xE0 ==> h == Atom(Int(c - 256), x))
            && (0x80 <= c <= 0x8F ==> h == Sized(KMap, c - 0x80, x))
            && (0x90 <= c <= 0x9F ==> h == Sized(KArr, c - 0x90, x))
            && (0xA0 <= c <= 0xBF ==> h == Sized(KStr, c - 0xA0, x))
            && (c == 0xC0 ==> h == Atom(Nil, x)) && (c == 0xC1 ==> h == Bad)
            && (c == 0xC2 ==> h == Atom(Bool(false), x)) && (c == 0xC3 ==> h == Atom(Bool(true), x))
  {
    CodeHead(c, x);
  }

  lemma HeadOfNumber(numeral: Numeral, bits: bytes, x: bytes)
    ensures HeadOf(Number(numeral, |bits|), bits + x) == Atom(NumberOf(numeral, bits), x)
  {
    assert (bits + x)[..|bits|] == bits && (bits + x)[|bits|..] == x;
  }

  lemma HeadOfLong(kind: Kind, len: bytes, x: bytes)
    ensures HeadOf(Long(kind, |len|), len + x) == Sized(kind, FromBE(len), x)
  {
    assert (len + x)[..|len|] == len && (len + x)[|len|..] == x;
  }

  lemma NumberForm(c: byte, numeral: Numeral, bits: bytes, x: bytes)
    requires ShapeOf(c) == Number(numeral, |bits|)
    ensures ParseHead([c] + bits + x) == Atom(NumberOf(numeral, bits), x)
  {
    assert [c] + bits + x == [c] + (bits + x);
    CodeHead(c, bits + x);
    HeadOfNumber(numeral, bits, x);
  }

  lemma LengthForm(c: byte, kind: Kind, len: bytes, x: bytes)
    requires ShapeOf(c) == Long(kind, |len|)
    ensures ParseHead([c] + len + x) == Sized(kind, FromBE(len), x)
  {
    assert [c] + len + x == [c] + (len + x);
    CodeHead(c, len + x);
    HeadOfLong(kind, len, x);
  }

  function Width(i: nat): nat {
    if i == 0 then 1 else if i == 1 then 2 else if i == 2 then 4 else 8
  }

  lemma NumberCodes(i: nat)
    requires i < 4
    ensures ShapeOf(0xCC + i) == Number(Unsigned, Width(i)) && ShapeOf(0xD0 + i) == Number(TwosComplement, Width(i))
  {}

  lemma LengthCodes(i: nat)
    requires i < 3
    ensures ShapeOf(0xC4 + i) == Long(KBin, Width(i)) && ShapeOf(0xD9 + i) == Long(KStr, Width(i))
    ensures i > 0 ==> ShapeOf(0xDB + i) == Long(KArr, Width(i)) && ShapeOf(0xDD + i) == Long(KMap, Width(i))
  {}

  /** Numbers in 1, 2, 4 and 8 bytes: a sender may use any width that holds the number. */
  lemma NumberForms(i: nat, bits: bytes, x: bytes)
    requires i < 4 && |bits| == Width(i)
    ensures ParseHead([0xCC + i] + bits + x) == Atom(Int(FromBE(bits)), x)
    ensures ParseHead([0xD0 + i] + bits + x) == Atom(Int(Signed(FromBE(bits), |bits|)), x)
  {
    NumberCodes(i);
    NumberForm(0xCC + i, Unsigned, bits, x);
    NumberForm(0xD0 + i, TwosComplement, bits, x);
  }

  /** Two's complement: the number with the same last bits, between the two bounds of the width. */
  lemma SignedIsTwosComplement(n: nat, w: nat)
    requires w > 0 && n < Pow2(8 * w)
    ensures Signed(n, w) == n || Signed(n, w) == n - Pow2(8 * w)
    ensures 0 <= Signed(n, w) + Pow2(8 * w - 1) && Signed(n, w) < Pow2(8 * w - 1)
  {
    assert Pow2(8 * w) == 2 * Pow2(8 * w - 1);
  }

  /** Floats are their own bytes. */
  lemma FloatForms(bits: bytes, x: bytes)
    ensures |bits| == 4 ==> ParseHead([0xCA] + bits + x) == Atom(F32(bits), x)
    ensures |bits| == 8 ==> ParseHead([0xCB] + bits + x) == Atom(F64(bits), x)
  {
    if |bits| == 4 {
      NumberForm(0xCA, Float32, bits, x);
    } else if |bits| == 8 {
      NumberForm(0xCB, Float64, bits, x);
    }
  }

  /** Lengths in 1, 2 and 4 bytes. */
  lemma LengthForms(i: nat, len: bytes, x: bytes)
    requires i < 3 && |len| == Width(i)
    ensures ParseHead([0xC4 + i] + len + x) == Sized(KBin, FromBE(len), x)
    ensures ParseHead([0xD9 + i] + len + x) == Sized(KStr, FromBE(len), x)
    ensures i > 0 ==> ParseHead([0xDB + i] + len + x) == Sized(KArr, FromBE(len), x)
    ensures i > 0 ==> ParseHead([0xDD + i] + len + x) == Sized(KMap, FromBE(len), x)
  {
    LengthCodes(i);
    LengthForm(0xC4 + i, KBin, len, x);
    LengthForm(0xD9 + i, KStr, len, x);
    if i > 0 {
      LengthForm(0xDB + i, KArr, len, x);
      LengthForm(0xDD + i, KMap, len, x);
    }
  }

  /** The encoder takes the shortest form of each. */
  lemma ShortestForm(v: Value)
    requires Encodable(v)
    ensures v.Int? ==>
              |Enc(v)| == if -0x20 <= v.n <= 0x7F then 1
                          else if -0x80 <= v.n <= 0xFF then 2
                          else if -0x8000 <= v.n <= 0xFFFF then 3
                          else if -0x8000_0000 <= v.n <= 0xFFFF_FFFF then 5 else 9
    ensures v.Str? ==>
              |Enc(v)| - |v.s| == if |v.s| < 32 then 1 else if |v.s| < 0x100 then 2
                                  else if |v.s| < 0x1_0000 then 3 else 5
    ensures v.Bin? ==> |Enc(v)| - |v.s| == if |v.s| < 0x100 then 2 else if |v.s| < 0x1_0000 then 3 else 5
    ensures v.Arr? ==>
              |Enc(v)| - |EncAll(v.elems)| == if |v.elems| < 16 then 1 else if |v.elems| < 0x1_0000 then 3 else 5
    ensures v.Map? ==>
              |Enc(v)| - |EncPairs(v.entries)| ==
              if |v.entries| < 16 then 1 else if |v.entries| < 0x1_0000 then 3 else 5
  {}

  /** A map key that Go cannot compare makes the whole map unreadable. */
  lemma BadKeysAreRefused(e: Entry, x: bytes)
    requires Encodable(Map([e])) && (e.key.Bin? || e.key.Arr? || e.key.Map?)
    ensures Decode(Enc(Map([e])) + x, 0, 0, false) == Fail
  {
    var es := [e];
    DecodeEnc(Map(es), x, 0, 0, false);
    assert es[0] == e && !PairFits(e, MAX_MAP_DEPTH - 1, MAX_ARRAY_DEPTH);
    assert !PairsFit(es, MAX_MAP_DEPTH - 1, MAX_ARRAY_DEPTH);
    assert !Fits(Map(es), MAX_MAP_DEPTH, MAX_ARRAY_DEPTH);
  }

  /** The three forms of a timestamp: extension type -1 with 4, 8 or 12 bytes. */
  lemma TimeForms(s: bytes, x: bytes)
    ensures |s| == 4 ==> Decode([0xD6, 0xFF] + s + x, 0, 0, false) == Ok(Time(s), x)
    ensures |s| == 8 ==> Decode([0xD7, 0xFF] + s + x, 0, 0, false) == Ok(Time(s), x)
    ensures |s| == 12 ==> Decode([0xC7, 12, 0xFF] + s + x, 0, 0, false) == Ok(Time(s), x)
  {
    if |s| == 4 || |s| == 8 || |s| == 12 {
      DecodeEnc(Time(s), x, 0, 0, false);
      var none := ToBE(0, 0);
      assert ToBE(12, 1) == none + [12] == [12];
      assert [0xC7] + [12] + [0xFF] == [0xC7, 12, 0xFF];
    }
  }

  // ---------------------------------------------------------------- the limits

  /** `n` maps, each in the one around it. */
  function NestedMaps(n: nat): (v: Value)
    ensures Encodable(v)
  {
    if n == 0 then Nil
    else
      var es := [Entry(Int(0), NestedMaps(n - 1))];
      assert es[1..] == [] && EncodableEntry(es[0]) && EncodablePairs(es);
      Map(es)
  }

  lemma {:induction false} NestedMapsFit(n: nat, maps: nat, arrays: nat)
    ensures Fits(NestedMaps(n), maps, arrays) <==> n <= maps
  {
    if n > 0 {
      var e := Entry(Int(0), NestedMaps(n - 1));
      assert NestedMaps(n) == Map([e]);
      assert [e][0] == e && [e][1..] == [];
      if maps > 0 {
        NestedMapsFit(n - 1, maps - 1, arrays);
        assert PairFits(e, maps - 1, arrays) <==> n - 1 <= maps - 1;
        assert PairsFit([e], maps - 1, arrays) <==> PairFits(e, maps - 1, arrays);
      }
    }
  }

  function NestedLists(n: nat): (v: Value)
    ensures Encodable(v)
  {
    if n == 0 then Nil
    else
      var es := [NestedLists(n - 1)];
      assert es[1..] == [] && EncodableAll(es);
      Arr(es)
  }

  lemma {:induction false} NestedListsFit(n: nat, maps: nat, arrays: nat)
    ensures Fits(NestedLists(n), maps, arrays) <==> n <= arrays
  {
    if n > 0 {
      var v := NestedLists(n - 1);
      assert NestedLists(n) == Arr([v]);
      assert [v][0] == v && [v][1..] == [];
      if arrays > 0 {
        NestedListsFit(n - 1, maps, arrays - 1);
        assert AllFit([v], maps, arrays - 1) <==> Fits(v, maps, arrays - 1);
      }
    }
  }

  /** In numbers: maps are read to a depth of 32, lists to a depth of 10000. */
  lemma NestedIsReadIff(n: nat, x: bytes)
    ensures Decode(Enc(NestedMaps(n)) + x, 0, 0, false) == if n <= 32 then Ok(NestedMaps(n), x) else Fail
    ensures Decode(Enc(NestedLists(n)) + x, 0, 0, false) == if n <= 10_000 then Ok(NestedLists(n), x) else Fail
  {
    DecodeEnc(NestedMaps(n), x, 0, 0, false);
    DecodeEnc(NestedLists(n), x, 0, 0, false);
    NestedMapsFit(n, 32, 10_000);
    NestedListsFit(n, 32, 10_000);
    NestedMapsStay(n);
    NestedListsStay(n, false);
  }

  lemma {:induction false} NestedMapsStay(n: nat)
    ensures Loosened(NestedMaps(n), false) == NestedMaps(n)
  {
    if n > 0 {
      var e := Entry(Int(0), NestedMaps(n - 1));
      NestedMapsStay(n - 1);
      assert [e][0] == e && [e][1..] == [];
      assert LoosenedPairs([e]) == [LoosenedEntry(e)] + LoosenedPairs([]);
    }
  }

  lemma {:induction false} NestedListsStay(n: nat, loose: bool)
    ensures Loosened(NestedLists(n), loose) == NestedLists(n)
  {
    if n > 0 {
      var v := NestedLists(n - 1);
      NestedListsStay(n - 1, true);
      assert [v][0] == v && [v][1..] == [];
      assert LoosenedAll([v]) == [Loosened(v, true)] + LoosenedAll([]);
    }
  }

  /** The same entry `n` times. */
  function Entries(n: nat): (es: seq<Entry>)
    ensures |es| == n && EncodablePairs(es)
  {
    if n == 0 then []
    else
      var es := [Entry(Int(0), Nil)] + Entries(n - 1);
      assert es[1..] == Entries(n - 1) && EncodableEntry(es[0]);
      es
  }

  lemma {:induction false} EntriesFit(n: nat, maps: nat, arrays: nat)
    ensures PairsFit(Entries(n), maps, arrays)
  {
    if n > 0 {
      EntriesFit(n - 1, maps, arrays);
      assert Entries(n)[1..] == Entries(n - 1);
    }
  }

  /** In numbers: a map is read with up to 8192 entries. */
  lemma WideIsReadIff(n: nat, x: bytes)
    requires n < UINT32_LIMIT
    ensures Encodable(Map(Entries(n))) && (Decode(Enc(Map(Entries(n))) + x, 0, 0, false).Ok? <==> n <= 8192)
  {
    assert Encodable(Map(Entries(n)));
    DecodeEnc(Map(Entries(n)), x, 0, 0, false);
    EntriesFit(n, 31, 10_000);
  }
}
